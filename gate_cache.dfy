/** GateCache: gate matrices kept on the host and mirrored on a device,
    keyed by gate name and parameter value, with a running count of the
    device bytes allocated. A device buffer is represented by its length. */
module Cache {
  import opened StateVector

  /** The floating-point type the cache is instantiated with. */
  datatype Precision = Single | Double

  /** sizeof(CFP_t): a cuComplex is two floats, a cuDoubleComplex two doubles. */
  function ComplexBytes(p: Precision): (r: nat)
    ensures r == 8 || r == 16
  {
    match p
    case Single => 8
    case Double => 16
  }

  /** gate_id: the gate name and its parameter value, 0.0 for fixed gates. */
  type GateId = (string, real)

  const One: Complex := Complex(1.0, 0.0)
  const Zero: Complex := Complex(0.0, 0.0)
  const Imag: Complex := Complex(0.0, 1.0)
  /** 1/sqrt(2) = sqrt(2)/2 to twenty decimal places: the Hadamard entries
      and both parts of the T gate's phase sqrt(2)/2 * (1 + i). */
  const InvSqrt2: real := 0.70710678118654752440

  /** The 4x4 SWAP matrix, row-major. */
  const SwapMatrix: seq<Complex> := [
    One, Zero, Zero, Zero,
    Zero, Zero, One, Zero,
    Zero, One, Zero, Zero,
    Zero, Zero, Zero, One]

  /** The gates defaultPopulateCache stores, all at parameter 0.0. The
      controlled gates CNOT, Toffoli and CZ are stored as the 2x2 matrix of
      their target, and CSWAP as SWAP's matrix. */
  function DefaultGates(): (r: map<GateId, seq<Complex>>)
    ensures forall g | g in r :: g.1 == 0.0 && (|r[g]| == 4 || |r[g]| == 16)
  {
    map[
      ("Identity", 0.0) := [One, Zero, Zero, One],
      ("PauliX", 0.0) := [Zero, One, One, Zero],
      ("PauliY", 0.0) := [Zero, Complex(0.0, -1.0), Imag, Zero],
      ("PauliZ", 0.0) := [One, Zero, Zero, Complex(-1.0, 0.0)],
      ("Hadamard", 0.0) := [Complex(InvSqrt2, 0.0), Complex(InvSqrt2, 0.0), Complex(InvSqrt2, 0.0), Complex(-InvSqrt2, 0.0)],
      ("S", 0.0) := [One, Zero, Zero, Imag],
      ("T", 0.0) := [One, Zero, Zero, Complex(InvSqrt2, InvSqrt2)],
      ("SWAP", 0.0) := SwapMatrix,
      ("CNOT", 0.0) := [Zero, One, One, Zero],
      ("Toffoli", 0.0) := [Zero, One, One, Zero],
      ("CZ", 0.0) := [One, Zero, Zero, Complex(-1.0, 0.0)],
      ("CSWAP", 0.0) := SwapMatrix]
  }

  /** The names of the default gates. */
  const DefaultNames: set<string> := {
    "Identity", "PauliX", "PauliY", "PauliZ", "Hadamard", "S", "T",
    "SWAP", "CNOT", "Toffoli", "CZ", "CSWAP"}

  /** The default gates are exactly the twelve names, each at parameter 0.0. */
  lemma DefaultGateKeys(g: GateId)
    ensures g in DefaultGates() <==> g.0 in DefaultNames && g.1 == 0.0
  {
  }

  /** SWAP and CSWAP hold 16 entries; every other default gate, two-qubit
      CNOT and CZ and three-qubit Toffoli included, holds 4. */
  lemma DefaultGateSizes(g: GateId)
    requires g in DefaultGates()
    ensures |DefaultGates()[g]| == if g.0 == "SWAP" || g.0 == "CSWAP" then 16 else 4
  {
  }

  /** CSWAP is a copy of SWAP; CNOT and Toffoli store PauliX, CZ stores PauliZ. */
  lemma DefaultGateAliases()
    ensures DefaultGates()[("CSWAP", 0.0)] == DefaultGates()[("SWAP", 0.0)]
    ensures DefaultGates()[("CNOT", 0.0)] == DefaultGates()[("PauliX", 0.0)]
    ensures DefaultGates()[("Toffoli", 0.0)] == DefaultGates()[("PauliX", 0.0)]
    ensures DefaultGates()[("CZ", 0.0)] == DefaultGates()[("PauliZ", 0.0)]
  {
  }

  /** The lengths of the host matrices: the device buffers made for them. */
  function Sizes(host: map<GateId, seq<Complex>>): (r: map<GateId, nat>)
    ensures r.Keys == host.Keys
    ensures forall k | k in r :: r[k] == |host[k]|
  {
    map k | k in host :: |host[k]|
  }

  /** The lengths of the host matrices under `keys`. */
  function SizesOn(host: map<GateId, seq<Complex>>, keys: set<GateId>): map<GateId, nat>
    requires keys <= host.Keys
  {
    map k | k in keys :: |host[k]|
  }

  /** Making one more device buffer extends the table by that key. */
  lemma SizesOnInsert(dev0: map<GateId, nat>, host: map<GateId, seq<Complex>>, keys: set<GateId>, k: GateId)
    requires keys <= host.Keys && k in host
    ensures dev0 + SizesOn(host, keys + {k}) == (dev0 + SizesOn(host, keys))[k := |host[k]|]
  {
  }

  /** The total number of entries of the host matrices under `keys`. */
  ghost function SizeSum(host: map<GateId, seq<Complex>>, keys: set<GateId>): nat
    requires keys <= host.Keys
    decreases keys
  {
    if keys == {} then 0
    else
      var k :| k in keys;
      |host[k]| + SizeSum(host, keys - {k})
  }

  /** The total does not depend on the order the keys are visited in: any key
      can be taken out first. */
  lemma SizeSumRemove(host: map<GateId, seq<Complex>>, keys: set<GateId>, k: GateId)
    requires keys <= host.Keys && k in keys
    ensures SizeSum(host, keys) == |host[k]| + SizeSum(host, keys - {k})
    decreases keys
  {
    var y :| y in keys && SizeSum(host, keys) == |host[y]| + SizeSum(host, keys - {y});
    if y != k {
      SizeSumRemove(host, keys - {y}, k);
      SizeSumRemove(host, keys - {k}, y);
      assert keys - {y} - {k} == keys - {k} - {y};
    }
  }

  /** The default keys, in the order defaultPopulateCache stores them. */
  const DefaultKeys: seq<GateId> := [
    ("Identity", 0.0), ("PauliX", 0.0), ("PauliY", 0.0), ("PauliZ", 0.0),
    ("Hadamard", 0.0), ("S", 0.0), ("T", 0.0), ("SWAP", 0.0),
    ("CNOT", 0.0), ("Toffoli", 0.0), ("CZ", 0.0), ("CSWAP", 0.0)]

  /** The total number of entries of the host matrices under `keys`, in order. */
  function KeySum(host: map<GateId, seq<Complex>>, keys: seq<GateId>): nat
    requires forall i | 0 <= i < |keys| :: keys[i] in host
  {
    if keys == [] then 0 else |host[keys[0]]| + KeySum(host, keys[1..])
  }

  /** Over distinct keys the unordered total is the ordered one. */
  lemma {:induction false} SizeSumOfKeys(host: map<GateId, seq<Complex>>, keys: seq<GateId>)
    requires forall i | 0 <= i < |keys| :: keys[i] in host
    requires forall i, j | 0 <= i < j < |keys| :: keys[i] != keys[j]
    ensures SizeSum(host, set k | k in keys) == KeySum(host, keys)
  {
    if keys != [] {
      var rest := keys[1..];
      SizeSumOfKeys(host, rest);
      SizeSumRemove(host, (set k | k in keys), keys[0]);
      assert (set k | k in keys) - {keys[0]} == set k | k in rest by {
        forall k | k in rest ensures k != keys[0] {
          var j :| 0 <= j < |rest| && rest[j] == k;
          assert keys[j + 1] == k;
        }
        assert forall k | k in keys :: k == keys[0] || k in rest;
      }
    }
  }

  /** The twelve default keys are pairwise distinct and are the default gates' keys. */
  lemma DefaultKeysAreKeys()
    ensures forall i, j | 0 <= i < j < |DefaultKeys| :: DefaultKeys[i] != DefaultKeys[j]
    ensures DefaultGates().Keys == set k | k in DefaultKeys
  {
  }

  lemma DefaultKeySumFrom9()
    ensures KeySum(DefaultGates(), DefaultKeys[9..]) == 24
  {
    var h := DefaultGates();
    assert KeySum(h, DefaultKeys[12..]) == 0;
    assert DefaultKeys[11..][1..] == DefaultKeys[12..];
    assert KeySum(h, DefaultKeys[11..]) == 16;
    assert DefaultKeys[10..][1..] == DefaultKeys[11..];
    assert KeySum(h, DefaultKeys[10..]) == 20;
    assert DefaultKeys[9..][1..] == DefaultKeys[10..];
    assert KeySum(h, DefaultKeys[9..]) == 24;
  }

  lemma DefaultKeySumFrom6()
    ensures KeySum(DefaultGates(), DefaultKeys[6..]) == 48
  {
    DefaultKeySumFrom9();
    var h := DefaultGates();
    assert DefaultKeys[8..][1..] == DefaultKeys[9..];
    assert KeySum(h, DefaultKeys[8..]) == 28;
    assert DefaultKeys[7..][1..] == DefaultKeys[8..];
    assert KeySum(h, DefaultKeys[7..]) == 44;
    assert DefaultKeys[6..][1..] == DefaultKeys[7..];
    assert KeySum(h, DefaultKeys[6..]) == 48;
  }

  lemma DefaultKeySumFrom3()
    ensures KeySum(DefaultGates(), DefaultKeys[3..]) == 60
  {
    DefaultKeySumFrom6();
    var h := DefaultGates();
    assert DefaultKeys[5..][1..] == DefaultKeys[6..];
    assert KeySum(h, DefaultKeys[5..]) == 52;
    assert DefaultKeys[4..][1..] == DefaultKeys[5..];
    assert KeySum(h, DefaultKeys[4..]) == 56;
    assert DefaultKeys[3..][1..] == DefaultKeys[4..];
    assert KeySum(h, DefaultKeys[3..]) == 60;
  }

  lemma DefaultFrontSizes()
    ensures DefaultKeys[0] in DefaultGates() && |DefaultGates()[DefaultKeys[0]]| == 4
    ensures DefaultKeys[1] in DefaultGates() && |DefaultGates()[DefaultKeys[1]]| == 4
    ensures DefaultKeys[2] in DefaultGates() && |DefaultGates()[DefaultKeys[2]]| == 4
  {
  }

  /** The default matrices sum to 10 matrices of 4 entries and 2 of 16. */
  lemma DefaultKeySumFrom0()
    ensures KeySum(DefaultGates(), DefaultKeys[0..]) == 72
  {
    DefaultKeySumFrom3();
    DefaultFrontSizes();
    var h := DefaultGates();
    assert DefaultKeys[2..][1..] == DefaultKeys[3..];
    assert KeySum(h, DefaultKeys[2..]) == 64;
    assert DefaultKeys[1..][1..] == DefaultKeys[2..];
    assert KeySum(h, DefaultKeys[1..]) == 68;
    assert DefaultKeys[0..][1..] == DefaultKeys[1..];
  }

  /** A table whose keys are listed once each sums to the ordered total. */
  lemma SizeSumOfTable(host: map<GateId, seq<Complex>>, keys: seq<GateId>, total: nat)
    requires forall i, j | 0 <= i < j < |keys| :: keys[i] != keys[j]
    requires host.Keys == set k | k in keys
    requires KeySum(host, keys[0..]) == total
    ensures SizeSum(host, host.Keys) == total
  {
    assert keys[0..] == keys;
    SizeSumOfKeys(host, keys);
  }

  /** Populating allocates 10 matrices of 4 entries and 2 of 16: 72 complex
      numbers, 576 bytes in single and 1152 in double precision. */
  lemma DefaultGateTotal()
    ensures SizeSum(DefaultGates(), DefaultGates().Keys) == 72
  {
    DefaultKeysAreKeys();
    DefaultKeySumFrom0();
    SizeSumOfTable(DefaultGates(), DefaultKeys, 72);
  }

  class GateCache {
    /** host_gates_ */
    var hostGates: map<GateId, seq<Complex>>
    /** device_gates_, each buffer given by its length */
    var deviceGates: map<GateId, nat>
    /** total_alloc_bytes_ */
    var totalAllocBytes: nat
    /** fp_t, and the device the buffers are allocated on */
    const precision: Precision
    const deviceId: int

    /** Every device buffer has the length of its key's host matrix, and a key
        held in one table only holds nothing: such keys come only from the
        inserting lookups. */
    predicate Valid()
      reads this
    {
      && (forall k | k in hostGates && k in deviceGates :: deviceGates[k] == |hostGates[k]|)
      && (forall k | k in deviceGates && k !in hostGates :: deviceGates[k] == 0)
      && (forall k | k in hostGates && k !in deviceGates :: hostGates[k] == [])
    }

    /** The host matrix of `k`, empty when there is none. */
    function HostData(k: GateId): seq<Complex>
      reads this
    {
      if k in hostGates then hostGates[k] else []
    }

    /** A valid cache's device buffers always match the host data of their key. */
    lemma DeviceMatchesHost(k: GateId)
      requires Valid() && k in deviceGates
      ensures deviceGates[k] == |HostData(k)|
    {
    }

    /** The gate has both a host matrix and a device buffer. */
    predicate Cached(k: GateId)
      reads this
    {
      k in hostGates && k in deviceGates
    }

    /** GateCache(populate, device_id, stream_id): an empty cache with a zero
        byte count, populated with the default gates when asked. */
    constructor(populate: bool, precision: Precision, deviceId: int)
      ensures Valid()
      ensures this.precision == precision && this.deviceId == deviceId
      ensures !populate ==> hostGates == map[] && deviceGates == map[] && totalAllocBytes == 0
      ensures populate ==> hostGates == DefaultGates() && deviceGates == Sizes(DefaultGates())
      ensures populate ==> totalAllocBytes == ComplexBytes(precision) * 72
    {
      this.precision := precision;
      this.deviceId := deviceId;
      hostGates := map[];
      deviceGates := map[];
      totalAllocBytes := 0;
      new;
      if populate {
        DefaultPopulateCache();
        assert map[] + DefaultGates() == DefaultGates();
        assert map[] + Sizes(DefaultGates()) == Sizes(DefaultGates());
        DefaultGateTotal();
      }
    }

    /** defaultPopulateCache: stores the default gates over any previous ones
        with those keys, then gives every host matrix, old or new, a fresh
        device buffer of its length and counts its bytes. */
    method DefaultPopulateCache()
      requires Valid()
      modifies this
      ensures Valid()
      ensures hostGates == old(hostGates) + DefaultGates()
      ensures deviceGates == old(deviceGates) + Sizes(hostGates)
      ensures totalAllocBytes == old(totalAllocBytes) + ComplexBytes(precision) * SizeSum(hostGates, hostGates.Keys)
    {
      hostGates := hostGates + DefaultGates();
      ghost var dev0 := deviceGates;
      var bytes := ComplexBytes(precision);
      var remaining := hostGates.Keys;
      ghost var done: set<GateId> := {};
      while remaining != {}
        invariant hostGates == old(hostGates) + DefaultGates()
        invariant done == hostGates.Keys - remaining && remaining <= hostGates.Keys
        invariant deviceGates == dev0 + SizesOn(hostGates, done)
        invariant totalAllocBytes == old(totalAllocBytes) + bytes * SizeSum(hostGates, done)
        decreases remaining
      {
        var k :| k in remaining;
        SizesOnInsert(dev0, hostGates, done, k);
        SizeSumRemove(hostGates, done + {k}, k);
        assert done + {k} - {k} == done;
        deviceGates := deviceGates[k := |hostGates[k]|];
        totalAllocBytes := totalAllocBytes + bytes * |hostGates[k]|;
        remaining := remaining - {k};
        done := done + {k};
      }
      assert done == hostGates.Keys;
      assert SizesOn(hostGates, done) == Sizes(hostGates);
    }

    /** gateExists(gate): the gate has both a host matrix and a device buffer. */
    method GateExists(gate: GateId) returns (b: bool)
      ensures b <==> Cached(gate)
    {
      b := gate in hostGates && gate in deviceGates;
    }

    /** gateExists(name, param): the same test on the pair (name, param). */
    method GateExistsNamed(gateName: string, gateParam: real) returns (b: bool)
      ensures b <==> Cached((gateName, gateParam))
    {
      b := (gateName, gateParam) in hostGates && (gateName, gateParam) in deviceGates;
    }

    /** add_gate(key, data): replaces the host matrix and the device buffer of
        `key` and counts the bytes of the new buffer, even when `key` was
        already cached; nothing else changes. */
    method AddGateById(gateKey: GateId, hostData: seq<Complex>)
      requires Valid()
      modifies this
      ensures Valid()
      ensures hostGates == old(hostGates)[gateKey := hostData]
      ensures deviceGates == old(deviceGates)[gateKey := |hostData|]
      ensures totalAllocBytes == old(totalAllocBytes) + ComplexBytes(precision) * |hostData|
      ensures Cached(gateKey)
      ensures forall k | k != gateKey :: Cached(k) == (k in old(hostGates) && k in old(deviceGates))
    {
      hostGates := hostGates[gateKey := hostData];
      var gate := hostGates[gateKey];
      deviceGates := deviceGates[gateKey := |gate|];
      totalAllocBytes := totalAllocBytes + ComplexBytes(precision) * |gate|;
    }

    /** add_gate(name, param, data): add_gate on the key (name, param). */
    method AddGate(gateName: string, gateParam: real, hostData: seq<Complex>)
      requires Valid()
      modifies this
      ensures Valid()
      ensures hostGates == old(hostGates)[(gateName, gateParam) := hostData]
      ensures deviceGates == old(deviceGates)[(gateName, gateParam) := |hostData|]
      ensures totalAllocBytes == old(totalAllocBytes) + ComplexBytes(precision) * |hostData|
      ensures Cached((gateName, gateParam))
      ensures forall k | k != (gateName, gateParam) :: Cached(k) == (k in old(hostGates) && k in old(deviceGates))
    {
      var gateKey := (gateName, gateParam);
      hostGates := hostGates[gateKey := hostData];
      var gate := hostGates[gateKey];
      deviceGates := deviceGates[gateKey := |gate|];
      totalAllocBytes := totalAllocBytes + ComplexBytes(precision) * |gate|;
    }

    /** get_gate_host(key): the host matrix, through `operator[]`, which
        inserts an empty matrix for a missing key. The key is then cached
        exactly when it has a device buffer: a key in neither table stays
        uncached. */
    method GetGateHostById(gateKey: GateId) returns (data: seq<Complex>)
      requires Valid()
      modifies this
      ensures Valid()
      ensures data == old(HostData(gateKey))
      ensures hostGates == old(hostGates)[gateKey := data]
      ensures deviceGates == old(deviceGates) && totalAllocBytes == old(totalAllocBytes)
      ensures Cached(gateKey) <==> gateKey in deviceGates
      ensures old(gateKey !in hostGates && gateKey !in deviceGates) ==> !Cached(gateKey)
    {
      if gateKey !in hostGates {
        hostGates := hostGates[gateKey := []];
      }
      data := hostGates[gateKey];
    }

    /** get_gate_host(name, param): get_gate_host on the key (name, param). */
    method GetGateHost(gateName: string, gateParam: real) returns (data: seq<Complex>)
      requires Valid()
      modifies this
      ensures Valid()
      ensures data == old(HostData((gateName, gateParam)))
      ensures hostGates == old(hostGates)[(gateName, gateParam) := data]
      ensures deviceGates == old(deviceGates) && totalAllocBytes == old(totalAllocBytes)
      ensures Cached((gateName, gateParam)) <==> (gateName, gateParam) in deviceGates
    {
      data := GetGateHostById((gateName, gateParam));
    }

    /** get_gate_device_ptr(key): the device buffer (its length), through
        `operator[]`, which inserts an empty buffer for a missing key. The
        key is then cached exactly when it has a host matrix. */
    method GetGateDevicePtrById(gateKey: GateId) returns (length: nat)
      requires Valid()
      modifies this
      ensures Valid()
      ensures length == |old(HostData(gateKey))|
      ensures deviceGates == old(deviceGates)[gateKey := length]
      ensures hostGates == old(hostGates) && totalAllocBytes == old(totalAllocBytes)
      ensures Cached(gateKey) <==> gateKey in hostGates
      ensures old(gateKey !in hostGates && gateKey !in deviceGates) ==> !Cached(gateKey)
    {
      if gateKey !in deviceGates {
        deviceGates := deviceGates[gateKey := 0];
      }
      length := deviceGates[gateKey];
    }

    /** get_gate_device_ptr(name, param): the same lookup on the key (name, param). */
    method GetGateDevicePtr(gateName: string, gateParam: real) returns (length: nat)
      requires Valid()
      modifies this
      ensures Valid()
      ensures length == |old(HostData((gateName, gateParam)))|
      ensures deviceGates == old(deviceGates)[(gateName, gateParam) := length]
      ensures hostGates == old(hostGates) && totalAllocBytes == old(totalAllocBytes)
      ensures Cached((gateName, gateParam)) <==> (gateName, gateParam) in hostGates
    {
      length := GetGateDevicePtrById((gateName, gateParam));
    }
  }
}
