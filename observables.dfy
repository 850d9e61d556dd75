/** The observable model of AdjointDiffGPU.hpp: an immutable, tree-shaped sum
    type with four variants, its structural equality, the construction checks
    of the tensor product and the Hamiltonian, the wires an observable acts on,
    and its action on a state vector. */
module Observables {
  import opened StateVector
  import opened Failures

  /** NamedObsGPU, HermitianObsGPU, TensorProdObsGPU and HamiltonianGPU.
      A tensor product keeps the sorted wire list its constructor computed. */
  datatype Observable =
    | Named(name: string, wires: seq<nat>, params: seq<real>)
    | Hermitian(matrix: seq<Complex>, wires: seq<nat>)
    | TensorProd(obs: seq<Observable>, allWires: seq<nat>)
    | Hamiltonian(coeffs: seq<real>, terms: seq<Observable>)

  // ---------------------------------------------------------------------------
  // Wire lists

  function Elems(s: seq<nat>): set<nat> {
    set x | x in s
  }

  predicate StrictlySorted(s: seq<nat>) {
    forall i, j | 0 <= i < j < |s| :: s[i] < s[j]
  }

  predicate NoDuplicates(s: seq<nat>) {
    forall i, j | 0 <= i < j < |s| :: s[i] != s[j]
  }

  /** Inserts `x` into a strictly sorted list, dropping it if already present. */
  function Insert(x: nat, s: seq<nat>): (r: seq<nat>)
    requires StrictlySorted(s)
    ensures StrictlySorted(r)
    ensures Elems(r) == Elems(s) + {x}
  {
    if s == [] then [x]
    else if x < s[0] then
      SortedTail(s);
      SortedCons(x, s);
      [x] + s
    else if x == s[0] then
      SortedTail(s);
      s
    else
      SortedTail(s);
      var rest := Insert(x, s[1..]);
      SortedCons(s[0], rest);
      [s[0]] + rest
  }

  /** The head of a strictly sorted list is below every element of its tail. */
  lemma SortedTail(s: seq<nat>)
    requires StrictlySorted(s) && s != []
    ensures StrictlySorted(s[1..])
    ensures forall y | y in Elems(s[1..]) :: s[0] < y
    ensures forall y | y in Elems(s) :: s[0] <= y
    ensures Elems(s) == {s[0]} + Elems(s[1..])
  {
    assert s == [s[0]] + s[1..];
    forall y | y in Elems(s[1..]) ensures s[0] < y {
      var j :| 0 <= j < |s[1..]| && s[1..][j] == y;
      assert s[j + 1] == y;
    }
  }

  /** Prepending a value below every element keeps a list strictly sorted. */
  lemma SortedCons(a: nat, s: seq<nat>)
    requires StrictlySorted(s)
    requires forall y | y in Elems(s) :: a < y
    ensures StrictlySorted([a] + s)
    ensures Elems([a] + s) == {a} + Elems(s)
  {
    forall i, j | 0 <= i < j < |[a] + s| ensures ([a] + s)[i] < ([a] + s)[j] {
      if i == 0 { assert s[j - 1] in Elems(s); }
    }
  }

  /** The sorted, duplicate-free list of the values in `xs`: what the source
      gets by collecting wires into an unordered_set and sorting its elements. */
  function SortedUnique(xs: seq<nat>): (r: seq<nat>)
    ensures StrictlySorted(r)
    ensures Elems(r) == Elems(xs)
  {
    if xs == [] then []
    else
      assert Elems(xs) == Elems(xs[..|xs| - 1]) + {xs[|xs| - 1]} by {
        assert xs == xs[..|xs| - 1] + [xs[|xs| - 1]];
      }
      Insert(xs[|xs| - 1], SortedUnique(xs[..|xs| - 1]))
  }

  /** The wires of the members, concatenated in member order. */
  function MemberWires(os: seq<Observable>): seq<nat>
    decreases os
  {
    if os == [] then [] else MemberWires(os[..|os| - 1]) + GetWires(os[|os| - 1])
  }

  /** getWires(): a named or Hermitian observable's own wires; for a tensor
      product or a Hamiltonian, the sorted, duplicate-free union of its
      members' wires. */
  function GetWires(o: Observable): (r: seq<nat>)
    ensures o.Named? || o.Hermitian? ==> r == o.wires
    ensures o.Hamiltonian? ==> StrictlySorted(r) && Elems(r) == Elems(MemberWires(o.terms))
    decreases o
  {
    match o
    case Named(_, wires, _) => wires
    case Hermitian(_, wires) => wires
    case TensorProd(_, allWires) => allWires
    case Hamiltonian(_, terms) => SortedUnique(MemberWires(terms))
  }

  /** What the constructors guarantee of every observable that exists. */
  predicate WellFormed(o: Observable)
    decreases o
  {
    match o
    case Named(_, _, _) => true
    case Hermitian(_, _) => true
    case TensorProd(os, allWires) =>
      && (forall i | 0 <= i < |os| :: WellFormed(os[i]))
      && NoDuplicates(MemberWires(os))
      && allWires == SortedUnique(MemberWires(os))
    case Hamiltonian(coeffs, terms) =>
      && |coeffs| == |terms|
      && (forall i | 0 <= i < |terms| :: WellFormed(terms[i]))
  }

  // ---------------------------------------------------------------------------
  // Construction

  /** The TensorProdObsGPU constructor: fails if any wire occurs twice among
      the members' wires (within one member or across two), and otherwise
      stores the sorted union of the members' wires. */
  function MakeTensorProd(os: seq<Observable>): (r: Result<Observable>)
    ensures r.Err? <==> exists i, j :: 0 <= i < j < |MemberWires(os)| && MemberWires(os)[i] == MemberWires(os)[j]
    ensures r.Err? ==> r.error == ConfigurationError
    ensures r.Ok? ==> r.value.TensorProd? && r.value.obs == os
    ensures r.Ok? ==> StrictlySorted(GetWires(r.value)) && Elems(GetWires(r.value)) == Elems(MemberWires(os))
    ensures r.Ok? && (forall i | 0 <= i < |os| :: WellFormed(os[i])) ==> WellFormed(r.value)
  {
    var mw := MemberWires(os);
    if NoDuplicates(mw) then Ok(TensorProd(os, SortedUnique(mw))) else Err(ConfigurationError)
  }

  lemma {:induction false} MemberWiresPrefix(os: seq<Observable>, i: nat)
    requires i <= |os|
    ensures |MemberWires(os[..i])| <= |MemberWires(os)|
    ensures MemberWires(os[..i]) == MemberWires(os)[..|MemberWires(os[..i])|]
    decreases |os|
  {
    if i < |os| {
      var os' := os[..|os| - 1];
      assert os[..i] == os'[..i];
      MemberWiresPrefix(os', i);
    } else {
      assert os[..i] == os;
    }
  }

  lemma MemberWiresStep(os: seq<Observable>, i: nat)
    requires i < |os|
    ensures MemberWires(os[..i + 1]) == MemberWires(os[..i]) + GetWires(os[i])
  {
    assert os[..i + 1][..i] == os[..i];
  }

  /** A duplicate in a prefix of a list is a duplicate in the list. */
  lemma DuplicateInPrefix(s: seq<nat>, n: nat, i: nat, j: nat)
    requires n <= |s| && i < j < n && s[i] == s[j]
    ensures !NoDuplicates(s)
  {
  }

  /** Appending a value not yet present keeps a list duplicate-free. */
  lemma AppendFresh(s: seq<nat>, x: nat)
    requires NoDuplicates(s) && x !in Elems(s)
    ensures NoDuplicates(s + [x])
    ensures Elems(s + [x]) == Elems(s) + {x}
  {
    forall i, j | 0 <= i < j < |s + [x]| ensures (s + [x])[i] != (s + [x])[j] {
      if j == |s| { assert s[i] in Elems(s); }
    }
  }

  /** The constructor's loop: walks the members and their wires in order,
      collecting the wires seen so far and failing at the first repeat. */
  method NewTensorProd(os: seq<Observable>) returns (r: Result<Observable>)
    ensures r == MakeTensorProd(os)
  {
    var seen: set<nat> := {};
    var i := 0;
    while i < |os|
      invariant 0 <= i <= |os|
      invariant seen == Elems(MemberWires(os[..i]))
      invariant NoDuplicates(MemberWires(os[..i]))
    {
      var w := GetWires(os[i]);
      var done := MemberWires(os[..i]);
      var j := 0;
      while j < |w|
        invariant 0 <= j <= |w|
        invariant seen == Elems(done + w[..j])
        invariant NoDuplicates(done + w[..j])
      {
        var pre := done + w[..j];
        assert done + w[..j + 1] == pre + [w[j]];
        if w[j] in seen {
          RepeatedWire(os, i, w[..j + 1]);
          return Err(ConfigurationError);
        }
        AppendFresh(pre, w[j]);
        seen := seen + {w[j]};
        j := j + 1;
      }
      assert w[..j] == w;
      MemberWiresStep(os, i);
      i := i + 1;
    }
    assert os[..i] == os;
    r := Ok(TensorProd(os, SortedUnique(MemberWires(os))));
  }

  /** If the next wire of member `i` was already seen, the members' wires
      contain a repeat. */
  lemma RepeatedWire(os: seq<Observable>, i: nat, w: seq<nat>)
    requires i < |os| && 0 < |w| <= |GetWires(os[i])| && w == GetWires(os[i])[..|w|]
    requires w[|w| - 1] in Elems(MemberWires(os[..i]) + w[..|w| - 1])
    ensures !NoDuplicates(MemberWires(os))
  {
    var done := MemberWires(os[..i]);
    var pre := done + w[..|w| - 1];
    var prefix := done + w;
    assert prefix == pre + [w[|w| - 1]];
    assert w[|w| - 1] in pre;
    var m :| 0 <= m < |pre| && pre[m] == w[|w| - 1];
    var whole := MemberWires(os[..i + 1]);
    MemberWiresStep(os, i);
    assert prefix == whole[..|prefix|];
    MemberWiresPrefix(os, i + 1);
    var all := MemberWires(os);
    assert whole == all[..|whole|];
    assert prefix == all[..|prefix|];
    assert all[m] == prefix[m] && all[|prefix| - 1] == prefix[|prefix| - 1];
    DuplicateInPrefix(all, |prefix|, m, |prefix| - 1);
  }

  /** The HamiltonianGPU constructor: coefficient and term counts must agree. */
  function MakeHamiltonian(coeffs: seq<real>, terms: seq<Observable>): (r: Result<Observable>)
    ensures r.Ok? <==> |coeffs| == |terms|
    ensures r.Err? ==> r.error == ConfigurationError
    ensures r.Ok? ==> r.value == Hamiltonian(coeffs, terms)
    ensures r.Ok? && (forall i | 0 <= i < |terms| :: WellFormed(terms[i])) ==> WellFormed(r.value)
  {
    if |coeffs| == |terms| then Ok(Hamiltonian(coeffs, terms)) else Err(ConfigurationError)
  }

  /** getWires of a well-formed tensor product or of a Hamiltonian is the
      sorted, duplicate-free union of its members' wires. */
  lemma GetWiresSortedUnion(o: Observable)
    requires WellFormed(o) && (o.TensorProd? || o.Hamiltonian?)
    ensures StrictlySorted(GetWires(o))
    ensures Elems(GetWires(o)) == Elems(MemberWires(if o.TensorProd? then o.obs else o.terms))
  {
  }

  // ---------------------------------------------------------------------------
  // Equality

  /** operator==: the same concrete variant (typeid) and field-wise
      equality; tensor products compare their sizes and then their members in
      order, Hamiltonians their coefficients and then their terms in order. */
  function Equal(a: Observable, b: Observable): (r: bool)
    requires WellFormed(a) && WellFormed(b)
    ensures a == b ==> r
    ensures r ==> a.Named? == b.Named? && a.Hermitian? == b.Hermitian? && a.TensorProd? == b.TensorProd?
    ensures a.Named? || a.Hermitian? ==> (r <==> a == b)
    decreases a
  {
    match a
    case Named(name, wires, params) =>
      b.Named? && name == b.name && wires == b.wires && params == b.params
    case Hermitian(matrix, wires) =>
      b.Hermitian? && matrix == b.matrix && wires == b.wires
    case TensorProd(os, _) =>
      && b.TensorProd?
      && |os| == |b.obs|
      && (forall i | 0 <= i < |os| :: Equal(os[i], b.obs[i]))
    case Hamiltonian(coeffs, terms) =>
      && b.Hamiltonian?
      && coeffs == b.coeffs
      && (forall i | 0 <= i < |terms| :: Equal(terms[i], b.terms[i]))
  }

  /** Observable equality is exactly structural equality of well-formed
      observables; in particular observables of different variants are never
      equal, and a tensor product's stored wires never decide the outcome. */
  lemma {:induction false} EqualIsStructural(a: Observable, b: Observable)
    requires WellFormed(a) && WellFormed(b)
    ensures Equal(a, b) <==> a == b
    decreases a
  {
    match a
    case Named(_, _, _) =>
    case Hermitian(_, _) =>
    case TensorProd(os, _) =>
      if b.TensorProd? && |os| == |b.obs| {
        forall i | 0 <= i < |os| ensures Equal(os[i], b.obs[i]) <==> os[i] == b.obs[i] {
          EqualIsStructural(os[i], b.obs[i]);
        }
        if Equal(a, b) { assert os == b.obs; }
      }
    case Hamiltonian(coeffs, terms) =>
      if b.Hamiltonian? && coeffs == b.coeffs {
        forall i | 0 <= i < |terms| ensures Equal(terms[i], b.terms[i]) <==> terms[i] == b.terms[i] {
          EqualIsStructural(terms[i], b.terms[i]);
        }
        if Equal(a, b) { assert terms == b.terms; }
      }
  }

  /** operator!=. */
  function NotEqual(a: Observable, b: Observable): (r: bool)
    requires WellFormed(a) && WellFormed(b)
    ensures r <==> a != b
  {
    EqualIsStructural(a, b);
    !Equal(a, b)
  }

  // ---------------------------------------------------------------------------
  // Action on a state

  /** applyInPlace on amplitudes `t`: a named observable is applied as the
      operation of that name, a Hermitian one as its matrix, a tensor product
      applies its members in order, and a Hamiltonian replaces the state by
      the sum of c_i times term i applied to a copy, accumulated from zero. */
  function ApplyObs(o: Observable, t: Term): (r: Term)
    requires WellFormed(o)
    ensures o.Named? || o.Hermitian? ==> r.Apply? && r.base == t && !r.adjoint && r.wires == o.wires
    ensures o.TensorProd? && o.obs == [] ==> r == t
    ensures o.Hamiltonian? && o.terms == [] ==> r == Zeros
    decreases o
  {
    match o
    case Named(name, wires, params) => Apply(Operation(name), wires, false, params, [], t)
    case Hermitian(matrix, wires) => Apply(OperationStd("Hermitian"), wires, false, [], matrix, t)
    case TensorProd(os, _) => ApplyEach(os, t)
    case Hamiltonian(coeffs, terms) => Accumulate(coeffs, terms, t, |coeffs|)
  }

  /** The members of a tensor product applied one after the other, first one first. */
  function ApplyEach(os: seq<Observable>, t: Term): Term
    requires forall i | 0 <= i < |os| :: WellFormed(os[i])
    decreases os
  {
    if os == [] then t else ApplyObs(os[|os| - 1], ApplyEach(os[..|os| - 1], t))
  }

  /** The accumulator after the first `n` Hamiltonian terms. */
  function Accumulate(coeffs: seq<real>, terms: seq<Observable>, t: Term, n: nat): Term
    requires n <= |coeffs| == |terms|
    requires forall i | 0 <= i < |terms| :: WellFormed(terms[i])
    decreases terms, n
  {
    if n == 0 then Zeros
    else ScaleAdd(coeffs[n - 1], ApplyObs(terms[n - 1], t), Accumulate(coeffs, terms, t, n - 1))
  }

  /** The coefficient-weighted summands of an accumulator built from zero, in
      the order they were added; None if `t` is not such an accumulator. */
  function Summands(t: Term): Option<seq<(real, Term)>> {
    match t
    case Zeros => Some([])
    case ScaleAdd(c, x, acc) =>
      (match Summands(acc)
       case Some(s) => Some(s + [(c, x)])
       case None => None)
    case _ => None
  }

  /** Hamiltonian application is the linear combination sum_i c_i * O_i(sv):
      every term acts on an unmodified copy of the input, and the weighted
      results are added, in term order, to a zero accumulator. */
  lemma {:induction false} HamiltonianIsLinearCombination(coeffs: seq<real>, terms: seq<Observable>, t: Term)
    requires WellFormed(Hamiltonian(coeffs, terms))
    ensures Summands(ApplyObs(Hamiltonian(coeffs, terms), t))
         == Some(seq(|coeffs|, i requires 0 <= i < |coeffs| => (coeffs[i], ApplyObs(terms[i], t))))
  {
    AccumulateSummands(coeffs, terms, t, |coeffs|);
    assert Weighted(coeffs, terms, t, |coeffs|)
        == seq(|coeffs|, i requires 0 <= i < |coeffs| => (coeffs[i], ApplyObs(terms[i], t)));
  }

  /** The first `n` weighted summands of a Hamiltonian on amplitudes `t`. */
  function Weighted(coeffs: seq<real>, terms: seq<Observable>, t: Term, n: nat): (r: seq<(real, Term)>)
    requires n <= |coeffs| == |terms|
    requires forall i | 0 <= i < |terms| :: WellFormed(terms[i])
    ensures |r| == n
  {
    seq(n, i requires 0 <= i < n => (coeffs[i], ApplyObs(terms[i], t)))
  }

  lemma {:induction false} AccumulateSummands(coeffs: seq<real>, terms: seq<Observable>, t: Term, n: nat)
    requires n <= |coeffs| == |terms|
    requires forall i | 0 <= i < |terms| :: WellFormed(terms[i])
    ensures Summands(Accumulate(coeffs, terms, t, n)) == Some(Weighted(coeffs, terms, t, n))
  {
    if n > 0 {
      AccumulateSummands(coeffs, terms, t, n - 1);
      var last := (coeffs[n - 1], ApplyObs(terms[n - 1], t));
      assert Weighted(coeffs, terms, t, n) == Weighted(coeffs, terms, t, n - 1) + [last];
    } else {
      assert Weighted(coeffs, terms, t, n) == [];
    }
  }

  /** A tensor product of `os1 + os2` acts as that of `os1` followed by that
      of `os2`: members are applied strictly in order. */
  lemma {:induction false} ApplyEachAppend(os1: seq<Observable>, os2: seq<Observable>, t: Term)
    requires forall i | 0 <= i < |os1| :: WellFormed(os1[i])
    requires forall i | 0 <= i < |os2| :: WellFormed(os2[i])
    ensures forall i | 0 <= i < |os1 + os2| :: WellFormed((os1 + os2)[i])
    ensures ApplyEach(os1 + os2, t) == ApplyEach(os2, ApplyEach(os1, t))
    decreases |os2|
  {
    assert forall i | 0 <= i < |os1 + os2| :: WellFormed((os1 + os2)[i]) by {
      forall i | 0 <= i < |os1 + os2| ensures WellFormed((os1 + os2)[i]) {
        if i < |os1| { assert (os1 + os2)[i] == os1[i]; } else { assert (os1 + os2)[i] == os2[i - |os1|]; }
      }
    }
    if os2 == [] {
      assert os1 + os2 == os1;
    } else {
      var init := os2[..|os2| - 1];
      assert (os1 + os2)[..|os1 + os2| - 1] == os1 + init;
      ApplyEachAppend(os1, init, t);
    }
  }

  /** applyInPlace, with TensorProdObsGPU's loop over its members and
      HamiltonianGPU's loop that scales and adds every term into `d_res`. */
  method ApplyInPlace(o: Observable, sv: Sv) returns (r: Sv)
    requires WellFormed(o)
    ensures r == Sv(sv.device, ApplyObs(o, sv.amps))
    decreases o
  {
    match o
    case Named(name, wires, params) =>
      r := Sv(sv.device, Apply(Operation(name), wires, false, params, [], sv.amps));
    case Hermitian(matrix, wires) =>
      r := Sv(sv.device, Apply(OperationStd("Hermitian"), wires, false, [], matrix, sv.amps));
    case TensorProd(os, _) =>
      r := sv;
      var i := 0;
      while i < |os|
        invariant 0 <= i <= |os|
        invariant r == Sv(sv.device, ApplyEach(os[..i], sv.amps))
      {
        assert os[..i + 1][..i] == os[..i];
        r := ApplyInPlace(os[i], r);
        i := i + 1;
      }
      assert os[..i] == os;
    case Hamiltonian(coeffs, terms) =>
      var dRes := Zeros;
      var termIdx := 0;
      while termIdx < |coeffs|
        invariant 0 <= termIdx <= |coeffs|
        invariant dRes == Accumulate(coeffs, terms, sv.amps, termIdx)
      {
        var tmp := ApplyInPlace(terms[termIdx], sv);
        dRes := ScaleAdd(coeffs[termIdx], tmp.amps, dRes);
        termIdx := termIdx + 1;
      }
      r := UpdateData(sv, Sv(sv.device, dRes));
  }
}
