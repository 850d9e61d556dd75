/** The tape of operations the adjoint method walks over, and the helper
    routines of AdjointJacobianGPU that apply it, its adjoint and the
    observables to states and write single Jacobian entries. */
module AdjointOps {
  import opened StateVector
  import opened Failures
  import opened Observables

  /** One recorded gate: its name, parameters, wires and inverse flag. */
  datatype Operation = Operation(name: string, params: seq<real>, wires: seq<nat>, inverse: bool)

  /** OpsData: the tape, in application order, and its number of parametric
      operations as the tape reports it. */
  datatype OpsData = OpsData(ops: seq<Operation>, numParOps: nat)

  /** `ops.hasParams(i)`: the operation carries a parameter. */
  predicate HasParams(op: Operation) {
    |op.params| > 0
  }

  /** The state-preparation operations the reverse walk skips. */
  predicate IsStatePrep(name: string) {
    name == "QubitStateVector" || name == "BasisState"
  }

  /** `state.applyOperation(name, wires, adjoint, params)` on amplitudes `t`. */
  function ApplyOp(op: Operation, adjoint: bool, t: Term): Term {
    Apply(Kernel.Operation(op.name), op.wires, adjoint, op.params, [], t)
  }

  // ---------------------------------------------------------------------------
  // applyOperations: the tape forward

  /** The amplitudes after applying `ops` in tape order, each with its inverse
      flag exclusive-or'ed with `adj`. */
  function Forward(ops: seq<Operation>, adj: bool, t: Term): (r: Term)
    ensures Calls(r) == Calls(t) + |ops|
    ensures ops != [] ==> r.Apply? && r.kernel == Kernel.Operation(ops[|ops| - 1].name)
    decreases |ops|
  {
    if ops == [] then t
    else
      var op := ops[|ops| - 1];
      ApplyOp(op, op.inverse != adj, Forward(ops[..|ops| - 1], adj, t))
  }

  /** Applying the concatenation of two tapes is applying one after the other. */
  lemma {:induction false} ForwardAppend(a: seq<Operation>, b: seq<Operation>, adj: bool, t: Term)
    ensures Forward(a + b, adj, t) == Forward(b, adj, Forward(a, adj, t))
    decreases |b|
  {
    if b != [] {
      assert (a + b)[..|a + b| - 1] == a + b[..|b| - 1];
      ForwardAppend(a, b[..|b| - 1], adj, t);
    } else {
      assert a + b == a;
    }
  }

  /** The first call of `Forward` is made on the first operation of the tape:
      the operations are applied front to back. */
  lemma {:induction false} ForwardFirst(ops: seq<Operation>, adj: bool, t: Term)
    requires ops != []
    ensures Forward(ops, adj, t) == Forward(ops[1..], adj, ApplyOp(ops[0], ops[0].inverse != adj, t))
  {
    ForwardAppend([ops[0]], ops[1..], adj, t);
    assert [ops[0]] + ops[1..] == ops;
    assert [ops[0]][..0] == [];
  }

  /** applyOperations: every operation of the tape in turn, the inverse flag
      exclusive-or'ed with `adj`. */
  method ApplyOperations(state: Sv, operations: OpsData, adj: bool) returns (r: Sv)
    ensures r == Sv(state.device, Forward(operations.ops, adj, state.amps))
  {
    var ops := operations.ops;
    r := state;
    var opIdx := 0;
    while opIdx < |ops|
      invariant 0 <= opIdx <= |ops|
      invariant r == Sv(state.device, Forward(ops[..opIdx], adj, state.amps))
    {
      assert ops[..opIdx + 1][..opIdx] == ops[..opIdx];
      var op := ops[opIdx];
      r := Sv(r.device, ApplyOp(op, op.inverse != adj, r.amps));
      opIdx := opIdx + 1;
    }
    assert ops[..opIdx] == ops;
  }

  // ---------------------------------------------------------------------------
  // applyOperationAdj / applyOperationsAdj: undoing one operation

  /** applyOperationAdj: operation `i` applied with its inverse flag negated. */
  function ApplyOperationAdj(sv: Sv, operations: OpsData, i: nat): (r: Sv)
    requires i < |operations.ops|
    ensures r.device == sv.device
    ensures Calls(r.amps) == Calls(sv.amps) + 1
    ensures r.amps.Apply? && r.amps.base == sv.amps && r.amps.adjoint == !operations.ops[i].inverse
    ensures r.amps.wires == operations.ops[i].wires && r.amps.params == operations.ops[i].params
  {
    var op := operations.ops[i];
    Sv(sv.device, ApplyOp(op, !op.inverse, sv.amps))
  }

  /** Undoing one operation is applying the one-operation tape with `adj` set. */
  lemma UndoIsAdjointForward(sv: Sv, operations: OpsData, i: nat)
    requires i < |operations.ops|
    ensures ApplyOperationAdj(sv, operations, i) == Sv(sv.device, Forward([operations.ops[i]], true, sv.amps))
  {
    assert [operations.ops[i]][..0] == [];
  }

  /** All states undone by the same operation. */
  function UndoAll(states: seq<Sv>, operations: OpsData, i: nat): (r: seq<Sv>)
    requires i < |operations.ops|
    ensures |r| == |states|
    ensures forall j | 0 <= j < |r| :: r[j].device == states[j].device
  {
    seq(|states|, j requires 0 <= j < |states| => ApplyOperationAdj(states[j], operations, i))
  }

  /** applyOperationsAdj: operation `opIdx` undone on every state of the vector. */
  method ApplyOperationsAdj(states: array<Sv>, operations: OpsData, opIdx: nat)
    requires opIdx < |operations.ops|
    modifies states
    ensures states[..] == UndoAll(old(states[..]), operations, opIdx)
  {
    var numStates := states.Length;
    var obsIdx := 0;
    while obsIdx < numStates
      invariant 0 <= obsIdx <= numStates
      invariant forall j | 0 <= j < obsIdx :: states[j] == ApplyOperationAdj(old(states[j]), operations, opIdx)
      invariant forall j | obsIdx <= j < numStates :: states[j] == old(states[j])
    {
      states[obsIdx] := ApplyOperationAdj(states[obsIdx], operations, opIdx);
      obsIdx := obsIdx + 1;
    }
  }

  // ---------------------------------------------------------------------------
  // applyObservables

  /** applyObservables: state `i` takes a copy of the reference amplitudes and
      then has observable `i` applied in place; any further states are left alone. */
  method ApplyObservables(states: array<Sv>, referenceState: Sv, observables: seq<Observable>)
    requires |observables| <= states.Length
    requires forall i | 0 <= i < |observables| :: WellFormed(observables[i])
    modifies states
    ensures forall i | 0 <= i < |observables| ::
      states[i] == Sv(old(states[i].device), ApplyObs(observables[i], referenceState.amps))
    ensures forall i | |observables| <= i < states.Length :: states[i] == old(states[i])
  {
    var numObservables := |observables|;
    var hi := 0;
    while hi < numObservables
      invariant 0 <= hi <= numObservables
      invariant forall i | 0 <= i < hi ::
        states[i] == Sv(old(states[i].device), ApplyObs(observables[i], referenceState.amps))
      invariant forall i | hi <= i < states.Length :: states[i] == old(states[i])
    {
      var copy := UpdateData(states[hi], referenceState);
      states[hi] := ApplyInPlace(observables[hi], copy);
      hi := hi + 1;
    }
  }

  // ---------------------------------------------------------------------------
  // getJacIndex and updateJacobian

  /** getJacIndex: the row-major position of entry (obsIndex, tpIndex). */
  function JacIndex(obsIndex: nat, tpIndex: nat, tpSize: nat): (r: nat)
    ensures obsIndex * tpSize <= r
    ensures tpIndex < tpSize ==> r < (obsIndex + 1) * tpSize
  {
    obsIndex * tpSize + tpIndex
  }

  /** Within a row of `tpSize` entries the index is a bijection: row and
      column are recovered by division and remainder, and it stays inside a
      matrix with `rows` rows. */
  lemma JacIndexInverse(obsIndex: nat, tpIndex: nat, tpSize: nat, rows: nat)
    requires tpIndex < tpSize
    ensures JacIndex(obsIndex, tpIndex, tpSize) / tpSize == obsIndex
    ensures JacIndex(obsIndex, tpIndex, tpSize) % tpSize == tpIndex
    ensures obsIndex < rows ==> JacIndex(obsIndex, tpIndex, tpSize) < rows * tpSize
  {
    var j := obsIndex * tpSize + tpIndex;
    DivModUnique(j, tpSize, obsIndex, tpIndex);
    if obsIndex < rows {
      assert obsIndex + 1 <= rows;
      MulMonotone(obsIndex + 1, rows, tpSize);
      assert (obsIndex + 1) * tpSize == obsIndex * tpSize + tpSize;
    }
  }

  /** Two index pairs with columns below `tpSize` name the same entry only if equal. */
  lemma JacIndexInjective(o1: nat, c1: nat, o2: nat, c2: nat, tpSize: nat)
    requires c1 < tpSize && c2 < tpSize
    requires JacIndex(o1, c1, tpSize) == JacIndex(o2, c2, tpSize)
    ensures o1 == o2 && c1 == c2
  {
    JacIndexInverse(o1, c1, tpSize, 0);
    JacIndexInverse(o2, c2, tpSize, 0);
  }

  /** Every position of a row-major matrix is the index of its own row and column. */
  lemma JacIndexOnto(j: nat, tpSize: nat)
    requires tpSize > 0
    ensures j % tpSize < tpSize
    ensures JacIndex(j / tpSize, j % tpSize, tpSize) == j
  {
  }

  lemma DivModUnique(j: nat, d: nat, q: nat, m: nat)
    requires d > 0 && m < d && j == q * d + m
    ensures j / d == q && j % d == m
  {
    var q' := j / d;
    if q' > q {
      MulMonotone(q + 1, q', d);
      assert false;
    } else if q' < q {
      MulMonotone(q' + 1, q, d);
      assert false;
    }
  }

  lemma MulMonotone(a: int, b: int, d: int)
    requires 0 <= a <= b && d >= 0
    ensures a * d <= b * d
  {
  }

  /** The value updateJacobian stores: -2 * c * Im<sv1|sv2>. */
  function Derivative(scalingCoeff: real, imaginaryPart: real): real {
    -2.0 * scalingCoeff * imaginaryPart
  }

  /** updateJacobian: aborts when the two states live on different devices;
      otherwise overwrites exactly the entry (obsIndex, paramIndex) with
      -2 * c * Im<sv1|sv2>, `im` standing for the imaginary part of the inner product. */
  method UpdateJacobian(sv1: Sv, sv2: Sv, jac: array<real>, scalingCoeff: real,
                        obsIndex: nat, paramIndex: nat, tpSize: nat, im: (Term, Term) -> real)
      returns (o: Outcome)
    requires JacIndex(obsIndex, paramIndex, tpSize) < jac.Length
    modifies jac
    ensures o.Fail? <==> sv1.device != sv2.device
    ensures o.Fail? ==> o.error == DeviceMismatch && jac[..] == old(jac[..])
    ensures o.Pass? ==> jac[..] == old(jac[..])[JacIndex(obsIndex, paramIndex, tpSize) :=
                                              Derivative(scalingCoeff, im(sv1.amps, sv2.amps))]
  {
    if sv1.device != sv2.device {
      return Fail(DeviceMismatch);
    }
    jac[obsIndex * tpSize + paramIndex] := -2.0 * scalingCoeff * im(sv1.amps, sv2.amps);
    o := Pass;
  }
}
