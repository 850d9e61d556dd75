/** AdjointJacobianGPU::adjointJacobian: the reverse walk over the tape of
    the adjoint differentiation method (arXiv:2009.02823).

    `Walk` states, one tape operation at a time, what the loop does to its
    cursors, to the states lambda, mu and H_lambda and to the Jacobian; the
    method `AdjointJacobian` is proved to compute exactly that. What the walk
    amounts to in closed form is proved in module AdjointProofs. */
module Adjoint {
  import opened StateVector
  import opened Failures
  import opened Observables
  import opened Generators
  import opened AdjointOps

  /** The fixed inputs of one run: the tape, the trainable parameter indices
      (ascending, as the caller supplies them) and the inner product, as the
      imaginary part of <a|b>. */
  datatype Job = Job(ops: OpsData, tp: seq<nat>, im: (Term, Term) -> real)

  /** The loop's state between two tape operations.
      `tpIdx` is the position of `tp_it` counted from the front of the
      trainable list (-1 once it reached `rend`), `col` is
      `trainableParamNumber` and `cur` is `current_param_idx`. */
  datatype Sweep = Sweep(lambda: Sv, mu: Sv, bras: seq<Sv>, jac: seq<real>,
                         tpIdx: int, col: int, cur: int)

  /** How a walk ended: its outcome, the number of tape operations still
      below it, the state at that point, and the tape positions whose
      derivative it wrote, in the order it wrote them. */
  datatype Run = Run(outcome: Outcome, pos: nat, state: Sweep, matched: seq<nat>)

  /** Every controlled gate names its target wire. */
  predicate WiresOk(ops: OpsData) {
    forall i | 0 <= i < |ops.ops| :: GeneratorWiresOk(ops.ops[i].name, ops.ops[i].wires)
  }

  /** The shape every state of the loop keeps: the column number moves with
      the trainable cursor and the Jacobian holds a row per bra. */
  predicate Shaped(job: Job, s: Sweep) {
    && -1 <= s.tpIdx < |job.tp|
    && s.col == s.tpIdx
    && |s.bras| * |job.tp| <= |s.jac|
  }

  /** The generator coefficient, negated for an inverted operation. */
  function EffectiveFactor(op: Operation, coeff: real): real {
    coeff * (if op.inverse then -1.0 else 1.0)
  }

  /** The Jacobian after updateJacobian has written column `col` of its
      first `rows` rows from bras and `mu`. */
  function WriteColumn(jac: seq<real>, bras: seq<Sv>, mu: Sv, f: real, col: nat, tpSize: nat,
                       rows: nat, im: (Term, Term) -> real): (r: seq<real>)
    requires col < tpSize && rows <= |bras|
    ensures |r| == |jac|
  {
    seq(|jac|, j requires 0 <= j < |jac| =>
      if j % tpSize == col && j / tpSize < rows then Derivative(f, im(bras[j / tpSize].amps, mu.amps))
      else jac[j])
  }

  /** The operation at tape position `i` is differentiated: it has a
      parameter and the parametric counter has reached the trainable index
      under the cursor. */
  predicate Matches(job: Job, i: nat, s: Sweep)
    requires i < |job.ops.ops| && 0 <= s.tpIdx < |job.tp|
  {
    HasParams(job.ops.ops[i]) && s.cur == job.tp[s.tpIdx]
  }

  /** One visited operation: mu takes lambda's amplitudes, lambda is undone;
      a matched operation applies its generator to mu (failing for an
      unregistered name) and fills column `col` of the Jacobian; every bra is
      undone afterwards. */
  function Visit(job: Job, i: nat, s: Sweep): (r: Result<Sweep>)
    requires i < |job.ops.ops| && Shaped(job, s) && 0 <= s.tpIdx
    requires GeneratorWiresOk(job.ops.ops[i].name, job.ops.ops[i].wires)
    ensures r.Ok? ==> Shaped(job, r.value) && |r.value.bras| == |s.bras|
  {
    var op := job.ops.ops[i];
    var mu := UpdateData(s.mu, s.lambda);
    var lambda := ApplyOperationAdj(s.lambda, job.ops, i);
    var bras := UndoAll(s.bras, job.ops, i);
    if !HasParams(op) then Ok(Sweep(lambda, mu, bras, s.jac, s.tpIdx, s.col, s.cur))
    else if !Matches(job, i, s) then Ok(Sweep(lambda, mu, bras, s.jac, s.tpIdx, s.col, s.cur - 1))
    else
      match ApplyGenerator(mu, op.name, op.wires, !op.inverse)
      case Err(e) => Err(e)
      case Ok(g) =>
        var jac := WriteColumn(s.jac, s.bras, g.0, EffectiveFactor(op, g.1), s.col, |job.tp|, |s.bras|, job.im);
        Ok(Sweep(lambda, g.0, bras, jac, s.tpIdx - 1, s.col - 1, s.cur - 1))
  }

  /** The reverse loop from tape position `k - 1` down to 0: the
      multi-parameter check comes first, then the state-preparation skip,
      then the stop once every trainable parameter has been handled. */
  function Walk(job: Job, k: nat, s: Sweep, matched: seq<nat>): (r: Run)
    requires k <= |job.ops.ops| && Shaped(job, s) && WiresOk(job.ops)
    ensures r.pos <= k && Shaped(job, r.state) && |r.state.bras| == |s.bras|
    decreases k
  {
    if k == 0 then Run(Pass, 0, s, matched)
    else
      var op := job.ops.ops[k - 1];
      if |op.params| > 1 then Run(Fail(UnsupportedOperation), k, s, matched)
      else if IsStatePrep(op.name) then Walk(job, k - 1, s, matched)
      else if s.tpIdx < 0 then Run(Pass, k, s, matched)
      else
        match Visit(job, k - 1, s)
        case Err(e) => Run(Fail(e), k, s, matched)
        case Ok(next) => Walk(job, k - 1, next, if Matches(job, k - 1, s) then matched + [k - 1] else matched)
  }

  /** One step of Walk over a state-preparation operation. */
  lemma WalkSkips(job: Job, k: nat, s: Sweep, matched: seq<nat>)
    requires 0 < k <= |job.ops.ops| && Shaped(job, s) && WiresOk(job.ops)
    requires |job.ops.ops[k - 1].params| <= 1 && IsStatePrep(job.ops.ops[k - 1].name)
    ensures Walk(job, k, s, matched) == Walk(job, k - 1, s, matched)
  {
  }

  /** One step of Walk over a visited operation that Visit takes to `next`. */
  lemma WalkVisits(job: Job, k: nat, s: Sweep, matched: seq<nat>, next: Sweep)
    requires 0 < k <= |job.ops.ops| && Shaped(job, s) && WiresOk(job.ops)
    requires |job.ops.ops[k - 1].params| <= 1 && !IsStatePrep(job.ops.ops[k - 1].name) && 0 <= s.tpIdx
    requires Visit(job, k - 1, s) == Ok(next)
    ensures Shaped(job, next)
    ensures Walk(job, k, s, matched)
         == Walk(job, k - 1, next, if Matches(job, k - 1, s) then matched + [k - 1] else matched)
  {
  }

  /** Walk stops at an operation with more than one parameter. */
  lemma WalkRejects(job: Job, k: nat, s: Sweep, matched: seq<nat>)
    requires 0 < k <= |job.ops.ops| && Shaped(job, s) && WiresOk(job.ops)
    requires |job.ops.ops[k - 1].params| > 1
    ensures Walk(job, k, s, matched) == Run(Fail(UnsupportedOperation), k, s, matched)
  {
  }

  /** Walk stops once every trainable parameter has been handled. */
  lemma WalkStops(job: Job, k: nat, s: Sweep, matched: seq<nat>)
    requires 0 < k <= |job.ops.ops| && Shaped(job, s) && WiresOk(job.ops)
    requires |job.ops.ops[k - 1].params| <= 1 && !IsStatePrep(job.ops.ops[k - 1].name) && s.tpIdx < 0
    ensures Walk(job, k, s, matched) == Run(Pass, k, s, matched)
  {
  }

  /** Walk stops with Visit's error. */
  lemma WalkFails(job: Job, k: nat, s: Sweep, matched: seq<nat>)
    requires 0 < k <= |job.ops.ops| && Shaped(job, s) && WiresOk(job.ops)
    requires |job.ops.ops[k - 1].params| <= 1 && !IsStatePrep(job.ops.ops[k - 1].name) && 0 <= s.tpIdx
    requires Visit(job, k - 1, s).Err?
    ensures Walk(job, k, s, matched) == Run(Fail(Visit(job, k - 1, s).error), k, s, matched)
  {
  }

  /** lambda: the caller's amplitudes, with the tape applied if requested. */
  function InitialLambda(ops: OpsData, refData: seq<Complex>, dev: int, applyOperations: bool): Sv {
    if applyOperations then Sv(dev, Forward(ops.ops, false, Host(refData))) else Sv(dev, Host(refData))
  }

  /** The state before the loop: H_lambda[i] is observable i applied to
      lambda, mu is a fresh state, all on the same device, and the cursors
      start at the last trainable parameter and the last parametric operation. */
  function Init(job: Job, refData: seq<Complex>, dev: int, obs: seq<Observable>, jac: seq<real>,
                applyOperations: bool): Sweep
    requires forall i | 0 <= i < |obs| :: WellFormed(obs[i])
  {
    var lambda := InitialLambda(job.ops, refData, dev, applyOperations);
    var bras := seq(|obs|, i requires 0 <= i < |obs| => Sv(dev, ApplyObs(obs[i], lambda.amps)));
    Sweep(lambda, Sv(dev, Blank), bras, jac, |job.tp| - 1, |job.tp| - 1, job.ops.numParOps - 1)
  }

  /** adjointJacobian: aborts on an empty trainable list before any state is
      built; otherwise runs the reverse walk, leaving in `jac` what the walk
      leaves, including the entries written before an abort. */
  method AdjointJacobian(refData: seq<Complex>, dev: int, jac: array<real>, obs: seq<Observable>,
                         ops: OpsData, trainableParams: seq<nat>, applyOperations: bool,
                         im: (Term, Term) -> real)
      returns (o: Outcome)
    requires |obs| * |trainableParams| <= jac.Length
    requires forall i | 0 <= i < |obs| :: WellFormed(obs[i])
    requires WiresOk(ops)
    modifies jac
    ensures trainableParams == [] ==> o == Fail(InvalidArgument) && jac[..] == old(jac[..])
    ensures trainableParams != [] ==>
      var job := Job(ops, trainableParams, im);
      var r := Walk(job, |ops.ops|, Init(job, refData, dev, obs, old(jac[..]), applyOperations), []);
      o == r.outcome && jac[..] == r.state.jac
  {
    if |trainableParams| == 0 {
      return Fail(InvalidArgument);
    }
    var job := Job(ops, trainableParams, im);
    var tpSize := |trainableParams|;
    var numParamOps: int := ops.numParOps;
    var trainableParamNumber: int := tpSize - 1;
    var currentParamIdx: int := numParamOps - 1;
    var tpIt: int := tpSize - 1;

    var lambda := Sv(dev, Host(refData));
    if applyOperations {
      lambda := ApplyOperations(lambda, ops, false);
    }
    var hLambda := new Sv[|obs|](_ => Sv(dev, Blank));
    ApplyObservables(hLambda, lambda, obs);
    var mu := Sv(dev, Blank);

    ghost var init := Init(job, refData, dev, obs, old(jac[..]), applyOperations);
    assert hLambda[..] == init.bras;
    assert Sweep(lambda, mu, hLambda[..], jac[..], tpIt, trainableParamNumber, currentParamIdx) == init;
    o := ReverseWalk(job, lambda, mu, hLambda, jac, tpIt, trainableParamNumber, currentParamIdx, dev);
  }

  /** The reverse loop of adjointJacobian, from the last operation of the
      tape down: it returns Walk's outcome and leaves Walk's Jacobian. */
  method ReverseWalk(job: Job, lambda0: Sv, mu0: Sv, hLambda: array<Sv>, jac: array<real>,
                     tpIt0: int, trainableParamNumber0: int, currentParamIdx0: int, ghost dev: int)
      returns (o: Outcome)
    requires WiresOk(job.ops)
    requires Shaped(job, Sweep(lambda0, mu0, hLambda[..], jac[..], tpIt0, trainableParamNumber0, currentParamIdx0))
    requires mu0.device == dev && forall j | 0 <= j < hLambda.Length :: hLambda[j].device == dev
    modifies hLambda, jac
    ensures var r := Walk(job, |job.ops.ops|,
                          old(Sweep(lambda0, mu0, hLambda[..], jac[..], tpIt0, trainableParamNumber0, currentParamIdx0)), []);
      o == r.outcome && jac[..] == r.state.jac
  {
    var ops := job.ops;
    var lambda, mu, tpIt, trainableParamNumber, currentParamIdx := lambda0, mu0, tpIt0, trainableParamNumber0, currentParamIdx0;
    ghost var init := Sweep(lambda, mu, hLambda[..], jac[..], tpIt, trainableParamNumber, currentParamIdx);
    ghost var matched: seq<nat> := [];
    var k := |ops.ops|;
    while k > 0
      invariant 0 <= k <= |ops.ops|
      invariant mu.device == dev && forall j | 0 <= j < hLambda.Length :: hLambda[j].device == dev
      invariant Shaped(job, Sweep(lambda, mu, hLambda[..], jac[..], tpIt, trainableParamNumber, currentParamIdx))
      invariant Walk(job, k, Sweep(lambda, mu, hLambda[..], jac[..], tpIt, trainableParamNumber, currentParamIdx), matched)
             == Walk(job, |ops.ops|, init, [])
    {
      var opIdx := k - 1;
      var op := ops.ops[opIdx];
      ghost var before := Sweep(lambda, mu, hLambda[..], jac[..], tpIt, trainableParamNumber, currentParamIdx);
      if |op.params| > 1 {
        WalkRejects(job, k, before, matched);
        return Fail(UnsupportedOperation);
      }
      if IsStatePrep(op.name) {
        WalkSkips(job, k, before, matched);
        k := k - 1;
        continue;
      }
      if tpIt < 0 {
        WalkStops(job, k, before, matched);
        return Pass;
      }
      ghost var isMatch := Matches(job, opIdx, before);
      var failed;
      failed, lambda, mu, tpIt, trainableParamNumber, currentParamIdx :=
        VisitOperation(job, opIdx, lambda, mu, hLambda, jac, tpIt, trainableParamNumber, currentParamIdx, dev);
      if failed.Fail? {
        WalkFails(job, k, before, matched);
        return failed;
      }
      ghost var after := Sweep(lambda, mu, hLambda[..], jac[..], tpIt, trainableParamNumber, currentParamIdx);
      WalkVisits(job, k, before, matched, after);
      if isMatch {
        matched := matched + [opIdx];
      }
      k := k - 1;
    }
    return Pass;
  }

  /** One visited operation of the loop, from the copy of lambda into mu to
      the undo of every bra: it changes the states, the cursors and the
      Jacobian as `Visit` says, or fails with Visit's error leaving the
      Jacobian as it was. */
  method VisitOperation(job: Job, opIdx: nat, lambda: Sv, mu: Sv, hLambda: array<Sv>, jac: array<real>,
                        tpIt: int, trainableParamNumber: int, currentParamIdx: int, ghost dev: int)
      returns (o: Outcome, lambda': Sv, mu': Sv, tpIt': int, trainableParamNumber': int, currentParamIdx': int)
    requires opIdx < |job.ops.ops| && 0 <= tpIt
    requires Shaped(job, Sweep(lambda, mu, hLambda[..], jac[..], tpIt, trainableParamNumber, currentParamIdx))
    requires GeneratorWiresOk(job.ops.ops[opIdx].name, job.ops.ops[opIdx].wires)
    requires mu.device == dev && forall j | 0 <= j < hLambda.Length :: hLambda[j].device == dev
    modifies hLambda, jac
    ensures var v := Visit(job, opIdx, old(Sweep(lambda, mu, hLambda[..], jac[..], tpIt, trainableParamNumber, currentParamIdx)));
      && (o.Fail? <==> v.Err?)
      && (v.Err? ==> o.error == v.error && jac[..] == old(jac[..]))
      && (v.Ok? ==> v.value == Sweep(lambda', mu', hLambda[..], jac[..], tpIt', trainableParamNumber', currentParamIdx'))
    ensures mu'.device == dev && forall j | 0 <= j < hLambda.Length :: hLambda[j].device == dev
  {
    ghost var before := Sweep(lambda, mu, hLambda[..], jac[..], tpIt, trainableParamNumber, currentParamIdx);
    var ops := job.ops;
    var op := ops.ops[opIdx];
    lambda', mu', tpIt', trainableParamNumber', currentParamIdx' := lambda, mu, tpIt, trainableParamNumber, currentParamIdx;
    mu' := UpdateData(mu', lambda');
    lambda' := ApplyOperationAdj(lambda', ops, opIdx);
    if HasParams(op) {
      if currentParamIdx' == job.tp[tpIt'] {
        var gen := ApplyGenerator(mu', op.name, op.wires, !op.inverse);
        if gen.Err? {
          return Fail(gen.error), lambda', mu', tpIt', trainableParamNumber', currentParamIdx';
        }
        mu' := gen.value.0;
        var scalingFactor := gen.value.1 * (if op.inverse then -1.0 else 1.0);
        UpdateColumn(hLambda, mu', jac, scalingFactor, trainableParamNumber', |job.tp|, job.im, dev);
        trainableParamNumber' := trainableParamNumber' - 1;
        tpIt' := tpIt' - 1;
      }
      currentParamIdx' := currentParamIdx' - 1;
    }
    ApplyOperationsAdj(hLambda, ops, opIdx);
    o := Pass;
  }

  /** The loop over observables of one matched operation: updateJacobian for
      every bra against the same mu, on column `col`. */
  method UpdateColumn(hLambda: array<Sv>, mu: Sv, jac: array<real>, scalingFactor: real, col: nat,
                      tpSize: nat, im: (Term, Term) -> real, ghost dev: int)
    requires col < tpSize && hLambda.Length * tpSize <= jac.Length
    requires mu.device == dev && forall j | 0 <= j < hLambda.Length :: hLambda[j].device == dev
    modifies jac
    ensures jac[..] == WriteColumn(old(jac[..]), hLambda[..], mu, scalingFactor, col, tpSize, hLambda.Length, im)
  {
    var numObservables := hLambda.Length;
    var obsIdx := 0;
    while obsIdx < numObservables
      invariant 0 <= obsIdx <= numObservables
      invariant jac[..] == WriteColumn(old(jac[..]), hLambda[..], mu, scalingFactor, col, tpSize, obsIdx, im)
    {
      JacIndexInverse(obsIdx, col, tpSize, numObservables);
      ghost var prev := jac[..];
      var r := UpdateJacobian(hLambda[obsIdx], mu, jac, scalingFactor, obsIdx, col, tpSize, im);
      assert r == Pass;
      forall j | 0 <= j < jac.Length
        ensures jac[j] == WriteColumn(old(jac[..]), hLambda[..], mu, scalingFactor, col, tpSize, obsIdx + 1, im)[j]
      {
        if j == JacIndex(obsIdx, col, tpSize) {
        } else if j % tpSize == col && j / tpSize == obsIdx {
          JacIndexOnto(j, tpSize);
          assert false;
        }
      }
      obsIdx := obsIdx + 1;
    }
  }
}
