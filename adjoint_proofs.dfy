/** What the reverse walk of adjointJacobian computes, in closed form.

    The walk keeps one invariant, `Inv`, between any two tape operations:
    lambda and every bra have received the same undo sequence; the
    parametric counter has moved once per parametric operation visited; the
    operations differentiated so far are listed against the columns they
    filled, last column first; and every Jacobian entry is either the
    derivative of its column's operation or untouched. The theorems at the
    end read the finished run off that invariant. */
module AdjointProofs {
  import opened StateVector
  import opened Failures
  import opened Observables
  import opened Generators
  import opened AdjointOps
  import opened Adjoint

  // ---------------------------------------------------------------------------
  // Closed forms

  /** Amplitudes `t` with the operations at tape positions `k` to the end
      undone, last operation first, state preparations left out. */
  function UndoFrom(ops: OpsData, k: nat, t: Term): Term
    requires k <= |ops.ops|
    decreases |ops.ops| - k
  {
    if k == |ops.ops| then t
    else
      var rest := UndoFrom(ops, k + 1, t);
      var op := ops.ops[k];
      if IsStatePrep(op.name) then rest else ApplyOp(op, !op.inverse, rest)
  }

  /** The number of parametric operations, other than state preparations, at
      tape positions `k` to the end. */
  function ParCount(ops: OpsData, k: nat): nat
    requires k <= |ops.ops|
    decreases |ops.ops| - k
  {
    if k == |ops.ops| then 0
    else ParCount(ops, k + 1) + (if HasParams(ops.ops[k]) && !IsStatePrep(ops.ops[k].name) then 1 else 0)
  }

  /** The value of the parametric counter when the walk reaches position `i`. */
  function ParPos(ops: OpsData, i: nat): int
    requires i < |ops.ops|
  {
    ops.numParOps - 1 - ParCount(ops, i + 1)
  }

  /** The derivative of observable `o` with respect to the operation at tape
      position `i`: -2 c Im<H_o undone down to i | G_i lambda undone down to i>,
      with c the operation's generator coefficient, negated if it is inverted. */
  function Deriv(job: Job, i: nat, o: nat, lam0: Term, bras0: seq<Term>): real
    requires i < |job.ops.ops| && o < |bras0| && WiresOk(job.ops)
  {
    var op := job.ops.ops[i];
    if op.name in SupportedGates then
      var g := ApplyGeneratorFunc(GeneratorMap()[op.name], UndoFrom(job.ops, i + 1, lam0), op.wires, !op.inverse);
      Derivative(EffectiveFactor(op, ScalingFactors()[op.name]), job.im(UndoFrom(job.ops, i + 1, bras0[o]), g))
    else 0.0
  }

  /** Tape position `i` can fill column `c`: a supported one-parameter
      operation, not a state preparation, whose counter value is the
      trainable index of that column. */
  predicate FillsColumn(job: Job, i: nat, c: nat)
    requires i < |job.ops.ops| && c < |job.tp|
  {
    var op := job.ops.ops[i];
    && |op.params| == 1
    && !IsStatePrep(op.name)
    && op.name in SupportedGates
    && ParPos(job.ops, i) == job.tp[c]
  }

  /** What entry `j` of the Jacobian holds once the columns above `tpIdx`
      have been filled by the operations `matched` (last column first). */
  function Expected(job: Job, matched: seq<nat>, tpIdx: int, lam0: Term, bras0: seq<Term>,
                    jac0: seq<real>, j: nat): real
    requires WiresOk(job.ops) && j < |jac0| && |job.tp| > 0
    requires |matched| == |job.tp| - 1 - tpIdx
    requires forall x | 0 <= x < |matched| :: matched[x] < |job.ops.ops|
  {
    var tpSize := |job.tp|;
    if j / tpSize < |bras0| && j % tpSize > tpIdx then
      Deriv(job, matched[tpSize - 1 - j % tpSize], j / tpSize, lam0, bras0)
    else jac0[j]
  }

  /** Lambda and every bra have received the same undo sequence: that of the
      tape from position `k` to the end. */
  predicate Lockstep(job: Job, k: nat, s: Sweep, dev: int, lam0: Term, bras0: seq<Term>)
    requires k <= |job.ops.ops|
  {
    && s.lambda == Sv(dev, UndoFrom(job.ops, k, lam0))
    && |s.bras| == |bras0|
    && (forall o | 0 <= o < |s.bras| :: s.bras[o] == Sv(dev, UndoFrom(job.ops, k, bras0[o])))
    && s.mu.device == dev
  }

  /** The operations differentiated so far, top of the tape first, each listed
      against the column it filled, from the last column down to `tpIdx + 1`. */
  predicate Filled(job: Job, k: nat, tpIdx: int, matched: seq<nat>)
  {
    && -1 <= tpIdx
    && |matched| == |job.tp| - 1 - tpIdx
    && (forall x | 0 <= x < |matched| :: k <= matched[x] < |job.ops.ops|)
    && (forall x, y | 0 <= x < y < |matched| :: matched[x] > matched[y])
    && (forall x | 0 <= x < |matched| :: FillsColumn(job, matched[x], |job.tp| - 1 - x))
  }

  /** Every Jacobian entry holds its derivative if its column has been
      filled and its original value otherwise. */
  predicate JacobianSoFar(job: Job, s: Sweep, matched: seq<nat>, lam0: Term, bras0: seq<Term>, jac0: seq<real>)
    requires WiresOk(job.ops) && |job.tp| > 0
    requires |matched| == |job.tp| - 1 - s.tpIdx
    requires forall x | 0 <= x < |matched| :: matched[x] < |job.ops.ops|
  {
    && |s.jac| == |jac0|
    && (forall j | 0 <= j < |s.jac| :: s.jac[j] == Expected(job, matched, s.tpIdx, lam0, bras0, jac0, j))
  }

  /** The invariant of the walk at tape position `k`. */
  predicate Inv(job: Job, k: nat, s: Sweep, matched: seq<nat>, dev: int, lam0: Term, bras0: seq<Term>, jac0: seq<real>)
  {
    && k <= |job.ops.ops| && WiresOk(job.ops) && Shaped(job, s) && |job.tp| > 0
    && Lockstep(job, k, s, dev, lam0, bras0)
    && s.cur == job.ops.numParOps - 1 - ParCount(job.ops, k)
    && Filled(job, k, s.tpIdx, matched)
    && JacobianSoFar(job, s, matched, lam0, bras0, jac0)
  }

  // ---------------------------------------------------------------------------
  // One step

  lemma ParCountStep(ops: OpsData, k: nat)
    requires k < |ops.ops|
    ensures ParCount(ops, k) == ParCount(ops, k + 1) + (if HasParams(ops.ops[k]) && !IsStatePrep(ops.ops[k].name) then 1 else 0)
  {
  }

  /** A skipped state preparation keeps the invariant one position down. */
  lemma InvSkip(job: Job, k: nat, s: Sweep, matched: seq<nat>, dev: int, lam0: Term, bras0: seq<Term>, jac0: seq<real>)
    requires k > 0 && Inv(job, k, s, matched, dev, lam0, bras0, jac0)
    requires IsStatePrep(job.ops.ops[k - 1].name)
    ensures Inv(job, k - 1, s, matched, dev, lam0, bras0, jac0)
  {
  }

  /** The columns already filled keep their values when one more is written. */
  lemma ExpectedExtend(job: Job, matched: seq<nat>, m: seq<nat>, tpIdx: int, i: nat, lam0: Term, bras0: seq<Term>,
                       jac0: seq<real>, j: nat)
    requires WiresOk(job.ops) && j < |jac0| && |job.tp| > 0 && 0 <= tpIdx < |job.tp| && i < |job.ops.ops|
    requires |matched| == |job.tp| - 1 - tpIdx && m == matched + [i]
    requires forall x | 0 <= x < |matched| :: matched[x] < |job.ops.ops|
    requires forall x | 0 <= x < |m| :: m[x] < |job.ops.ops|
    ensures Expected(job, m, tpIdx - 1, lam0, bras0, jac0, j)
         == if j / |job.tp| < |bras0| && j % |job.tp| == tpIdx then Deriv(job, i, j / |job.tp|, lam0, bras0)
            else Expected(job, matched, tpIdx, lam0, bras0, jac0, j)
  {
    var tpSize := |job.tp|;
    if j / tpSize < |bras0| && j % tpSize > tpIdx {
      assert m[tpSize - 1 - j % tpSize] == matched[tpSize - 1 - j % tpSize];
    }
  }

  /** What a visit does, field by field. */
  lemma VisitFacts(job: Job, i: nat, s: Sweep)
    requires i < |job.ops.ops| && Shaped(job, s) && 0 <= s.tpIdx
    requires GeneratorWiresOk(job.ops.ops[i].name, job.ops.ops[i].wires)
    ensures var r := Visit(job, i, s);
      var op := job.ops.ops[i];
      && (r.Err? <==> Matches(job, i, s) && op.name !in SupportedGates)
      && (r.Ok? ==>
            && r.value.lambda == ApplyOperationAdj(s.lambda, job.ops, i)
            && r.value.bras == UndoAll(s.bras, job.ops, i)
            && r.value.mu.device == s.mu.device
            && r.value.cur == (if HasParams(op) then s.cur - 1 else s.cur)
            && r.value.tpIdx == (if Matches(job, i, s) then s.tpIdx - 1 else s.tpIdx)
            && (!Matches(job, i, s) ==> r.value.jac == s.jac)
            && (Matches(job, i, s) ==>
                  && op.name in GeneratorMap() && op.name in ScalingFactors()
                  && r.value.mu.amps == ApplyGeneratorFunc(GeneratorMap()[op.name], s.lambda.amps, op.wires, !op.inverse)
                  && r.value.jac == WriteColumn(s.jac, s.bras, r.value.mu, EffectiveFactor(op, ScalingFactors()[op.name]),
                                                s.tpIdx, |job.tp|, |s.bras|, job.im)))
  {
  }

  /** Undoing one more operation on every bra keeps them in lockstep with lambda. */
  lemma LockstepStep(job: Job, k: nat, s: Sweep, next: Sweep, dev: int, lam0: Term, bras0: seq<Term>)
    requires 0 < k <= |job.ops.ops| && !IsStatePrep(job.ops.ops[k - 1].name)
    requires Lockstep(job, k, s, dev, lam0, bras0)
    requires next.lambda == ApplyOperationAdj(s.lambda, job.ops, k - 1)
    requires next.bras == UndoAll(s.bras, job.ops, k - 1)
    requires next.mu.device == dev
    ensures Lockstep(job, k - 1, next, dev, lam0, bras0)
  {
    forall o | 0 <= o < |next.bras| ensures next.bras[o] == Sv(dev, UndoFrom(job.ops, k - 1, bras0[o])) {
      assert next.bras[o] == ApplyOperationAdj(s.bras[o], job.ops, k - 1);
    }
  }

  /** Recording the operation at position `i` against the column under the
      cursor keeps the record in order. */
  lemma FilledAppend(job: Job, k: nat, tpIdx: int, matched: seq<nat>)
    requires 0 < k <= |job.ops.ops| && 0 <= tpIdx < |job.tp|
    requires Filled(job, k, tpIdx, matched)
    requires FillsColumn(job, k - 1, tpIdx)
    ensures Filled(job, k - 1, tpIdx - 1, matched + [k - 1])
  {
    var i := k - 1;
    var m := matched + [i];
    var tpSize := |job.tp|;
    forall x | 0 <= x < |m| ensures i <= m[x] < |job.ops.ops| && FillsColumn(job, m[x], tpSize - 1 - x) {
      if x < |matched| { assert m[x] == matched[x]; }
    }
    forall x, y | 0 <= x < y < |m| ensures m[x] > m[y] {
      if y < |matched| { assert m[x] == matched[x] && m[y] == matched[y]; }
      else { assert m[x] == matched[x]; }
    }
  }

  /** Writing column `tpIdx` with the derivatives of the operation at `k - 1`
      extends the Jacobian by that column. */
  lemma JacobianWrite(job: Job, k: nat, s: Sweep, matched: seq<nat>, m: seq<nat>, jac: seq<real>, mu: Sv,
                      dev: int, lam0: Term, bras0: seq<Term>, jac0: seq<real>)
    requires 0 < k <= |job.ops.ops| && WiresOk(job.ops) && Shaped(job, s) && 0 <= s.tpIdx && |job.tp| > 0
    requires Lockstep(job, k, s, dev, lam0, bras0)
    requires Filled(job, k, s.tpIdx, matched) && m == matched + [k - 1]
    requires Filled(job, k - 1, s.tpIdx - 1, m)
    requires JacobianSoFar(job, s, matched, lam0, bras0, jac0)
    requires var op := job.ops.ops[k - 1];
      && op.name in SupportedGates && op.name in GeneratorMap() && op.name in ScalingFactors()
      && mu.amps == ApplyGeneratorFunc(GeneratorMap()[op.name], s.lambda.amps, op.wires, !op.inverse)
      && jac == WriteColumn(s.jac, s.bras, mu, EffectiveFactor(op, ScalingFactors()[op.name]), s.tpIdx, |job.tp|, |s.bras|, job.im)
    ensures |jac| == |jac0|
    ensures forall j | 0 <= j < |jac| :: jac[j] == Expected(job, m, s.tpIdx - 1, lam0, bras0, jac0, j)
  {
    var tpSize := |job.tp|;
    var op := job.ops.ops[k - 1];
    var f := EffectiveFactor(op, ScalingFactors()[op.name]);
    forall j | 0 <= j < |jac|
      ensures jac[j] == Expected(job, m, s.tpIdx - 1, lam0, bras0, jac0, j)
    {
      ExpectedExtend(job, matched, m, s.tpIdx, k - 1, lam0, bras0, jac0, j);
      if j / tpSize < |bras0| && j % tpSize == s.tpIdx {
        var o := j / tpSize;
        assert jac[j] == Derivative(f, job.im(s.bras[o].amps, mu.amps));
        assert s.bras[o].amps == UndoFrom(job.ops, k, bras0[o]);
        assert jac[j] == Deriv(job, k - 1, o, lam0, bras0);
      } else {
        assert jac[j] == s.jac[j];
      }
    }
  }

  /** A visited operation keeps the invariant one position down. */
  lemma InvVisit(job: Job, k: nat, s: Sweep, matched: seq<nat>, dev: int, lam0: Term, bras0: seq<Term>, jac0: seq<real>)
    requires k > 0 && Inv(job, k, s, matched, dev, lam0, bras0, jac0)
    requires !IsStatePrep(job.ops.ops[k - 1].name) && |job.ops.ops[k - 1].params| <= 1 && 0 <= s.tpIdx
    requires Visit(job, k - 1, s).Ok?
    ensures Inv(job, k - 1, Visit(job, k - 1, s).value,
                if Matches(job, k - 1, s) then matched + [k - 1] else matched, dev, lam0, bras0, jac0)
  {
    if Matches(job, k - 1, s) {
      InvVisitMatch(job, k, s, matched, dev, lam0, bras0, jac0);
    } else {
      InvVisitPass(job, k, s, matched, dev, lam0, bras0, jac0);
    }
  }

  /** A visited operation that fills no column: only the states and the counter move. */
  lemma InvVisitPass(job: Job, k: nat, s: Sweep, matched: seq<nat>, dev: int, lam0: Term, bras0: seq<Term>, jac0: seq<real>)
    requires k > 0 && Inv(job, k, s, matched, dev, lam0, bras0, jac0)
    requires !IsStatePrep(job.ops.ops[k - 1].name) && |job.ops.ops[k - 1].params| <= 1 && 0 <= s.tpIdx
    requires Visit(job, k - 1, s).Ok? && !Matches(job, k - 1, s)
    ensures Inv(job, k - 1, Visit(job, k - 1, s).value, matched, dev, lam0, bras0, jac0)
  {
    var i := k - 1;
    var next := Visit(job, i, s).value;
    VisitFacts(job, i, s);
    ParCountStep(job.ops, i);
    LockstepStep(job, k, s, next, dev, lam0, bras0);
  }

  /** A visited operation that fills column `tpIdx`. */
  lemma InvVisitMatch(job: Job, k: nat, s: Sweep, matched: seq<nat>, dev: int, lam0: Term, bras0: seq<Term>, jac0: seq<real>)
    requires k > 0 && Inv(job, k, s, matched, dev, lam0, bras0, jac0)
    requires !IsStatePrep(job.ops.ops[k - 1].name) && |job.ops.ops[k - 1].params| <= 1 && 0 <= s.tpIdx
    requires Visit(job, k - 1, s).Ok? && Matches(job, k - 1, s)
    ensures Inv(job, k - 1, Visit(job, k - 1, s).value, matched + [k - 1], dev, lam0, bras0, jac0)
  {
    var i := k - 1;
    var next := Visit(job, i, s).value;
    VisitFacts(job, i, s);
    ParCountStep(job.ops, i);
    LockstepStep(job, k, s, next, dev, lam0, bras0);
    assert FillsColumn(job, i, s.tpIdx);
    FilledAppend(job, k, s.tpIdx, matched);
    JacobianWrite(job, k, s, matched, matched + [i], next.jac, next.mu, dev, lam0, bras0, jac0);
  }

  // ---------------------------------------------------------------------------
  // The whole walk

  /** How a run that started at tape position `k` in a state meeting the
      invariant may end: the invariant holds where it stopped; every
      operation it passed has at most one parameter; an abort names the
      operation at which it happened; and a normal end before the bottom of
      the tape means every trainable parameter was handled. */
  predicate EndsWell(job: Job, k: nat, r: Run, dev: int, lam0: Term, bras0: seq<Term>, jac0: seq<real>)
    requires k <= |job.ops.ops|
  {
    && r.pos <= k
    && Inv(job, r.pos, r.state, r.matched, dev, lam0, bras0, jac0)
    && (forall i | r.pos <= i < k :: |job.ops.ops[i].params| <= 1)
    && (r.outcome.Fail? ==> r.pos > 0 && WalkFailsAt(job, r.pos - 1, r.state, r.outcome.error))
    && (r.outcome.Pass? && r.pos > 0 ==>
          r.state.tpIdx == -1 && |job.ops.ops[r.pos - 1].params| <= 1 && !IsStatePrep(job.ops.ops[r.pos - 1].name))
  }

  /** A run that ends well from `k - 1` ends well from `k` once the
      operation at `k - 1` passed the multi-parameter check. */
  lemma EndsWellAbove(job: Job, k: nat, r: Run, dev: int, lam0: Term, bras0: seq<Term>, jac0: seq<real>)
    requires 0 < k <= |job.ops.ops| && |job.ops.ops[k - 1].params| <= 1
    requires EndsWell(job, k - 1, r, dev, lam0, bras0, jac0)
    ensures EndsWell(job, k, r, dev, lam0, bras0, jac0)
  {
  }

  /** A run that stops where the invariant holds, when it stops for one of the
      walk's reasons, ends well. */
  lemma EndsWellHere(job: Job, k: nat, s: Sweep, matched: seq<nat>, o: Outcome, dev: int, lam0: Term,
                     bras0: seq<Term>, jac0: seq<real>)
    requires Inv(job, k, s, matched, dev, lam0, bras0, jac0)
    requires o.Fail? ==> k > 0 && WalkFailsAt(job, k - 1, s, o.error)
    requires o.Pass? && k > 0 ==> s.tpIdx == -1 && |job.ops.ops[k - 1].params| <= 1 && !IsStatePrep(job.ops.ops[k - 1].name)
    ensures EndsWell(job, k, Run(o, k, s, matched), dev, lam0, bras0, jac0)
  {
  }

  /** The walk from any state that meets the invariant ends well. */
  lemma {:induction false} WalkKeepsInv(job: Job, k: nat, s: Sweep, matched: seq<nat>, dev: int, lam0: Term,
                                        bras0: seq<Term>, jac0: seq<real>)
    requires Inv(job, k, s, matched, dev, lam0, bras0, jac0)
    ensures EndsWell(job, k, Walk(job, k, s, matched), dev, lam0, bras0, jac0)
    decreases k
  {
    if k == 0 {
      EndsWellHere(job, k, s, matched, Pass, dev, lam0, bras0, jac0);
      return;
    }
    var op := job.ops.ops[k - 1];
    if |op.params| > 1 {
      EndsWellHere(job, k, s, matched, Fail(UnsupportedOperation), dev, lam0, bras0, jac0);
    } else if IsStatePrep(op.name) {
      InvSkip(job, k, s, matched, dev, lam0, bras0, jac0);
      WalkKeepsInv(job, k - 1, s, matched, dev, lam0, bras0, jac0);
      EndsWellAbove(job, k, Walk(job, k - 1, s, matched), dev, lam0, bras0, jac0);
    } else if s.tpIdx < 0 {
      EndsWellHere(job, k, s, matched, Pass, dev, lam0, bras0, jac0);
    } else {
      var v := Visit(job, k - 1, s);
      if v.Err? {
        VisitError(job, k - 1, s);
        EndsWellHere(job, k, s, matched, Fail(v.error), dev, lam0, bras0, jac0);
      } else {
        var m := if Matches(job, k - 1, s) then matched + [k - 1] else matched;
        InvVisit(job, k, s, matched, dev, lam0, bras0, jac0);
        WalkKeepsInv(job, k - 1, v.value, m, dev, lam0, bras0, jac0);
        EndsWellAbove(job, k, Walk(job, k - 1, v.value, m), dev, lam0, bras0, jac0);
      }
    }
  }

  /** Why the walk stops with `e` at tape position `i`: an operation with
      more than one parameter, or a differentiated operation with no
      registered generator. */
  predicate WalkFailsAt(job: Job, i: nat, s: Sweep, e: Error)
    requires i < |job.ops.ops|
  {
    var op := job.ops.ops[i];
    || (e == UnsupportedOperation && |op.params| > 1)
    || (&& e == GeneratorNotFound && |op.params| == 1 && !IsStatePrep(op.name)
        && op.name !in SupportedGates && 0 <= s.tpIdx < |job.tp| && s.cur == job.tp[s.tpIdx])
  }

  lemma VisitError(job: Job, i: nat, s: Sweep)
    requires i < |job.ops.ops| && Shaped(job, s) && 0 <= s.tpIdx && WiresOk(job.ops)
    requires !IsStatePrep(job.ops.ops[i].name) && |job.ops.ops[i].params| <= 1
    requires Visit(job, i, s).Err?
    ensures WalkFailsAt(job, i, s, Visit(job, i, s).error)
  {
  }

  // ---------------------------------------------------------------------------
  // From the start of adjointJacobian

  /** The inputs adjointJacobian is called with: a non-empty trainable list,
      well-formed observables, a target wire for every controlled gate and a
      Jacobian with room for every observable's row. */
  predicate Admissible(job: Job, obs: seq<Observable>, jac0: seq<real>) {
    && |job.tp| > 0
    && (forall i | 0 <= i < |obs| :: WellFormed(obs[i]))
    && WiresOk(job.ops)
    && |obs| * |job.tp| <= |jac0|
  }

  /** The bras before the loop: every observable applied to lambda. */
  function InitialBras(obs: seq<Observable>, lam0: Term): (r: seq<Term>)
    requires forall i | 0 <= i < |obs| :: WellFormed(obs[i])
    ensures |r| == |obs|
  {
    seq(|obs|, i requires 0 <= i < |obs| => ApplyObs(obs[i], lam0))
  }

  /** The run of adjointJacobian on admissible inputs. */
  function RunOf(job: Job, refData: seq<Complex>, dev: int, obs: seq<Observable>, jac0: seq<real>,
                 applyOperations: bool): Run
    requires Admissible(job, obs, jac0)
  {
    Walk(job, |job.ops.ops|, Init(job, refData, dev, obs, jac0, applyOperations), [])
  }

  lemma InitInv(job: Job, refData: seq<Complex>, dev: int, obs: seq<Observable>, jac0: seq<real>, applyOperations: bool)
    requires Admissible(job, obs, jac0)
    ensures var lam0 := InitialLambda(job.ops, refData, dev, applyOperations).amps;
      Inv(job, |job.ops.ops|, Init(job, refData, dev, obs, jac0, applyOperations), [], dev, lam0, InitialBras(obs, lam0), jac0)
  {
    var lam0 := InitialLambda(job.ops, refData, dev, applyOperations).amps;
    var init := Init(job, refData, dev, obs, jac0, applyOperations);
    var tpSize := |job.tp|;
    forall j | 0 <= j < |jac0| ensures init.jac[j] == Expected(job, [], init.tpIdx, lam0, InitialBras(obs, lam0), jac0, j) {
      assert j % tpSize < tpSize;
    }
  }

  /** What the run establishes, from any way it ends. */
  lemma RunEndsWell(job: Job, refData: seq<Complex>, dev: int, obs: seq<Observable>, jac0: seq<real>, applyOperations: bool)
    requires Admissible(job, obs, jac0)
    ensures var lam0 := InitialLambda(job.ops, refData, dev, applyOperations).amps;
      EndsWell(job, |job.ops.ops|, RunOf(job, refData, dev, obs, jac0, applyOperations), dev, lam0, InitialBras(obs, lam0), jac0)
  {
    var lam0 := InitialLambda(job.ops, refData, dev, applyOperations).amps;
    InitInv(job, refData, dev, obs, jac0, applyOperations);
    WalkKeepsInv(job, |job.ops.ops|, Init(job, refData, dev, obs, jac0, applyOperations), [], dev, lam0, InitialBras(obs, lam0), jac0);
  }

  /** Lockstep undo: wherever the run stops, lambda and every H_lambda[i]
      have received exactly the same undo sequence, that of the tape above
      the stopping point with state preparations left out. */
  lemma AdjointLockstep(job: Job, refData: seq<Complex>, dev: int, obs: seq<Observable>, jac0: seq<real>, applyOperations: bool)
    requires Admissible(job, obs, jac0)
    ensures var lam0 := InitialLambda(job.ops, refData, dev, applyOperations).amps;
      var r := RunOf(job, refData, dev, obs, jac0, applyOperations);
      && r.state.lambda.amps == UndoFrom(job.ops, r.pos, lam0)
      && |r.state.bras| == |obs|
      && (forall o | 0 <= o < |obs| :: r.state.bras[o].amps == UndoFrom(job.ops, r.pos, ApplyObs(obs[o], lam0)))
  {
    RunEndsWell(job, refData, dev, obs, jac0, applyOperations);
  }

  /** The parametric counter has moved exactly once per parametric operation
      above the stopping point, state preparations not counted. */
  lemma AdjointCounter(job: Job, refData: seq<Complex>, dev: int, obs: seq<Observable>, jac0: seq<real>, applyOperations: bool)
    requires Admissible(job, obs, jac0)
    ensures var r := RunOf(job, refData, dev, obs, jac0, applyOperations);
      r.state.cur == job.ops.numParOps - 1 - ParCount(job.ops, r.pos)
  {
    RunEndsWell(job, refData, dev, obs, jac0, applyOperations);
  }

  /** Column order: the run differentiates operations from the top of the
      tape down and fills the columns from the last one down, one column per
      operation, each once; the operation filling column c is a supported
      one-parameter operation whose counter value is the trainable index tp[c];
      column and cursor agree throughout. */
  lemma AdjointColumns(job: Job, refData: seq<Complex>, dev: int, obs: seq<Observable>, jac0: seq<real>, applyOperations: bool)
    requires Admissible(job, obs, jac0)
    ensures var r := RunOf(job, refData, dev, obs, jac0, applyOperations);
      && r.state.col == r.state.tpIdx
      && -1 <= r.state.tpIdx < |job.tp|
      && |r.matched| == |job.tp| - 1 - r.state.tpIdx
      && (forall x | 0 <= x < |r.matched| :: r.pos <= r.matched[x] < |job.ops.ops|)
      && (forall x, y | 0 <= x < y < |r.matched| :: r.matched[x] > r.matched[y])
      && (forall x | 0 <= x < |r.matched| :: FillsColumn(job, r.matched[x], |job.tp| - 1 - x))
  {
    RunEndsWell(job, refData, dev, obs, jac0, applyOperations);
  }

  /** The Jacobian the run leaves: entry (o, c) of a filled column holds the
      derivative of observable o with respect to the operation that filled
      it; every other entry, unfilled columns and anything past the last
      row alike, keeps its original value. This holds on an abort too. */
  lemma AdjointJacobianEntries(job: Job, refData: seq<Complex>, dev: int, obs: seq<Observable>, jac0: seq<real>,
                               applyOperations: bool)
    requires Admissible(job, obs, jac0)
    ensures var lam0 := InitialLambda(job.ops, refData, dev, applyOperations).amps;
      var r := RunOf(job, refData, dev, obs, jac0, applyOperations);
      var tpSize := |job.tp|;
      && |r.state.jac| == |jac0|
      && |r.matched| == tpSize - 1 - r.state.tpIdx
      && (forall x | 0 <= x < |r.matched| :: r.matched[x] < |job.ops.ops|)
      && (forall o, c | 0 <= o < |obs| && 0 <= c < tpSize :: JacIndex(o, c, tpSize) < |jac0|)
      && (forall o, c | 0 <= o < |obs| && 0 <= c < tpSize ::
            r.state.jac[JacIndex(o, c, tpSize)]
              == if c > r.state.tpIdx then Deriv(job, r.matched[tpSize - 1 - c], o, lam0, InitialBras(obs, lam0))
                 else jac0[JacIndex(o, c, tpSize)])
      && (forall j | |obs| * tpSize <= j < |jac0| :: r.state.jac[j] == jac0[j])
  {
    var lam0 := InitialLambda(job.ops, refData, dev, applyOperations).amps;
    var r := RunOf(job, refData, dev, obs, jac0, applyOperations);
    RunEndsWell(job, refData, dev, obs, jac0, applyOperations);
    JacobianEntries(job, r.state, r.matched, lam0, InitialBras(obs, lam0), jac0);
  }

  /** The Jacobian invariant read entry by entry. */
  lemma JacobianEntries(job: Job, s: Sweep, matched: seq<nat>, lam0: Term, bras0: seq<Term>, jac0: seq<real>)
    requires WiresOk(job.ops) && |job.tp| > 0 && Shaped(job, s) && |s.bras| == |bras0|
    requires |matched| == |job.tp| - 1 - s.tpIdx
    requires forall x | 0 <= x < |matched| :: matched[x] < |job.ops.ops|
    requires JacobianSoFar(job, s, matched, lam0, bras0, jac0)
    ensures var tpSize := |job.tp|;
      && (forall o, c | 0 <= o < |bras0| && 0 <= c < tpSize :: JacIndex(o, c, tpSize) < |s.jac|)
      && (forall o, c | 0 <= o < |bras0| && 0 <= c < tpSize ::
            s.jac[JacIndex(o, c, tpSize)]
              == if c > s.tpIdx then Deriv(job, matched[tpSize - 1 - c], o, lam0, bras0)
                 else jac0[JacIndex(o, c, tpSize)])
      && (forall j | |bras0| * tpSize <= j < |jac0| :: s.jac[j] == jac0[j])
  {
    var tpSize := |job.tp|;
    forall o, c | 0 <= o < |bras0| && 0 <= c < tpSize
      ensures JacIndex(o, c, tpSize) < |s.jac|
    {
      JacIndexInverse(o, c, tpSize, |bras0|);
    }
    forall o, c | 0 <= o < |bras0| && 0 <= c < tpSize
      ensures s.jac[JacIndex(o, c, tpSize)]
              == if c > s.tpIdx then Deriv(job, matched[tpSize - 1 - c], o, lam0, bras0)
                 else jac0[JacIndex(o, c, tpSize)]
    {
      JacIndexInverse(o, c, tpSize, |bras0|);
      assert s.jac[JacIndex(o, c, tpSize)] == Expected(job, matched, s.tpIdx, lam0, bras0, jac0, JacIndex(o, c, tpSize));
    }
    forall j | |bras0| * tpSize <= j < |jac0| ensures s.jac[j] == jac0[j] {
      RowBeyond(j, tpSize, |bras0|);
      assert s.jac[j] == Expected(job, matched, s.tpIdx, lam0, bras0, jac0, j);
    }
  }

  lemma RowBeyond(j: nat, tpSize: nat, rows: nat)
    requires tpSize > 0 && rows * tpSize <= j
    ensures j / tpSize >= rows
  {
    if j / tpSize < rows {
      JacIndexOnto(j, tpSize);
      MulMonotone(j / tpSize + 1, rows, tpSize);
      assert false;
    }
  }

  /** Errors: a run aborts only because of an operation with more than one
      parameter (checked before the state-preparation skip and the stop),
      or because a differentiated operation has no registered generator;
      every operation above the stopping point passed the parameter check;
      and a run that stops early without error has handled every trainable
      parameter. */
  lemma AdjointErrors(job: Job, refData: seq<Complex>, dev: int, obs: seq<Observable>, jac0: seq<real>, applyOperations: bool)
    requires Admissible(job, obs, jac0)
    ensures var r := RunOf(job, refData, dev, obs, jac0, applyOperations);
      && (forall i | r.pos <= i < |job.ops.ops| :: |job.ops.ops[i].params| <= 1)
      && (r.outcome.Fail? ==>
            && r.pos > 0
            && r.outcome.error in {UnsupportedOperation, GeneratorNotFound}
            && (r.outcome.error == UnsupportedOperation ==> |job.ops.ops[r.pos - 1].params| > 1)
            && (r.outcome.error == GeneratorNotFound ==>
                  var op := job.ops.ops[r.pos - 1];
                  && |op.params| == 1 && !IsStatePrep(op.name) && op.name !in SupportedGates
                  && 0 <= r.state.tpIdx && r.state.cur == job.tp[r.state.tpIdx]))
      && (r.outcome.Pass? && r.pos > 0 ==> r.state.tpIdx == -1 && |r.matched| == |job.tp|)
  {
    RunEndsWell(job, refData, dev, obs, jac0, applyOperations);
  }

  // ---------------------------------------------------------------------------
  // The undo sequence and the parametric counter

  /** The adjoint tape: the operations of `ops` in reverse order, state
      preparations left out. */
  function AdjointTape(ops: seq<Operation>): seq<Operation>
    decreases |ops|
  {
    if ops == [] then []
    else AdjointTape(ops[1..]) + (if IsStatePrep(ops[0].name) then [] else [ops[0]])
  }

  /** The undo the walk applies from position `k` is applyOperations with
      `adj` set, run on the adjoint tape of the operations above `k`. */
  lemma {:induction false} UndoIsAdjointTape(ops: OpsData, k: nat, t: Term)
    requires k <= |ops.ops|
    ensures UndoFrom(ops, k, t) == Forward(AdjointTape(ops.ops[k..]), true, t)
    decreases |ops.ops| - k
  {
    if k < |ops.ops| {
      UndoIsAdjointTape(ops, k + 1, t);
      var tail := ops.ops[k..];
      var op := ops.ops[k];
      var rest := AdjointTape(ops.ops[k + 1..]);
      assert tail != [] && tail[0] == op && tail[1..] == ops.ops[k + 1..];
      assert AdjointTape(tail) == rest + (if IsStatePrep(op.name) then [] else [op]);
      if !IsStatePrep(op.name) {
        var a := rest + [op];
        assert a[..|a| - 1] == rest && a[|a| - 1] == op;
        assert Forward(a, true, t) == ApplyOp(op, op.inverse != true, Forward(rest, true, t));
      } else {
        assert rest + [] == rest;
      }
    } else {
      assert ops.ops[k..] == [];
    }
  }

  /** The number of parametric operations, state preparations left out, at
      tape positions below `i`. */
  function ParCountBelow(ops: OpsData, i: nat): nat
    requires i <= |ops.ops|
  {
    if i == 0 then 0
    else ParCountBelow(ops, i - 1) + (if HasParams(ops.ops[i - 1]) && !IsStatePrep(ops.ops[i - 1].name) then 1 else 0)
  }

  /** Those below `i` and those from `i` on make up all of them. */
  lemma {:induction false} ParCountSplit(ops: OpsData, i: nat)
    requires i <= |ops.ops|
    ensures ParCount(ops, 0) == ParCountBelow(ops, i) + ParCount(ops, i)
  {
    if i > 0 {
      ParCountSplit(ops, i - 1);
      ParCountStep(ops, i - 1);
    }
  }

  /** On a tape whose reported count is right, the counter value of a
      parametric operation is its index among the tape's parametric
      operations: a trainable index names the parameter in tape order. */
  lemma CounterIsParameterIndex(ops: OpsData, i: nat)
    requires i < |ops.ops| && ops.numParOps == ParCount(ops, 0)
    requires HasParams(ops.ops[i]) && !IsStatePrep(ops.ops[i].name)
    ensures ParPos(ops, i) == ParCountBelow(ops, i)
  {
    ParCountSplit(ops, i + 1);
  }

  lemma {:induction false} ParCountMonotone(ops: OpsData, a: nat, b: nat)
    requires a <= b <= |ops.ops|
    ensures ParCount(ops, a) >= ParCount(ops, b)
    decreases b - a
  {
    if a < b {
      ParCountMonotone(ops, a + 1, b);
    }
  }

  /** Lower parametric operations have lower counter values. */
  lemma ParPosIncreasing(ops: OpsData, i1: nat, i2: nat)
    requires i1 < i2 < |ops.ops|
    requires HasParams(ops.ops[i2]) && !IsStatePrep(ops.ops[i2].name)
    ensures ParPos(ops, i1) < ParPos(ops, i2)
  {
    ParCountMonotone(ops, i1 + 1, i2);
    ParCountStep(ops, i2);
  }

  /** At most one tape operation can fill a given column. */
  lemma FillerUnique(job: Job, i1: nat, i2: nat, c: nat)
    requires i1 < |job.ops.ops| && i2 < |job.ops.ops| && c < |job.tp|
    requires FillsColumn(job, i1, c) && FillsColumn(job, i2, c)
    ensures i1 == i2
  {
    if i1 < i2 {
      ParPosIncreasing(job.ops, i1, i2);
    } else if i2 < i1 {
      ParPosIncreasing(job.ops, i2, i1);
    }
  }

  // ---------------------------------------------------------------------------
  // A run on a consistent tape fills every column

  /** A tape the adjoint method supports: no operation has more than one
      parameter, every parametric operation has a registered generator, the
      reported count of parametric operations is right, and the trainable
      indices ascend strictly below that count. */
  predicate ValidTape(job: Job) {
    && (forall i | 0 <= i < |job.ops.ops| :: |job.ops.ops[i].params| <= 1)
    && (forall i | 0 <= i < |job.ops.ops| ::
          HasParams(job.ops.ops[i]) && !IsStatePrep(job.ops.ops[i].name) ==> job.ops.ops[i].name in SupportedGates)
    && job.ops.numParOps == ParCount(job.ops, 0)
    && (forall a, b | 0 <= a < b < |job.tp| :: job.tp[a] < job.tp[b])
    && (|job.tp| > 0 ==> job.tp[|job.tp| - 1] < job.ops.numParOps)
  }

  /** The trainable index under the cursor has not been passed by the counter. */
  predicate Ready(job: Job, k: nat, s: Sweep)
    requires k <= |job.ops.ops|
  {
    && Shaped(job, s)
    && s.cur == job.ops.numParOps - 1 - ParCount(job.ops, k)
    && (0 <= s.tpIdx ==> job.tp[s.tpIdx] <= s.cur)
  }

  /** A visit on a valid tape succeeds and keeps the cursor ready. */
  lemma ReadyStep(job: Job, k: nat, s: Sweep)
    requires 0 < k <= |job.ops.ops| && WiresOk(job.ops) && ValidTape(job) && Ready(job, k, s)
    requires !IsStatePrep(job.ops.ops[k - 1].name) && 0 <= s.tpIdx
    ensures Visit(job, k - 1, s).Ok? && Ready(job, k - 1, Visit(job, k - 1, s).value)
  {
    ParCountStep(job.ops, k - 1);
    VisitFacts(job, k - 1, s);
    if Matches(job, k - 1, s) && 0 < s.tpIdx {
      assert job.tp[s.tpIdx - 1] < job.tp[s.tpIdx];
    }
  }

  /** At the bottom of a valid tape the counter is below every trainable
      index, so the cursor must have reached the end of the list. */
  lemma ReadyAtBottom(job: Job, s: Sweep)
    requires ValidTape(job) && Ready(job, 0, s)
    ensures s.tpIdx == -1
  {
  }

  /** A run that ended without error once every trainable parameter was handled. */
  predicate Completed(r: Run) {
    r.outcome == Pass && r.state.tpIdx == -1
  }

  lemma {:induction false} WalkCompletes(job: Job, k: nat, s: Sweep, matched: seq<nat>)
    requires k <= |job.ops.ops| && WiresOk(job.ops) && ValidTape(job) && Ready(job, k, s)
    ensures Completed(Walk(job, k, s, matched))
    decreases k, 1
  {
    if k == 0 {
      ReadyAtBottom(job, s);
      return;
    }
    var op := job.ops.ops[k - 1];
    assert |op.params| <= 1;
    if IsStatePrep(op.name) {
      ParCountStep(job.ops, k - 1);
      WalkCompletes(job, k - 1, s, matched);
    } else if 0 <= s.tpIdx {
      VisitCompletes(job, k, s, matched);
    }
  }

  lemma {:induction false} VisitCompletes(job: Job, k: nat, s: Sweep, matched: seq<nat>)
    requires 0 < k <= |job.ops.ops| && WiresOk(job.ops) && ValidTape(job) && Ready(job, k, s)
    requires !IsStatePrep(job.ops.ops[k - 1].name) && 0 <= s.tpIdx
    ensures Completed(Walk(job, k, s, matched))
    decreases k, 0
  {
    assert |job.ops.ops[k - 1].params| <= 1;
    ReadyStep(job, k, s);
    var next := Visit(job, k - 1, s).value;
    var m := if Matches(job, k - 1, s) then matched + [k - 1] else matched;
    WalkCompletes(job, k - 1, next, m);
    assert Walk(job, k, s, matched) == Walk(job, k - 1, next, m);
  }

  /** On a valid tape the run succeeds and fills every column once: column c
      with the derivative of the parametric operation whose index among the
      tape's parametric operations is tp[c]. */
  lemma AdjointCompletes(job: Job, refData: seq<Complex>, dev: int, obs: seq<Observable>, jac0: seq<real>,
                         applyOperations: bool)
    requires Admissible(job, obs, jac0) && ValidTape(job)
    ensures var r := RunOf(job, refData, dev, obs, jac0, applyOperations);
      && r.outcome == Pass
      && r.state.tpIdx == -1
      && |r.matched| == |job.tp|
      && (forall x | 0 <= x < |r.matched| ::
            r.matched[x] < |job.ops.ops| && ParCountBelow(job.ops, r.matched[x]) == job.tp[|job.tp| - 1 - x])
  {
    var r := RunOf(job, refData, dev, obs, jac0, applyOperations);
    var init := Init(job, refData, dev, obs, jac0, applyOperations);
    assert Ready(job, |job.ops.ops|, init);
    WalkCompletes(job, |job.ops.ops|, init, []);
    assert Completed(r);
    AdjointColumns(job, refData, dev, obs, jac0, applyOperations);
    forall x | 0 <= x < |r.matched|
      ensures r.matched[x] < |job.ops.ops| && ParCountBelow(job.ops, r.matched[x]) == job.tp[|job.tp| - 1 - x]
    {
      assert FillsColumn(job, r.matched[x], |job.tp| - 1 - x);
      CounterIsParameterIndex(job.ops, r.matched[x]);
    }
  }
}
