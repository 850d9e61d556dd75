/** The generator registry of AdjointJacobianGPU: for every supported
    parametric gate, the backend call that applies its generator to a state,
    and the coefficient that scales the derivative. */
module Generators {
  import opened StateVector
  import opened Failures

  /** The applyGenerator*_GPU helper functions, one per gate family. */
  datatype GeneratorFunc =
    | GenRX | GenRY | GenRZ
    | GenIsingXX | GenIsingYY | GenIsingZZ
    | GenPhaseShift
    | GenCRX | GenCRY | GenCRZ
    | GenControlledPhaseShift
    | GenSingleExcitation | GenSingleExcitationMinus | GenSingleExcitationPlus
    | GenDoubleExcitation | GenDoubleExcitationMinus | GenDoubleExcitationPlus
    | GenMultiRZ

  /** getP11_CU: the projector |1><1| as a row-major 2x2 matrix. */
  const P11: seq<Complex> := [Complex(0.0, 0.0), Complex(0.0, 0.0), Complex(0.0, 0.0), Complex(1.0, 0.0)]

  /** The controlled generators act on the target wire, `wires.back()`. */
  predicate ActsOnTarget(g: GeneratorFunc) {
    g.GenCRX? || g.GenCRY? || g.GenCRZ? || g.GenControlledPhaseShift?
  }

  /** The wires a generator acts on. */
  function TargetWires(g: GeneratorFunc, wires: seq<nat>): seq<nat>
    requires ActsOnTarget(g) ==> |wires| > 0
  {
    if ActsOnTarget(g) then [wires[|wires| - 1]] else wires
  }

  /** The backend call each generator function makes on the state `t`. */
  function GeneratorKernel(g: GeneratorFunc): Kernel {
    match g
    case GenRX => PauliX
    case GenRY => PauliY
    case GenRZ => PauliZ
    case GenIsingXX => GeneratorIsingXX
    case GenIsingYY => GeneratorIsingYY
    case GenIsingZZ => GeneratorIsingZZ
    case GenPhaseShift => Operation("P_11")
    case GenCRX => PauliX
    case GenCRY => PauliY
    case GenCRZ => PauliZ
    case GenControlledPhaseShift => Operation("P_11")
    case GenSingleExcitation => GeneratorSingleExcitation
    case GenSingleExcitationMinus => GeneratorSingleExcitationMinus
    case GenSingleExcitationPlus => GeneratorSingleExcitationPlus
    case GenDoubleExcitation => GeneratorDoubleExcitation
    case GenDoubleExcitationMinus => GeneratorDoubleExcitationMinus
    case GenDoubleExcitationPlus => GeneratorDoubleExcitationPlus
    case GenMultiRZ => GeneratorMultiRZ
  }

  /** Running a generator function on amplitudes `t` with adjoint flag `adj`:
      the phase-shift generators apply the matrix P_11 with parameter 0.0,
      all others call their kernel without parameters or matrix. */
  function ApplyGeneratorFunc(g: GeneratorFunc, t: Term, wires: seq<nat>, adj: bool): Term
    requires ActsOnTarget(g) ==> |wires| > 0
  {
    var k := GeneratorKernel(g);
    if g.GenPhaseShift? || g.GenControlledPhaseShift? then
      Apply(k, TargetWires(g, wires), adj, [0.0], P11, t)
    else
      Apply(k, TargetWires(g, wires), adj, [], [], t)
  }

  /** generator_map: one generator function per supported gate. */
  function GeneratorMap(): map<string, GeneratorFunc> {
    map[
      "RX" := GenRX,
      "RY" := GenRY,
      "RZ" := GenRZ,
      "IsingXX" := GenIsingXX,
      "IsingYY" := GenIsingYY,
      "IsingZZ" := GenIsingZZ,
      "CRX" := GenCRX,
      "CRY" := GenCRY,
      "CRZ" := GenCRZ,
      "PhaseShift" := GenPhaseShift,
      "ControlledPhaseShift" := GenControlledPhaseShift,
      "SingleExcitation" := GenSingleExcitation,
      "SingleExcitationMinus" := GenSingleExcitationMinus,
      "SingleExcitationPlus" := GenSingleExcitationPlus,
      "DoubleExcitation" := GenDoubleExcitation,
      "DoubleExcitationMinus" := GenDoubleExcitationMinus,
      "DoubleExcitationPlus" := GenDoubleExcitationPlus,
      "MultiRZ" := GenMultiRZ]
  }

  /** scaling_factors: the coefficient of each supported gate's generator. */
  function ScalingFactors(): map<string, real> {
    map[
      "RX" := -0.5,
      "RY" := -0.5,
      "RZ" := -0.5,
      "IsingXX" := -0.5,
      "IsingYY" := -0.5,
      "IsingZZ" := -0.5,
      "PhaseShift" := 1.0,
      "CRX" := -0.5,
      "CRY" := -0.5,
      "CRZ" := -0.5,
      "ControlledPhaseShift" := 1.0,
      "SingleExcitation" := -0.5,
      "SingleExcitationMinus" := -0.5,
      "SingleExcitationPlus" := -0.5,
      "DoubleExcitation" := -0.5,
      "DoubleExcitationMinus" := -0.5,
      "DoubleExcitationPlus" := -0.5,
      "MultiRZ" := -0.5]
  }

  /** The names of the supported parametric gates. */
  const SupportedGates: set<string> := {
    "RX", "RY", "RZ", "IsingXX", "IsingYY", "IsingZZ", "PhaseShift",
    "CRX", "CRY", "CRZ", "ControlledPhaseShift",
    "SingleExcitation", "SingleExcitationMinus", "SingleExcitationPlus",
    "DoubleExcitation", "DoubleExcitationMinus", "DoubleExcitationPlus", "MultiRZ"}

  /** Both tables are keyed by the same eighteen gate names. */
  lemma RegistryKeysAgree()
    ensures GeneratorMap().Keys == SupportedGates
    ensures ScalingFactors().Keys == SupportedGates
  {
  }

  /** Every coefficient is -1/2, except the two phase shifts whose is 1. */
  lemma ScalingFactorValues(name: string)
    requires name in ScalingFactors()
    ensures ScalingFactors()[name] == if name == "PhaseShift" || name == "ControlledPhaseShift" then 1.0 else -0.5
  {
  }

  /** The controlled gate families, and only they, act on their target wire. */
  lemma ControlledGeneratorsActOnTarget(name: string)
    requires name in GeneratorMap()
    ensures ActsOnTarget(GeneratorMap()[name]) <==> name in {"CRX", "CRY", "CRZ", "ControlledPhaseShift"}
  {
  }

  /** The operations whose generator can be looked up for `wires`: the
      controlled ones read `wires.back()`, so they need a wire. */
  predicate GeneratorWiresOk(name: string, wires: seq<nat>) {
    name in GeneratorMap() && ActsOnTarget(GeneratorMap()[name]) ==> |wires| > 0
  }

  /** applyGenerator: runs the generator registered for `name` on `sv` and
      returns the state and the coefficient; an unregistered name throws from
      `generator_map.at`. */
  function ApplyGenerator(sv: Sv, name: string, wires: seq<nat>, adj: bool): (r: Result<(Sv, real)>)
    requires GeneratorWiresOk(name, wires)
    ensures r.Err? <==> name !in SupportedGates
    ensures r.Err? ==> r.error == GeneratorNotFound
    ensures r.Ok? ==> r.value.0.device == sv.device
    ensures r.Ok? ==> r.value.1 == ScalingFactors()[name] && (r.value.1 == -0.5 || r.value.1 == 1.0)
    ensures r.Ok? ==> r.value.0.amps.Apply? && r.value.0.amps.base == sv.amps && r.value.0.amps.adjoint == adj
  {
    RegistryKeysAgree();
    if name !in GeneratorMap() then Err(GeneratorNotFound)
    else if name !in ScalingFactors() then Err(GeneratorNotFound)
    else
      Ok((Sv(sv.device, ApplyGeneratorFunc(GeneratorMap()[name], sv.amps, wires, adj)), ScalingFactors()[name]))
  }
}
