/** The GPU state vector, treated as an opaque value.

    The simulator kernels that act on the amplitudes are not part of this
    model. A state is therefore the free term of the backend calls that
    produced it: applying a gate wraps the current term in an `Apply` node, so
    two states are equal exactly when the same calls were made in the same
    order on the same input. */
module StateVector {

  /** A complex number as a pair of reals (double-precision values are not modelled). */
  datatype Complex = Complex(re: real, im: real)

  /** The entry points of StateVectorCudaManaged that the core calls. */
  datatype Kernel =
    | Operation(name: string)      // applyOperation(name, wires, adjoint, params[, matrix])
    | OperationStd(name: string)   // applyOperation_std(name, wires, adjoint, params, matrix)
    | PauliX                       // applyPauliX(wires, adjoint)
    | PauliY
    | PauliZ
    | GeneratorIsingXX             // applyGeneratorIsingXX(wires, adjoint), and so on
    | GeneratorIsingYY
    | GeneratorIsingZZ
    | GeneratorSingleExcitation
    | GeneratorSingleExcitationMinus
    | GeneratorSingleExcitationPlus
    | GeneratorDoubleExcitation
    | GeneratorDoubleExcitationMinus
    | GeneratorDoubleExcitationPlus
    | GeneratorMultiRZ

  /** Amplitudes of a state, as the history of backend calls that made them. */
  datatype Term =
    | Host(data: seq<Complex>)     // copied from a caller's host buffer
    | Blank                        // a state built from a qubit count only
    | Zeros                        // all-zero amplitudes copied from a host buffer
    | Apply(kernel: Kernel, wires: seq<nat>, adjoint: bool, params: seq<real>,
            matrix: seq<Complex>, base: Term)
    | ScaleAdd(coeff: real, x: Term, acc: Term)   // scaleAndAddC_CUDA: acc + coeff * x

  /** The number of kernel calls made on a state since it was last loaded or
      zeroed. */
  function Calls(t: Term): nat {
    match t
    case Apply(_, _, _, _, _, base) => 1 + Calls(base)
    case _ => 0
  }

  /** A state vector: the device it lives on and its amplitudes. */
  datatype Sv = Sv(device: int, amps: Term)

  /** `sv.updateData(other)`: copy another state's amplitudes, staying on this device. */
  function UpdateData(sv: Sv, other: Sv): Sv
  {
    Sv(sv.device, other.amps)
  }
}
