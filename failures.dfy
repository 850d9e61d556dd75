/** Error kinds raised by the adjoint-differentiation core, and the result
    wrappers that carry them instead of C++ exceptions. */
module Failures {

  /** What went wrong; one constructor per abort or throw site of the core. */
  datatype Error =
    | InvalidArgument        // adjointJacobian: "No trainable parameters provided."
    | UnsupportedOperation   // adjointJacobian: an operation with more than one parameter
    | GeneratorNotFound      // applyGenerator: std::unordered_map::at on an unregistered name
    | ConfigurationError     // TensorProdObsGPU: overlapping wires; HamiltonianGPU: length mismatch
    | DeviceMismatch         // updateJacobian: "Data exists on different GPUs."
    | IndexOutOfRange        // batchAdjointJacobian: std::vector::at past the end

  datatype Option<+T> = None | Some(value: T)

  /** A value or the error that stopped its computation. */
  datatype Result<+T> = Ok(value: T) | Err(error: Error)

  /** Success or the error that stopped a state-changing operation. */
  datatype Outcome = Pass | Fail(error: Error)
}
