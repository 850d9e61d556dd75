# Adjoint differentiation and gate cache of pennylane-lightning-gpu, in Dafny

This project models the bookkeeping of two parts of pennylane-lightning-gpu.

- `AdjointJacobianGPU` (AdjointDiffGPU.hpp) computes the Jacobian of a set of
  observables with respect to the trainable gate parameters of a circuit tape.
  It uses the adjoint method of arXiv:2009.02823: one reverse walk over the tape
  keeps a state lambda, a scratch state mu and one bra H_lambda[i] per observable.
  It undoes one operation at a time and writes one Jacobian column whenever it
  meets a trainable parametric gate.
- `GateCache` (cuGateCache.hpp) is the table of gate matrices kept on the host and
  on the GPU, keyed by gate name and parameter, with a counter of allocated bytes.

The GPU state vector is an opaque value. Every backend call (applying a gate, a
generator or a matrix, the scale-and-add of a Hamiltonian) builds a free term
(`StateVector.Term`) over the input amplitudes. Two states are therefore equal
exactly when they received the same calls in the same order. A state also
carries its device id. The imaginary part of the inner product is a function
parameter `im`.

Modules, one per concept of the source:

| file | module | models |
|---|---|---|
| failures.dfy | `Failures` | the aborts (`PL_ABORT`, `.at` throwing) as `Outcome`/`Result` error values |
| state_vector.dfy | `StateVector` | state vectors as device id plus symbolic amplitudes |
| observables.dfy | `Observables` | `NamedObsGPU`, `HermitianObsGPU`, `TensorProdObsGPU`, `HamiltonianGPU`: equality, construction checks, `getWires`, `applyInPlace` |
| generators.dfy | `Generators` | `generator_map`, `scaling_factors`, the `applyGenerator*_GPU` helpers and `applyGenerator` |
| adjoint_ops.dfy | `AdjointOps` | the tape, `applyOperations`, `applyOperationAdj`, `applyOperationsAdj`, `applyObservables`, `getJacIndex`, `updateJacobian` |
| adjoint.dfy | `Adjoint` | `adjointJacobian`: the reverse walk as a specification function `Walk` and as the imperative loop proved equal to it |
| adjoint_proofs.dfy | `AdjointProofs` | what the walk computes, in closed form: lockstep undo, counter, column order, Jacobian entries, errors, completion |
| batch.dfy | `Batch` | the shard bounds of `batchAdjointJacobian` and its loop that merges the shard Jacobians back |
| gate_cache.dfy | `Cache` | `GateCache` as a class with a host map, a device map of buffer sizes and a byte counter |

The module `Adjoint` defines the engine's meaning one step at a time. `Visit` is
one visited operation. `Walk` is the loop from a tape position down. The method
`AdjointJacobian` keeps the source's cursors (`tp_it`, `trainableParamNumber`,
`current_param_idx`) and updates `jac` and `H_lambda` in place. It is proved to
return `Walk`'s outcome and leave `Walk`'s Jacobian. `AdjointProofs` proves an
invariant of `Walk` and reads the theorems off it. `Deriv(job, i, o, ...)` is
the derivative value: -2 c Im<H_o undone down to i | G_i lambda undone down to i>.

## Model

| member | source | states |
|---|---|---|
| Observables.SortedUnique | pennylane_lightning_gpu/src/algorithms/AdjointDiffGPU.hpp:338-339 | the wire set copied out of an unordered set and sorted: strictly ascending, and exactly the elements of the input |
| Observables.MakeTensorProd | pennylane_lightning_gpu/src/algorithms/AdjointDiffGPU.hpp:326-340 | the constructor fails (ConfigurationError) if and only if some wire occurs twice among the members' wires; otherwise it keeps the members, stores their wires sorted and duplicate-free, and the result is well formed when the members are |
| Observables.NewTensorProd | pennylane_lightning_gpu/src/algorithms/AdjointDiffGPU.hpp:326-340 | the constructor's nested loop over members and wires, with its running set of seen wires, returns exactly `MakeTensorProd` |
| Observables.MakeHamiltonian | pennylane_lightning_gpu/src/algorithms/AdjointDiffGPU.hpp:436-440 | construction succeeds if and only if there are as many coefficients as terms, and then builds that Hamiltonian, well formed when its terms are |
| Observables.GetWiresSortedUnion | pennylane_lightning_gpu/src/algorithms/AdjointDiffGPU.hpp:476-486 | `getWires` of a well-formed tensor product (the wires its constructor stored, lines 326-340) or of a Hamiltonian is strictly sorted (so duplicate-free) and holds exactly the union of its members' wires |
| Observables.GetWires | pennylane_lightning_gpu/src/algorithms/AdjointDiffGPU.hpp:476-486 | `getWires`: a named or Hermitian observable's own wires (lines 239-241 and 281-283); for a Hamiltonian the strictly sorted, duplicate-free union of its terms' wires, from the set copied into a vector and sorted |
| Observables.Equal | pennylane_lightning_gpu/src/algorithms/AdjointDiffGPU.hpp:189-190 | `operator==` is reflexive; it holds only between observables of the same variant (the `typeid` test); on named and Hermitian observables it is exactly equality of name, wires and parameters, or of matrix and wires |
| Observables.EqualIsStructural | pennylane_lightning_gpu/src/algorithms/AdjointDiffGPU.hpp:186-198 | `operator==` (same variant, then `isEqual`: names, wires, params; matrix, wires; sizes then members in order; coefficients then terms in order) holds exactly when the two observables are identical |
| Observables.NotEqual | pennylane_lightning_gpu/src/algorithms/AdjointDiffGPU.hpp:193-198 | `operator!=` holds exactly when the observables differ |
| Observables.ApplyObs | pennylane_lightning_gpu/src/algorithms/AdjointDiffGPU.hpp:243-245 | `applyInPlace` of a named observable (and of a Hermitian one, lines 289-292) is one non-adjoint kernel call on the observable's wires on the given state; an empty tensor product (lines 380-384) leaves the state as it is; a Hamiltonian with no terms (lines 461-474) leaves the zero accumulator |
| Observables.ApplyEachAppend | pennylane_lightning_gpu/src/algorithms/AdjointDiffGPU.hpp:380-384 | a tensor product applies its members strictly in order: the product of `a + b` acts as that of `a` followed by that of `b` |
| Observables.HamiltonianIsLinearCombination | pennylane_lightning_gpu/src/algorithms/AdjointDiffGPU.hpp:461-474 | applying a Hamiltonian yields the sum, from a zero accumulator and in term order, of c_i times term i applied to an unmodified copy of the input |
| Observables.AccumulateSummands | pennylane_lightning_gpu/src/algorithms/AdjointDiffGPU.hpp:465-472 | after `n` iterations of the accumulation loop the accumulator holds exactly the first `n` weighted summands |
| Observables.ApplyInPlace | pennylane_lightning_gpu/src/algorithms/AdjointDiffGPU.hpp:461-474 | `applyInPlace` of all four variants, with the tensor product's member loop and the Hamiltonian's accumulation loop, gives the state on the same device with `ApplyObs` applied |
| Generators.GeneratorMap | pennylane_lightning_gpu/src/algorithms/AdjointDiffGPU.hpp:520-551 | `generator_map`, the table from the eighteen supported gate names to their generator functions; its keys are stated by `RegistryKeysAgree` and its controlled entries by `ControlledGeneratorsActOnTarget` |
| Generators.ScalingFactors | pennylane_lightning_gpu/src/algorithms/AdjointDiffGPU.hpp:554-572 | `scaling_factors`, the table from the same eighteen names to their coefficients; its keys are stated by `RegistryKeysAgree` and its values by `ScalingFactorValues` |
| Generators.RegistryKeysAgree | pennylane_lightning_gpu/src/algorithms/AdjointDiffGPU.hpp:520-572 | `generator_map` and `scaling_factors` have the same eighteen keys |
| Generators.ScalingFactorValues | pennylane_lightning_gpu/src/algorithms/AdjointDiffGPU.hpp:554-572 | every scaling coefficient is -1/2 except PhaseShift and ControlledPhaseShift, whose coefficient is 1 |
| Generators.ControlledGeneratorsActOnTarget | pennylane_lightning_gpu/src/algorithms/AdjointDiffGPU.hpp:66-90 | exactly the generators of CRX, CRY, CRZ and ControlledPhaseShift act on the target wire `wires.back()` alone |
| Generators.ApplyGenerator | pennylane_lightning_gpu/src/algorithms/AdjointDiffGPU.hpp:779-785 | fails (GeneratorNotFound) if and only if the name is not registered; otherwise it applies that gate's generator with the given adjoint flag to the state, on the same device, and returns that gate's coefficient, -1/2 or 1 |
| AdjointOps.Forward | pennylane_lightning_gpu/src/algorithms/AdjointDiffGPU.hpp:611-622 | the tape applied to a state: one kernel call per operation, none skipped or added, the last operation of the tape applied last |
| AdjointOps.ApplyOperations | pennylane_lightning_gpu/src/algorithms/AdjointDiffGPU.hpp:611-622 | the loop applies every operation of the tape, first to last, with flag `inverse XOR adj`, giving `Forward` |
| AdjointOps.ForwardAppend | pennylane_lightning_gpu/src/algorithms/AdjointDiffGPU.hpp:615-621 | applying a concatenated tape is applying one part after the other |
| AdjointOps.ForwardFirst | pennylane_lightning_gpu/src/algorithms/AdjointDiffGPU.hpp:615-621 | the first operation of the tape is the first one applied |
| AdjointOps.ApplyOperationAdj | pennylane_lightning_gpu/src/algorithms/AdjointDiffGPU.hpp:633-641 | one kernel call on the same device, with operation `op_idx`'s wires and parameters and its inverse flag negated, applied to the given state |
| AdjointOps.UndoIsAdjointForward | pennylane_lightning_gpu/src/algorithms/AdjointDiffGPU.hpp:633-641 | `applyOperationAdj` is the operation applied with its inverse flag negated, that is the one-operation tape applied with `adj` set |
| AdjointOps.UndoAll | pennylane_lightning_gpu/src/algorithms/AdjointDiffGPU.hpp:715-754 | undoing an operation on every state keeps the number of states and each state's device |
| AdjointOps.ApplyOperationsAdj | pennylane_lightning_gpu/src/algorithms/AdjointDiffGPU.hpp:715-754 | every state of the vector, and nothing else, has the same operation undone |
| AdjointOps.ApplyObservables | pennylane_lightning_gpu/src/algorithms/AdjointDiffGPU.hpp:664-704 | state i becomes, on its own device, observable i applied to the reference amplitudes; states past the last observable are unchanged |
| AdjointOps.JacIndex | pennylane_lightning_gpu/src/algorithms/AdjointDiffGPU.hpp:764-767 | `getJacIndex`: entry (obs_index, tp_index) lies inside row obs_index's block of tp_size consecutive entries |
| AdjointOps.JacIndexInverse | pennylane_lightning_gpu/src/algorithms/AdjointDiffGPU.hpp:764-767 | the flat index gives back its row by division and its column by remainder, and stays below rows * tp_size |
| AdjointOps.JacIndexInjective | pennylane_lightning_gpu/src/algorithms/AdjointDiffGPU.hpp:764-767 | two (row, column) pairs with columns below tp_size have the same flat index only if they are equal |
| AdjointOps.JacIndexOnto | pennylane_lightning_gpu/src/algorithms/AdjointDiffGPU.hpp:764-767 | every flat position is the index of its own row and column |
| AdjointOps.UpdateJacobian | pennylane_lightning_gpu/src/algorithms/AdjointDiffGPU.hpp:585-600 | aborts (DeviceMismatch) with `jac` unchanged if and only if the states are on different devices; otherwise it changes exactly entry `getJacIndex(obs, param)`, to -2 c Im<sv1\|sv2> |
| Adjoint.Visit | pennylane_lightning_gpu/src/algorithms/AdjointDiffGPU.hpp:977-1009 | one visited operation keeps the loop's shape: column number equal to the cursor position, a row of `jac` per bra, the number of bras |
| Adjoint.Walk | pennylane_lightning_gpu/src/algorithms/AdjointDiffGPU.hpp:965-1010 | the reverse loop stops at a tape position no greater than the one it started from (it only moves towards the start of the tape), and keeps the loop's shape: a row of `jac` per bra and as many bras as it began with |
| Adjoint.WalkRejects | pennylane_lightning_gpu/src/algorithms/AdjointDiffGPU.hpp:967-969 | an operation with more than one parameter aborts the walk before any other check (UnsupportedOperation) |
| Adjoint.WalkSkips | pennylane_lightning_gpu/src/algorithms/AdjointDiffGPU.hpp:970-973 | a QubitStateVector or BasisState operation is passed over with every state, cursor and counter unchanged |
| Adjoint.WalkStops | pennylane_lightning_gpu/src/algorithms/AdjointDiffGPU.hpp:974-976 | once the cursor has passed the first trainable parameter the walk stops without error |
| Adjoint.WalkVisits | pennylane_lightning_gpu/src/algorithms/AdjointDiffGPU.hpp:977-1009 | any other operation is visited and the walk goes on below it, recording it if it matched |
| Adjoint.WalkFails | pennylane_lightning_gpu/src/algorithms/AdjointDiffGPU.hpp:981-986 | a failing generator lookup aborts the walk with that error, before this operation has written anything to `jac` |
| Adjoint.AdjointJacobian | pennylane_lightning_gpu/src/algorithms/AdjointDiffGPU.hpp:924-1011 | an empty trainable list aborts (InvalidArgument) before anything is built, with `jac` unchanged; otherwise lambda (with the tape applied if requested), the H_lambda states and mu are set up and the reverse loop returns `Walk`'s outcome and leaves `Walk`'s Jacobian |
| Adjoint.ReverseWalk | pennylane_lightning_gpu/src/algorithms/AdjointDiffGPU.hpp:965-1010 | the reverse `for` loop with its `continue`, `break` and aborts returns `Walk`'s outcome and leaves `Walk`'s Jacobian |
| Adjoint.VisitOperation | pennylane_lightning_gpu/src/algorithms/AdjointDiffGPU.hpp:977-1009 | the loop body for one visited operation computes `Visit`: states, cursors and Jacobian on success, the error otherwise; every state stays on its device |
| Adjoint.UpdateColumn | pennylane_lightning_gpu/src/algorithms/AdjointDiffGPU.hpp:998-1003 | the loop over the observables writes column `trainableParamNumber` of every row from its bra and mu, and changes no other entry |
| AdjointProofs.InitInv | pennylane_lightning_gpu/src/algorithms/AdjointDiffGPU.hpp:930-963 | the state before the loop satisfies the walk's invariant |
| AdjointProofs.WalkKeepsInv | pennylane_lightning_gpu/src/algorithms/AdjointDiffGPU.hpp:965-1010 | from any state satisfying the invariant, however the walk ends, it ends with the invariant and the stopping conditions established |
| AdjointProofs.AdjointLockstep | pennylane_lightning_gpu/src/algorithms/AdjointDiffGPU.hpp:977-1009 | wherever the walk stops, lambda and every H_lambda[i] have received exactly the same undo sequence: the tape above the stopping point, last operation first, state preparations left out |
| AdjointProofs.UndoIsAdjointTape | pennylane_lightning_gpu/src/algorithms/AdjointDiffGPU.hpp:965-1009 | that undo sequence is `applyOperations` with `adj` set on the tape reversed, state preparations removed |
| AdjointProofs.AdjointCounter | pennylane_lightning_gpu/src/algorithms/AdjointDiffGPU.hpp:940-1007 | the counter starts at num_param_ops - 1 and has gone down exactly once per parametric operation above the stopping point, matched or not, state preparations not counted |
| AdjointProofs.ParCountSplit | pennylane_lightning_gpu/src/algorithms/AdjointDiffGPU.hpp:980-1007 | the parametric operations of the tape are those below a position plus those from it up |
| AdjointProofs.CounterIsParameterIndex | pennylane_lightning_gpu/src/algorithms/AdjointDiffGPU.hpp:940-942 | when the tape reports its parametric count correctly, the counter at a parametric operation is that operation's index among the tape's parametric operations |
| AdjointProofs.ParCountMonotone | pennylane_lightning_gpu/src/algorithms/AdjointDiffGPU.hpp:980-1007 | the counter never goes up as the walk goes down |
| AdjointProofs.ParPosIncreasing | pennylane_lightning_gpu/src/algorithms/AdjointDiffGPU.hpp:980-1007 | the counter is strictly lower at any operation below a parametric one |
| AdjointProofs.FillerUnique | pennylane_lightning_gpu/src/algorithms/AdjointDiffGPU.hpp:981-1005 | at most one tape operation can fill a given column |
| AdjointProofs.AdjointColumns | pennylane_lightning_gpu/src/algorithms/AdjointDiffGPU.hpp:981-1005 | the walk differentiates operations from the top of the tape down and fills columns from the last one down, one per operation, each once; the operation filling column c is a registered one-parameter gate whose counter value is tp[c]; column number and cursor agree throughout |
| AdjointProofs.AdjointJacobianEntries | pennylane_lightning_gpu/src/algorithms/AdjointDiffGPU.hpp:981-1005 | entry (o, c) of a filled column holds the derivative of observable o with respect to the operation that filled c; every other entry, unfilled columns and positions past the last row alike, keeps its value; this holds after an abort too |
| AdjointProofs.AdjointErrors | pennylane_lightning_gpu/src/algorithms/AdjointDiffGPU.hpp:965-986 | the walk aborts only at an operation with more than one parameter, or at a matched operation whose name has no generator; every operation above the stopping point passed the parameter check; a walk that stops early without error has handled every trainable parameter |
| AdjointProofs.WalkCompletes | pennylane_lightning_gpu/src/algorithms/AdjointDiffGPU.hpp:965-1010 | on a consistent tape, from any state whose trainable index has not been passed by the counter, the walk ends without error with every parameter handled |
| AdjointProofs.AdjointCompletes | pennylane_lightning_gpu/src/algorithms/AdjointDiffGPU.hpp:924-1011 | on a consistent tape (at most one parameter per operation, registered generators, a correct parametric count, trainable indices ascending below it) the run succeeds and fills every column once, column c from the parametric operation with index tp[c] |
| Batch.ShardFirst | pennylane_lightning_gpu/src/algorithms/AdjointDiffGPU.hpp:849-851 | `first`: shard 0 starts at observable 0, no shard up to `num_chunks` starts past n, and shard `num_chunks` would start exactly at n |
| Batch.ShardLast | pennylane_lightning_gpu/src/algorithms/AdjointDiffGPU.hpp:852-853 | `last`: the observable just before the next shard starts, at least -1 and below n for every shard (the wrap-around case is under Left out) |
| Batch.BlockSize | pennylane_lightning_gpu/src/algorithms/AdjointDiffGPU.hpp:872-873 | the size of `jac_local`, `(last - first + 1) * tp_size`: `tp_size` entries for each observable from this shard's start to the next one's, never negative |
| Batch.ShardEnds | pennylane_lightning_gpu/src/algorithms/AdjointDiffGPU.hpp:849-853 | the first shard starts at observable 0 and the last one ends at observable n - 1 |
| Batch.ShardNonEmpty | pennylane_lightning_gpu/src/algorithms/AdjointDiffGPU.hpp:849-853 | with at least as many observables as chunks every shard is non-empty |
| Batch.ShardContiguous | pennylane_lightning_gpu/src/algorithms/AdjointDiffGPU.hpp:849-853 | each shard ends just before the next one starts |
| Batch.ShardFirstMonotone | pennylane_lightning_gpu/src/algorithms/AdjointDiffGPU.hpp:849-851 | shard starts never decrease |
| Batch.ShardsDisjoint | pennylane_lightning_gpu/src/algorithms/AdjointDiffGPU.hpp:849-853 | an earlier shard ends before a later one starts |
| Batch.ShardInRange | pennylane_lightning_gpu/src/algorithms/AdjointDiffGPU.hpp:849-853 | every shard's slice `[first, last + 1)` lies inside [0, n) and its size is never negative; with fewer observables than chunks a shard can be empty, either when two consecutive starts coincide above 0 or when `n * (i + 1) < k`, where the model's `last` is `first - 1` (see Left out) |
| Batch.ShardOf | pennylane_lightning_gpu/src/algorithms/AdjointDiffGPU.hpp:849-853 | every observable belongs to some shard |
| Batch.FlattenLength | pennylane_lightning_gpu/src/algorithms/AdjointDiffGPU.hpp:872-873 | blocks of (last - first + 1) * tp_size entries add up to first * tp_size before each shard |
| Batch.CopyBlock | pennylane_lightning_gpu/src/algorithms/AdjointDiffGPU.hpp:891-893 | `jac.at(off + j)` for each entry of a block: throws (IndexOutOfRange) exactly when the block does not fit; the entries copied before the throw stay copied |
| Batch.MergeSpec | pennylane_lightning_gpu/src/algorithms/AdjointDiffGPU.hpp:886-894 | the copy loop's result on the first `m` blocks: the Jacobian keeps its length whatever the blocks, and a throw ends the loop (see `MergeStopsAtFailure`) |
| Batch.MergeShards | pennylane_lightning_gpu/src/algorithms/AdjointDiffGPU.hpp:886-894 | the merge loop over the shards, in order, with block offset `first * stride`, leaves exactly `MergeSpec` |
| Batch.MergeStopsAtFailure | pennylane_lightning_gpu/src/algorithms/AdjointDiffGPU.hpp:886-894 | once a block throws, no later shard is merged |
| Batch.MergeAsWritten | pennylane_lightning_gpu/src/algorithms/AdjointDiffGPU.hpp:886-894 | the merge as written, with offset `first` |
| Batch.AsWrittenMisplaces | pennylane_lightning_gpu/src/algorithms/AdjointDiffGPU.hpp:886-893 | with two observables, two shards and two trainable parameters the merge as written leaves [1, 3, 4, 0] where the row-major Jacobian is [1, 2, 3, 4] |
| Batch.AsWrittenAgreesWhen | pennylane_lightning_gpu/src/algorithms/AdjointDiffGPU.hpp:886-893 | with one chunk or one trainable parameter the merge as written and the row-major merge agree |
| Batch.MergeRowMajor | pennylane_lightning_gpu/src/algorithms/AdjointDiffGPU.hpp:886-894 | the corrected merge, with offset `first * tp_size` |
| Batch.RowMajorMerge | pennylane_lightning_gpu/src/algorithms/AdjointDiffGPU.hpp:872-893 | the corrected merge of shard blocks of the right sizes into a Jacobian of n * tp_size entries succeeds and leaves the blocks concatenated in shard order |
| Batch.RowMajorPlacement | pennylane_lightning_gpu/src/algorithms/AdjointDiffGPU.hpp:886-893 | after the corrected merge, entry (x, c) of the Jacobian is entry (x - first, c) of the block of the shard containing observable x |
| Cache.ComplexBytes | pennylane_lightning_gpu/src/simulator/cuGateCache.hpp:33 | `sizeof(CFP_t)`, the bytes counted per complex entry, is 8 or 16 |
| Cache.DefaultGates | pennylane_lightning_gpu/src/simulator/cuGateCache.hpp:53-96 | the matrices `defaultPopulateCache` stores: every key has parameter 0.0 and every matrix 4 or 16 entries |
| Cache.DefaultGateKeys | pennylane_lightning_gpu/src/simulator/cuGateCache.hpp:53-96 | the default gate set has exactly the twelve keys Identity, PauliX, PauliY, PauliZ, Hadamard, S, T, SWAP, CNOT, Toffoli, CZ and CSWAP, all at parameter 0.0 |
| Cache.DefaultGateSizes | pennylane_lightning_gpu/src/simulator/cuGateCache.hpp:53-96 | SWAP and CSWAP have 16 entries, every other default gate 4 |
| Cache.DefaultGateAliases | pennylane_lightning_gpu/src/simulator/cuGateCache.hpp:86-96 | CSWAP holds SWAP's data; CNOT and Toffoli hold PauliX's and CZ holds PauliZ's single-qubit target part |
| Cache.DefaultGateTotal | pennylane_lightning_gpu/src/simulator/cuGateCache.hpp:97-103 | the default gates hold 72 complex entries in all |
| Cache.GateCache.DeviceMatchesHost | pennylane_lightning_gpu/src/simulator/cuGateCache.hpp:146-147 | in a consistent cache every device buffer has the size of the host data under the same key |
| Cache.GateCache.constructor | pennylane_lightning_gpu/src/simulator/cuGateCache.hpp:37-42 | without `populate` both tables are empty and no byte is counted; with it the cache holds the twelve default gates with matching device buffers and 72 * sizeof(CFP_t) bytes counted |
| Cache.GateCache.DefaultPopulateCache | pennylane_lightning_gpu/src/simulator/cuGateCache.hpp:52-104 | the default gates are added to the host table; then every host key, old or new, gets a device buffer of its size and no other key gets one, and the counter grows by the bytes of all host entries |
| Cache.GateCache.GateExists | pennylane_lightning_gpu/src/simulator/cuGateCache.hpp:113-116 | true exactly when the key is in both tables |
| Cache.GateCache.GateExistsNamed | pennylane_lightning_gpu/src/simulator/cuGateCache.hpp:125-130 | the (name, param) overload: true exactly when the pair is in both tables, as the pair overload answers |
| Cache.GateCache.AddGate | pennylane_lightning_gpu/src/simulator/cuGateCache.hpp:140-149 | the key's host data becomes the given data and its device buffer that size; the counter grows by its bytes even when the key was present; the gate then exists and no other key's existence changes |
| Cache.GateCache.AddGateById | pennylane_lightning_gpu/src/simulator/cuGateCache.hpp:157-164 | the pair overload of `add_gate`, with the same effect |
| Cache.GateCache.GetGateDevicePtr | pennylane_lightning_gpu/src/simulator/cuGateCache.hpp:174-176 | returns the size of the key's device buffer; a missing key gets an empty buffer in the device table only, so an unknown gate still does not exist afterwards |
| Cache.GateCache.GetGateDevicePtrById | pennylane_lightning_gpu/src/simulator/cuGateCache.hpp:177-179 | the pair overload, with the same effect |
| Cache.GateCache.GetGateHost | pennylane_lightning_gpu/src/simulator/cuGateCache.hpp:180-182 | returns the key's host data; a missing key gets empty data in the host table only, and the gate exists afterwards only if it has a device buffer |
| Cache.GateCache.GetGateHostById | pennylane_lightning_gpu/src/simulator/cuGateCache.hpp:183-185 | the pair overload, with the same effect; an unknown gate still does not exist afterwards |

## Left out

- The numerics of the simulator are not modelled. This covers gate kernels, generator kernels, `innerProdC_CUDA`, `scaleAndAddC_CUDA` and `CopyHostDataToGpu`. They are free terms over the input state, and the inner product is the parameter `im`.
- Floating point is not modelled: values are reals. The gate matrices are exact reals, with 1/sqrt 2 written as a 20-digit decimal, since Dafny has no square root. `std::ceil` is the identity in the shard bounds, because it acts on an integer quotient, except in the wrap-around case that `Batch.ShardLast` describes.
- Concurrency is not modelled: `std::thread`, promises and futures, `DevicePool`, `omp_set_num_threads` and the OpenMP pragmas. The per-observable loops are sequential. The first exception aborts the whole call.
- `DevTag`, CUDA streams and `DataBuffer` allocation are not modelled. Only the device id of a state and the size of a device buffer are kept.
- `batchAdjointJacobian` itself is not modelled, since its body is the threaded driver. Its shard bounds, block sizes and merge loop are modelled.
- The internals of `OpsData` (JacobianTape.hpp) are not part of this model. The tape is a sequence of operations plus its reported parametric count. `hasParams` is read as "the parameter list is non-empty". The operation matrices are unused by the modelled calls and are left out.
- `createOpsData` and the `create` wrappers are trivial constructors and are left out.
- `getObsName` is left out. Its text depends on `Pennylane::Util::operator<<`, which is not part of this model.
- Adjoint.AdjointJacobian: `current_param_idx` is a `size_t` in the source. The model keeps it as an unbounded integer. The source's counter wraps below 0 when `num_param_ops` is 0 (line 942), or when the tape reports fewer parametric operations than the walk meets. The model's counter then goes negative, where the source's holds a value just below `SIZE_MAX`. The two agree unless a caller passes a trainable index within the number of parametric operations of `SIZE_MAX`, so the model needs no precondition on the parametric count.
- The closed-form theorems (under `AdjointProofs.ValidTape`) assume the reported parametric count excludes `QubitStateVector` and `BasisState`, counting only the operations the walk decrements the counter for. How `OpsData` computes that count is in JacobianTape.hpp, which is not part of this model.
- Batch.ShardLast: when `n * (i + 1) < k` the source computes `n * (i + 1) / k - 1` in `size_t`, which wraps to `SIZE_MAX`. `std::ceil` of that as a double is 2^64, and casting it back to `size_t` is undefined behaviour (lines 852-853). The model takes `last = first - 1` there, an empty shard whose block has `(last - first + 1) * tp_size = 0` entries. That matches what the source computes if the cast yields `SIZE_MAX`.
- Adjoint.AdjointJacobian: the model requires that every controlled gate (CRX, CRY, CRZ, ControlledPhaseShift) names at least one wire (`WiresOk`). On an empty wire list the source's `wires.back()` is undefined behaviour, which has no faithful value to model.
- The model counts from the product of the observable count and the trainable count, with unbounded integers. `size_t` overflow of `obs.size() * i`, of `obs_index * tp_size` and of `total_alloc_bytes_` is not modelled.
- Cache.GateCache.DefaultPopulateCache: the twelve `host_gates_[...] =` assignments are one map update with `DefaultGates()`. CSWAP copying SWAP is the fact `DefaultGateAliases`. The loop over `host_gates_` visits keys in an unspecified order, and the model states only its order-independent result.
- Cache.GateCache.GetGateDevicePtr: this method returns the size of the device buffer, not a device pointer. A default-constructed `DataBuffer` is taken to have size 0.

## Findings

| source | as written | input that shows it | evidently intended | confidence | as-written member | corrected member |
|---|---|---|---|---|---|---|
| pennylane_lightning_gpu/src/algorithms/AdjointDiffGPU.hpp:886-893 | the merge copies shard i's block to `jac.at(first + j)`. The block is row-major with `tp_size` entries per observable, and `first` is its first observable. | 2 observables, 2 devices (chunks), 2 trainable parameters, shard blocks [1, 2] and [3, 4]. The merge leaves [1, 3, 4, 0]. | The row-major Jacobian [1, 2, 3, 4], with offset `first * tp_size`. | not executed | Batch.MergeAsWritten, Batch.AsWrittenMisplaces | Batch.MergeRowMajor, Batch.RowMajorMerge, Batch.RowMajorPlacement |
