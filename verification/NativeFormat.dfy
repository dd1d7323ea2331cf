/** The RPLY record that trace_to_native.py reads and the operation record that the
    generated executable replays, with the constants both sides share. */
module NativeFormat {
  const SLOT_NONE: nat := 0xFFFF_FFFF
  const U32_MAX: nat := 0xFFFF_FFFF
  const U64_MAX: nat := 0xFFFF_FFFF_FFFF_FFFF

  const FUNC_MALLOC: nat := 0
  const FUNC_FREE: nat := 1
  const FUNC_CALLOC: nat := 2
  const FUNC_REALLOC: nat := 3
  const FUNC_FREE_SIZED: nat := 4
  const FUNC_POSIX_MEMALIGN: nat := 5
  const FUNC_ALIGNED_ALLOC: nat := 6
  const FUNC_MEMALIGN: nat := 8
  const FUNC_COUNT: nat := 10

  /** One decoded trace record. `func` and `cpu` are the two halves of func_cpu. */
  datatype Record = Record(
    timestamp: nat, func: nat, cpu: nat, tid: nat,
    address: nat, result: nat, size: nat)

  datatype OpKind = OpAlloc | OpFree | OpRealloc | OpReallocNull | OpUnknownFree

  /** One compiled operation. `tid` is the thread the spool writes in front of it. */
  datatype Op = Op(
    tid: nat, targetNs: nat, size: nat, slot: nat,
    waitGeneration: nat, outputGeneration: nat, aux: nat,
    func: nat, kind: OpKind, traceSucceeded: bool)

  predicate IsAllocatorFunction(func: nat) {
    func < FUNC_COUNT
  }

  predicate IsLifecycleFunction(func: nat) {
    100 <= func <= 104
  }

  predicate IsFreeFunction(func: nat) {
    func == FUNC_FREE || func == FUNC_FREE_SIZED
  }
}
