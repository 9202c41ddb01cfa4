module ResourceTypes {

  /** A stable cooked identity. */
  datatype Key = Key(assetId: nat, typeId: nat, variantId: nat)

  /** Process-local and generation-checked. */
  datatype Handle = Handle(slot: nat, generation: nat, typeId: nat)

  /** OutOfRange stands for a raw value past the last enumerator. */
  datatype EdgeKind = Required | Optional | Streamed | OutOfRange

  datatype Dependency = Dependency(target: Key, kind: EdgeKind)

  function Targets(deps: seq<Dependency>): (targets: seq<Key>)
    ensures |targets| == |deps| && forall i :: 0 <= i < |deps| ==> targets[i] == deps[i].target
  {
    seq(|deps|, i requires 0 <= i < |deps| => deps[i].target)
  }

  /** Kinds are ordered; a raw value past the last one is refused. */
  const KIND_COMPOSITION: nat := 9

  datatype ResourceState = Requested | Resident | Failed

  datatype Result =
    | Success
    | InvalidArgument
    | InvalidHandle
    | TypeMismatch
    | MissingChunk
    | DependencyMissing
    | DependencyCycle
    | OutOfBudget
    | InvalidFormat
    | StaleRevision
    | JournalOverflow
    | OperationFailed

  const UINT32_MAX: nat := 0xFFFF_FFFF
  const UINT64_MAX: nat := 0xFFFF_FFFF_FFFF_FFFF

  /** Generations and traversal stamps skip zero when they wrap. */
  function NextGeneration(n: nat): (r: nat)
    ensures r != 0
    ensures n <= UINT32_MAX ==> r <= UINT32_MAX && r != n
  {
    if n == UINT32_MAX then 1 else n + 1
  }
}
