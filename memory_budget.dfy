/**
 * The memory advisory `CheckMem` of src/hnsw/utils.c: before a batch of
 * insertions, warn when the memory already allocated plus the projected size
 * of the new graph nodes exceeds the budget `limit` (in kibibytes).
 *
 * The floating-point layer estimate `(int)round(1 / log(M) + 1)` and the
 * engine's `usearch_metadata` are abstracted into `NodeSizing`, and the
 * engine's node-size formula `UsearchNodeBytes` is the parameter
 * `nodeBytes`. The host's allocation accounting is the input `pgMem`.
 * The C integer widths are written out: `node_size` and `n_nodes` are
 * `uint32` and so is their product, `pg_mem` is a 64-bit `Size`, and
 * `(uint32)limit * 1024UL` is an unsigned 64-bit product.
 */
module MemoryBudget {
  import opened Optional

  const U32: nat := 0x1_0000_0000
  const U64: nat := 0x1_0000_0000_0000_0000
  const Kib: nat := 1024
  /** `sizeof(float)`, the element size the node estimate assumes. */
  const FloatSize: nat := 4

  /** What `CheckMem` learns from a non-NULL index: the engine's dimensions and the rounded layer count. */
  datatype NodeSizing = NodeSizing(dimensions: nat, layers: int)

  /**
   * `node_size`: zero without an index, otherwise the engine's size of one
   * node, stored into a `uint32`.
   */
  function NodeSize(index: Option<NodeSizing>, nodeBytes: (nat, int) -> nat): (size: nat)
    ensures size < U32
    ensures index.None? ==> size == 0
    ensures index.Some? && nodeBytes(index.value.dimensions * FloatSize, index.value.layers) < U32
            ==> size == nodeBytes(index.value.dimensions * FloatSize, index.value.layers)
  {
    match index
    case None => 0
    case Some(sizing) => nodeBytes(sizing.dimensions * FloatSize, sizing.layers) % U32
  }

  /** `pg_mem + node_size * n_nodes`: a `uint32` product added to a 64-bit size. */
  function Projected(pgMem: nat, nodeSize: nat, nNodes: nat): (bytes: nat)
    ensures bytes < U64
    ensures pgMem < U64 - U32 ==> pgMem <= bytes < pgMem + U32
  {
    (pgMem + (nodeSize * nNodes) % U32) % U64
  }

  /** `(uint32)limit * 1024UL`. */
  function Budget(limit: int): (bytes: nat)
    ensures bytes < U32 * Kib && bytes % Kib == 0
    ensures 0 <= limit < U32 ==> bytes == limit * Kib
    ensures -0x1_0000_0000 <= limit < 0 ==> bytes == (limit + U32) * Kib
  {
    (limit % U32) * Kib
  }

  /**
   * The decision of `CheckMem`: the warning it emits, carrying the caller's
   * message, or nothing. There is no error outcome: the advisory never aborts.
   */
  function CheckMem(limit: int, index: Option<NodeSizing>, nodeBytes: (nat, int) -> nat,
                    nNodes: nat, pgMem: nat, msg: string): (warning: Option<string>)
    ensures warning.Some? ==> warning.value == msg
  {
    if Projected(pgMem, NodeSize(index, nodeBytes), nNodes) > Budget(limit) then Some(msg) else None
  }

  /**
   * For a non-negative budget and an allocation total that leaves room for a
   * `uint32` (so the 64-bit sum does not wrap), `CheckMem` warns exactly when
   * the allocated memory plus the 32-bit product of node size and node count
   * exceeds `limit` KiB.
   */
  lemma CheckMemThreshold(limit: int, index: Option<NodeSizing>, nodeBytes: (nat, int) -> nat,
                          nNodes: nat, pgMem: nat, msg: string)
    requires 0 <= limit < 0x8000_0000
    requires pgMem < U64 - U32
    ensures CheckMem(limit, index, nodeBytes, nNodes, pgMem, msg).Some?
        <==> pgMem + (NodeSize(index, nodeBytes) * nNodes) % U32 > limit * Kib
  {
  }

  /** Without an index only the memory already allocated is weighed against the budget. */
  lemma NoIndexWeighsAllocatedOnly(limit: int, nodeBytes: (nat, int) -> nat, nNodes: nat, pgMem: nat, msg: string)
    requires 0 <= limit < 0x8000_0000
    requires pgMem < U64
    ensures CheckMem(limit, None, nodeBytes, nNodes, pgMem, msg).Some? <==> pgMem > limit * Kib
  {
  }

  /**
   * As written, the `uint32` product wraps: a batch of 65536 nodes of 64 KiB
   * each (4 GiB) projects to nothing, so a 1 KiB budget raises no warning,
   * while a single such node does raise it. More nodes can mean fewer warnings.
   */
  lemma WrappedProductMissesWarning()
    ensures var index := Some(NodeSizing(16384, 1));
            var nodeBytes := (vectorBytes: nat, layers: int) => 0x1_0000;
            && NodeSize(index, nodeBytes) == 0x1_0000
            && CheckMem(1, index, nodeBytes, 1, 0, "limit").Some?
            && CheckMem(1, index, nodeBytes, 0x1_0000, 0, "limit").None?
  {
    var index := Some(NodeSizing(16384, 1));
    var nodeBytes := (vectorBytes: nat, layers: int) => 0x1_0000;
    assert NodeSize(index, nodeBytes) == 0x1_0000;
    assert (0x1_0000 * 0x1_0000) % U32 == 0;
  }

  /** The projection the advisory evidently intends: the product of node size and count is not truncated. */
  function IntendedProjected(pgMem: nat, nodeSize: nat, nNodes: nat): nat
  {
    pgMem + nodeSize * nNodes
  }

  /** `CheckMem` with the projection computed without the 32-bit wrap. */
  function CheckMemIntended(limit: int, index: Option<NodeSizing>, nodeBytes: (nat, int) -> nat,
                            nNodes: nat, pgMem: nat, msg: string): (warning: Option<string>)
    ensures warning.Some? ==> warning.value == msg
  {
    if IntendedProjected(pgMem, NodeSize(index, nodeBytes), nNodes) > Budget(limit) then Some(msg) else None
  }

  /**
   * With the untruncated product, the projection grows with the number of
   * nodes, so once a batch triggers the warning every larger batch does too.
   */
  lemma IntendedWarningIsMonotone(limit: int, index: Option<NodeSizing>, nodeBytes: (nat, int) -> nat,
                                  n: nat, m: nat, pgMem: nat, msg: string)
    requires n <= m
    ensures IntendedProjected(pgMem, NodeSize(index, nodeBytes), n)
         <= IntendedProjected(pgMem, NodeSize(index, nodeBytes), m)
    ensures CheckMemIntended(limit, index, nodeBytes, n, pgMem, msg).Some?
        ==> CheckMemIntended(limit, index, nodeBytes, m, pgMem, msg).Some?
  {
  }

  /** The two agree whenever the product fits in 32 bits and the sum does not wrap. */
  lemma IntendedAgreesWithoutOverflow(limit: int, index: Option<NodeSizing>, nodeBytes: (nat, int) -> nat,
                                      nNodes: nat, pgMem: nat, msg: string)
    requires NodeSize(index, nodeBytes) * nNodes < U32
    requires pgMem < U64 - U32
    ensures CheckMem(limit, index, nodeBytes, nNodes, pgMem, msg)
         == CheckMemIntended(limit, index, nodeBytes, nNodes, pgMem, msg)
  {
  }
}
