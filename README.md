# Lantern HNSW safety layer, modelled in Dafny

This project models `src/hnsw/utils.c` of the Lantern PostgreSQL extension: the
small layer the HNSW index access method calls around the external usearch
engine. It has six modules plus a shared `Option` type:

- `VersionGate` (version_gate.dfy): `VersionsMatch`. This is the per-backend cache
  held in the globals `version_checked` and `versions_match`. It records
  whether the binary's `LDB_BINARY_VERSION` equals the `extversion` recorded in
  `pg_extension`. The globals are the fields of the class `VersionState`. The
  method `VersionsMatch` is proved against the pure function `Step`, and the
  lemmas state the gate's protocol:
  - without a snapshot it soft-passes and resets;
  - once checked it answers from the cache;
  - a badly shaped query result is fatal;
  - the bounded `strncmp` amounts to exact string equality.
- `CString` (cstring.dfy): NUL-terminated byte buffers, `strlen` and `strncmp`,
  as the gate uses them.
- `LabelCodec` (label_codec.dfy): `GetUsearchLabel`. It copies the six bytes of
  an `ItemPointerData` into a zeroed 64-bit label. The label is modelled as its
  eight bytes of storage, and `LabelValue` reads those bytes as a little-endian
  number.
- `Normaliser` (normaliser.dfy): `ToFloat4Array`.
  - A `real[]` array's own data area is returned by identity.
  - An `integer[]` array is converted element by element into a fresh array,
    in a loop.
  - Any other element type is an error.
- `MemoryBudget` (memory_budget.dfy): `CheckMem`. This is the warning-only memory
  advisory. Its C integer widths are written out.
- `UsearchOptions` (usearch_options.dfy): `PopulateUsearchOpts`. It writes the
  fields of the `usearch_init_options_t` out-parameter, modelled as a class.
- `Optional` (option.dfy): the `Option` datatype.

External calls are replaced by inputs and parameters:
- the SPI query (`SPI_connect`, `SPI_execute`, `SPI_getbinval`) becomes the
  input `QueryOutcome`;
- `ActiveSnapshotSet()` becomes the input `snapshotActive`;
- `MemoryContextMemAllocated` becomes `pgMem`;
- `usearch_metadata` and the rounded layer estimate become `NodeSizing`;
- `UsearchNodeBytes` becomes the function parameter `nodeBytes`;
- the C `int32`-to-`float4` conversion becomes the function parameter `toFloat4`.

`elog(ERROR, …)` is an error value of the result type. `elog(WARNING, …)` is a
warning value the caller receives.

`LDB_BINARY_VERSION` is defined in `version.h`, which is not part of this model.
The model assumes it is a string literal with no NUL byte inside, so its `sizeof`
is its length plus one. The class `VersionState` takes it as a constructor
argument.

Two points about the code itself:
- The `strncmp` bound is `max(strlen(version), sizeof(LDB_BINARY_VERSION))`,
  one past the binary version's length. `ComparisonLength` is that bound, and
  `ComparisonIsEquality` proves it amounts to exact equality.
- Projected memory is not monotone in the node count, because the product is
  32-bit (see Findings).

## Model

| member | source | states |
|---|---|---|
| `CString.Strlen` | src/hnsw/utils.c:167 | the length is the index of the first NUL; every earlier byte is non-NUL |
| `CString.Strncmp` | src/hnsw/utils.c:172 | libc `strncmp`: a zero bound gives 0, and when the first bytes differ the result is non-zero with the sign of their unsigned difference; `StrncmpPastEndIsEquality` states when zero means equal strings |
| `CString.StrncmpPastEndIsEquality` | src/hnsw/utils.c:172 | when the bound exceeds one string's length, `strncmp` is zero exactly when the two string values are equal (neither is a proper prefix) |
| `CString.ContentsOfTerminated` | src/hnsw/utils.c:166 | the C string made from a NUL-free text value has that value as its contents and its length as `strlen` |
| `VersionGate.ComparisonLength` | src/hnsw/utils.c:167-170 | the bound is at least `strlen(version)` and at least `sizeof(LDB_BINARY_VERSION)` (binary length + 1), and equals one of them: it is their maximum |
| `VersionGate.Step` | src/hnsw/utils.c:115-193 | one call as a function of the old flags, snapshot and query outcome: it keeps `versions_match ⇒ version_checked`, fails only on an unchecked call under a snapshot and then leaves the flags as they were, and a checked result comes with an answer equal to the new `versions_match`; the lemmas below state the rest |
| `VersionGate.VersionState.constructor` | src/hnsw/utils.c:24-25 | at process start both `version_checked` and `versions_match` are false |
| `VersionGate.VersionState.VersionsMatch` | src/hnsw/utils.c:115-193 | the new flags and the outcome are those `Step` gives for the old flags; the invariant `versions_match ⇒ version_checked` is kept; the catalog is queried exactly on an unchecked call under a snapshot |
| `VersionGate.StepKeepsConsistent` | src/hnsw/utils.c:123-177 | every call keeps `versions_match ⇒ version_checked` |
| `VersionGate.SoftPassResets` | src/hnsw/utils.c:123-126 | without an active snapshot the gate returns true with no warning and resets both flags to false, whatever they were, and issues no query |
| `VersionGate.CachedAnswer` | src/hnsw/utils.c:128-129 | once checked, a call under a snapshot returns the cached `versions_match`, warns nothing, changes no flag and issues no query |
| `VersionGate.CheckedGateIsStable` | src/hnsw/utils.c:128-129 | any run of later calls under a snapshot leaves a checked gate's flags unchanged |
| `VersionGate.ErrorsExactlyOnBadQuery` | src/hnsw/utils.c:140-162 | the call fails exactly when it is an unchecked call under a snapshot and the query failed to connect, was not a SELECT, did not return one row, or returned NULL; a failing call leaves both flags unchanged |
| `VersionGate.ComparisonIsEquality` | src/hnsw/utils.c:165-172 | with the bumped bound, `strncmp(version, LDB_BINARY_VERSION, n) == 0` holds exactly when the two version strings are equal |
| `VersionGate.FirstCheckDecides` | src/hnsw/utils.c:165-191 | on an unchecked call under a snapshot with one non-null value, the gate becomes checked, `versions_match` becomes (and the call returns) exact equality of the versions, and a warning naming both versions is given exactly on a mismatch |
| `VersionGate.PrefixIsNotAMatch` | src/hnsw/utils.c:167-172 | bounded by the catalog version's own length, "0.1" would equal "0.1.2"; with the gate's bound it does not |
| `LabelCodec.GetUsearchLabel` | src/hnsw/utils.c:59-64 | the memcpy into a zeroed label: the first six bytes are the item pointer's and the remaining two are zero; value, bound and injectivity are in the lemmas below |
| `LabelCodec.LabelLayout` | src/hnsw/utils.c:59-64 | the label's first six bytes are the item pointer's bytes and its top two bytes are zero |
| `LabelCodec.LabelBelow2To48` | src/hnsw/utils.c:59-64 | the label's value is the item pointer's six bytes read as a number, hence below 2^48 |
| `LabelCodec.LabelInjective` | src/hnsw/utils.c:59-64 | distinct item-pointer images give distinct labels, as bytes and as numbers |
| `LabelCodec.LabelRoundTrip` | src/hnsw/utils.c:59-64 | reading the label's value back as six little-endian bytes yields the item pointer's image (losslessness) |
| `LabelCodec.LabelOfItemPointer` | src/hnsw/utils.c:59-64 | on a little-endian host the label equals block-hi + 2^16·block-lo + 2^32·offset |
| `LabelCodec.ItemPointerLabelInjective` | src/hnsw/utils.c:59-64 | distinct valid row identifiers (three 16-bit fields) get distinct labels |
| `Normaliser.AsInt32` | src/hnsw/utils.c:103 | a 4-byte element read as `int32` lies in the `int32` range, agrees with the word modulo 2^32, and is negative exactly when the top bit is set |
| `Normaliser.Converted` | src/hnsw/utils.c:104-106 | the element-by-element conversion the INT4 loop performs keeps the element count; `ConvertedAt` says what lands at each position |
| `Normaliser.ConvertedAt` | src/hnsw/utils.c:104-106 | the conversion keeps the element count and puts the conversion of element i at position i |
| `Normaliser.ToFloat4Array` | src/hnsw/utils.c:94-111 | a `real[]` array yields its own data area (no allocation); an `integer[]` array yields a fresh array equal to the element-by-element conversion of the input, which is not modified; any other element type yields an unsupported-type error naming that type |
| `MemoryBudget.NodeSize` | src/hnsw/utils.c:68-76 | `node_size` is 0 without an index, always fits in 32 bits, and equals the engine's node size when that fits |
| `MemoryBudget.Projected` | src/hnsw/utils.c:87 | the left side `pg_mem + node_size * n_nodes` stays below 2^64 and, when the sum cannot wrap, lies between `pg_mem` and `pg_mem + 2^32` (the product is 32-bit) |
| `MemoryBudget.Budget` | src/hnsw/utils.c:87 | the right side `(uint32)limit * 1024UL` is a multiple of 1024 below 2^42; it is `limit * 1024` for a non-negative `limit` and `(limit + 2^32) * 1024` for a negative one |
| `MemoryBudget.CheckMem` | src/hnsw/utils.c:87-89 | the only possible effect is a warning carrying the caller's message; there is no error outcome |
| `MemoryBudget.CheckMemThreshold` | src/hnsw/utils.c:87-89 | for a non-negative limit, it warns exactly when allocated memory plus the 32-bit product `node_size * n_nodes` exceeds `limit * 1024` |
| `MemoryBudget.NoIndexWeighsAllocatedOnly` | src/hnsw/utils.c:66-89 | without an index it warns exactly when allocated memory exceeds `limit * 1024` |
| `MemoryBudget.WrappedProductMissesWarning` | src/hnsw/utils.c:87 | with 64 KiB nodes and a 1 KiB budget, one node warns but 65536 nodes do not, because the product wraps to 0 |
| `MemoryBudget.CheckMemIntended` | src/hnsw/utils.c:87-89 | the corrected advisory: its only effect is a warning carrying the caller's message |
| `MemoryBudget.IntendedWarningIsMonotone` | src/hnsw/utils.c:87 | with the untruncated product, the projection grows with the node count, and a warning for n nodes implies one for any larger batch |
| `MemoryBudget.IntendedAgreesWithoutOverflow` | src/hnsw/utils.c:87 | as written and corrected agree whenever the product fits in 32 bits and the sum does not wrap |
| `UsearchOptions.ToSize` | src/hnsw/utils.c:51-53 | the `int` to `size_t` conversion lands below 2^64 and is the identity on values in range |
| `UsearchOptions.Populated` | src/hnsw/utils.c:49-57 | the projected record keeps the old dimensions, has a NULL metric, f32 quantization and the index's metric kind, and size fields in `size_t` range; `PopulatedFields` gives the numeric fields |
| `UsearchOptions.PopulateUsearchOpts` | src/hnsw/utils.c:49-57 | the out-parameter's new value is `Populated` of its old value |
| `UsearchOptions.PopulatedFields` | src/hnsw/utils.c:49-57 | connectivity, expansion_add, expansion_search and metric kind come from M, ef_construction, ef and the metric kind; metric is NULL; quantization is f32; dimensions are unchanged |
| `UsearchOptions.PopulatedKeepsOnlyDimensions` | src/hnsw/utils.c:49-57 | two prior option records give the same result exactly when their dimensions agree: no other prior field survives |
| `UsearchOptions.PopulatedIdempotent` | src/hnsw/utils.c:49-57 | projecting twice with one configuration equals projecting once |

## Findings

| source | as written | input that shows it | evidently intended | confidence | as-written member | corrected member |
|---|---|---|---|---|---|---|
| src/hnsw/utils.c:87 | `node_size * n_nodes` multiplies two `uint32` values in 32-bit arithmetic, so the projected size wraps modulo 2^32 | node size 65536 bytes, 65536 nodes, `pg_mem` 0, `limit` 1: 4 GiB projected wraps to 0 and no warning is given, while one node warns | multiply in 64 bits (`(Size) node_size * n_nodes`), so the projection grows with the batch | medium, not executed | `MemoryBudget.WrappedProductMissesWarning` | `MemoryBudget.CheckMemIntended` |

## Left out

- `LogUsearchOptions` (src/hnsw/utils.c:27-47) is left out. It only writes an INFO log line.
- SPI is not modelled. `SPI_connect`, `SPI_execute`, `SPI_getbinval`,
  `text_to_cstring` and `SPI_finish` collapse into the input `QueryOutcome`.
  The result-code strings in the error messages are not modelled either.
- Snapshots and parallel workers are reduced to the boolean input `snapshotActive`.
- Error unwinding is not modelled. `elog(ERROR)` is an error value, and the
  rollback the host performs after it is out of scope.
- Warning message text is not modelled. A warning is a value carrying its
  arguments: the two versions, or `CheckMem`'s message.
- The layer estimate `(int)round(1 / log(M) + 1)` is left out because it is
  floating point. It is an opaque input (`NodeSizing.layers`).
- `usearch_metadata` and `UsearchNodeBytes` are engine calls. They are replaced
  by `NodeSizing.dimensions` and the parameter `nodeBytes`. The engine result is
  stored into `uint32` by truncation.
- `meta.dimensions * sizeof(float)` is computed without 64-bit wrap, because the
  engine's dimensions are far below that range.
- `MemoryContextMemAllocated` and the `PG_VERSION_NUM` conditional are host
  accounting. The input `pgMem` stands for both; it is 0 before PostgreSQL 13.
- The real `int32`-to-`float4` rounding is floating point. The conversion is the
  parameter `toFloat4`, and every statement holds for every total conversion.
- `Normaliser.ToFloat4Array` does not model arrays that contain NULL elements.
  Their data area holds fewer words than `ArrayGetNItems` counts. The source
  does not check `ARR_HASNULL`, so on such an array its INT4 loop reads past
  the data and its FLOAT4 branch returns a buffer shorter than the element
  count. The model's `WellFormed` precondition asks for one word per element,
  which excludes these arrays.
- `ArrayGetNItems` raising an error on an oversized array is not modelled.
- `palloc` failing is not modelled.
- The label's numeric value is given for little-endian hosts only. The
  byte-layout, injectivity and bound statements about the eight bytes hold on
  any host.
- `MemoryBudget.CheckMemThreshold` is stated only for a non-negative `limit`
  and `pgMem` below 2^64 − 2^32. Outside that range, `CheckMem` itself
  models the wrapped conversions.
- `UsearchOptions.PopulatedFields` is stated only for non-negative
  configuration values within the `size_t` range, which the index option
  parser guarantees. In general, `Populated` applies the modulo-2^64 conversion.
- `VersionGate.FirstCheckDecides` is stated for NUL-free catalog text and binary
  version. SQL text values cannot hold NUL. For arbitrary bytes, `Step`
  compares the C-string contents.
