/**
 * The option projector `PopulateUsearchOpts` of src/hnsw/utils.c: fills the
 * engine's `usearch_init_options_t` from the index's configuration.
 *
 * The configuration accessors (`ldb_HnswGetM`, `ldb_HnswGetEfConstruction`,
 * `ldb_HnswGetEf`, `ldb_HnswGetMetricKind`) are read once into `HnswConfig`.
 * They return C `int`s that land in `size_t` fields, so the assignment
 * converts modulo 2^64.
 */
module UsearchOptions {

  const SizeRange: int := 0x1_0000_0000_0000_0000

  /** `usearch_metric_kind_t`. */
  datatype MetricKind =
    | MetricUnknown | MetricCos | MetricIp | MetricL2sq | MetricHaversine
    | MetricPearson | MetricJaccard | MetricHamming | MetricTanimoto | MetricSorensen

  /** `usearch_scalar_kind_t`. */
  datatype ScalarKind = ScalarUnknown | ScalarF32 | ScalarF64 | ScalarF16 | ScalarI8 | ScalarB1

  /** `usearch_metric_t`, a function pointer: NULL, or some user-supplied distance function. */
  datatype MetricFn = NullMetric | CustomMetric(address: nat)

  /** What the index's configuration accessors return. */
  datatype HnswConfig = HnswConfig(m: int, efConstruction: int, ef: int, metricKind: MetricKind)

  /** The value of a `usearch_init_options_t`. */
  datatype InitOptions = InitOptions(
    metricKind: MetricKind,
    metric: MetricFn,
    quantization: ScalarKind,
    dimensions: nat,
    connectivity: nat,
    expansionAdd: nat,
    expansionSearch: nat)

  /** C's conversion of an `int` to `size_t`. */
  function ToSize(x: int): (s: nat)
    ensures s < SizeRange
    ensures 0 <= x < SizeRange ==> s == x
  {
    x % SizeRange
  }

  /** The options after projection, given the options before it. */
  function Populated(before: InitOptions, cfg: HnswConfig): (after: InitOptions)
    ensures after.dimensions == before.dimensions
    ensures after.metric == NullMetric && after.quantization == ScalarF32 && after.metricKind == cfg.metricKind
    ensures after.connectivity < SizeRange && after.expansionAdd < SizeRange && after.expansionSearch < SizeRange
  {
    before.(connectivity := ToSize(cfg.m),
            expansionAdd := ToSize(cfg.efConstruction),
            expansionSearch := ToSize(cfg.ef),
            metricKind := cfg.metricKind,
            metric := NullMetric,
            quantization := ScalarF32)
  }

  /** The out-parameter `opts`. */
  class UsearchInitOptions {
    var metricKind: MetricKind
    var metric: MetricFn
    var quantization: ScalarKind
    var dimensions: nat
    var connectivity: nat
    var expansionAdd: nat
    var expansionSearch: nat

    function Value(): InitOptions
      reads this
    {
      InitOptions(metricKind, metric, quantization, dimensions, connectivity, expansionAdd, expansionSearch)
    }

    constructor (initial: InitOptions)
      ensures Value() == initial
    {
      metricKind := initial.metricKind;
      metric := initial.metric;
      quantization := initial.quantization;
      dimensions := initial.dimensions;
      connectivity := initial.connectivity;
      expansionAdd := initial.expansionAdd;
      expansionSearch := initial.expansionSearch;
    }
  }

  method PopulateUsearchOpts(cfg: HnswConfig, opts: UsearchInitOptions)
    modifies opts
    ensures opts.Value() == Populated(old(opts.Value()), cfg)
  {
    opts.connectivity := ToSize(cfg.m);
    opts.expansionAdd := ToSize(cfg.efConstruction);
    opts.expansionSearch := ToSize(cfg.ef);
    opts.metricKind := cfg.metricKind;
    opts.metric := NullMetric;
    opts.quantization := ScalarF32;
  }

  /**
   * For a configuration the option parser accepts (non-negative values), the
   * projection sets connectivity to M, expansion_add to ef_construction,
   * expansion_search to ef, the metric kind to the index's, clears the custom
   * metric and fixes single-precision quantization; the dimensions are left
   * as they were.
   */
  lemma PopulatedFields(before: InitOptions, cfg: HnswConfig)
    requires 0 <= cfg.m && 0 <= cfg.efConstruction && 0 <= cfg.ef
    requires cfg.m < SizeRange && cfg.efConstruction < SizeRange && cfg.ef < SizeRange
    ensures var after := Populated(before, cfg);
            && after.connectivity == cfg.m
            && after.expansionAdd == cfg.efConstruction
            && after.expansionSearch == cfg.ef
            && after.metricKind == cfg.metricKind
            && after.metric == NullMetric
            && after.quantization == ScalarF32
            && after.dimensions == before.dimensions
  {
  }

  /**
   * Nothing of the previous options survives except the dimensions: two
   * option records project to the same result exactly when their dimensions agree.
   */
  lemma PopulatedKeepsOnlyDimensions(a: InitOptions, b: InitOptions, cfg: HnswConfig)
    ensures Populated(a, cfg) == Populated(b, cfg) <==> a.dimensions == b.dimensions
  {
    if a.dimensions != b.dimensions {
      assert Populated(a, cfg).dimensions != Populated(b, cfg).dimensions;
    }
  }

  /** Projecting twice with the same configuration is projecting once. */
  lemma PopulatedIdempotent(before: InitOptions, cfg: HnswConfig)
    ensures Populated(Populated(before, cfg), cfg) == Populated(before, cfg)
  {
  }
}
