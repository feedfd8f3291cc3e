/**
 * The version gate `VersionsMatch` of src/hnsw/utils.c: a per-backend cache of
 * whether the compiled binary's version string equals the version of the
 * extension recorded in the `pg_extension` catalog.
 *
 * The two process globals `version_checked` and `versions_match` are the
 * fields of `VersionState`. The catalog query (SPI connect, execute, fetch)
 * is an input, `QueryOutcome`: the model only needs the shape of what came
 * back. `ERROR` becomes an `Error` outcome (the host aborts the statement),
 * `WARNING` becomes the `warning` carried by an `Answer`.
 */
module VersionGate {
  import opened CString
  import opened Optional

  /** The two process globals, as a value. */
  datatype Flags = Flags(checked: bool, matches: bool)

  /** A cached match is always a checked one. */
  predicate Consistent(f: Flags) {
    f.matches ==> f.checked
  }

  /** What running `SELECT extversion FROM pg_extension WHERE extname = 'lantern'` gave. */
  datatype QueryOutcome =
    | ConnectFailed                                       // SPI_connect did not return SPI_OK_CONNECT
    | ExecuteFailed(code: int)                            // SPI_execute returned a code other than SPI_OK_SELECT
    | Selected(processed: nat, first: Option<seq<byte>>)  // rows processed, first row's value (None: SQL NULL)

  /** The fatal conditions, one per `elog(ERROR, ...)` of the gate. */
  datatype GateError =
    | NoExecutor                 // "could not connect to executor to check binary version"
    | QueryFailed(code: int)     // "SPI_execute returned ... for ..."
    | NoVersionRow(rows: nat)    // "SQL version query did not return any values"
    | NullVersion                // "Version query returned null"

  /** The mismatch warning names the binary's version and the catalog's version. */
  datatype Warning = VersionMismatch(binary: seq<byte>, sql: seq<byte>)

  datatype Outcome =
    | Error(error: GateError)
    | Answer(matches: bool, warning: Option<Warning>)

  /**
   * The `strncmp` bound: `strlen(version)`, raised to `sizeof(LDB_BINARY_VERSION)`
   * when that is at least as large. The binary version is a string literal,
   * so its `sizeof` is its length plus the terminating NUL.
   */
  function ComparisonLength(version: seq<byte>, binary: seq<byte>): (n: nat)
    requires IsCString(version)
    ensures n >= Strlen(version) && n >= |binary| + 1
    ensures n == Strlen(version) || n == |binary| + 1
  {
    var versionLength := Strlen(version);
    if |binary| + 1 >= versionLength then |binary| + 1 else versionLength
  }

  /**
   * One call of `VersionsMatch` as a function of the flags before it, whether
   * a snapshot is active, and what the catalog query would return: the flags
   * after it and what the caller sees.
   */
  function Step(f: Flags, snapshotActive: bool, q: QueryOutcome, binary: seq<byte>): (next: (Flags, Outcome))
    ensures Consistent(f) ==> Consistent(next.0)
    ensures next.1.Error? ==> next.0 == f && snapshotActive && !f.checked
    ensures next.0.checked ==> snapshotActive && next.1.Answer? && next.1.matches == next.0.matches
  {
    if !snapshotActive then (Flags(false, false), Answer(true, None))
    else if f.checked then (f, Answer(f.matches, None))
    else
      match q
      case ConnectFailed => (f, Error(NoExecutor))
      case ExecuteFailed(code) => (f, Error(QueryFailed(code)))
      case Selected(rows, first) =>
        if rows != 1 then (f, Error(NoVersionRow(rows)))
        else if first.None? then (f, Error(NullVersion))
        else
          var version := Terminated(first.value);
          var comparison := Strncmp(version, Terminated(binary), ComparisonLength(version, binary));
          var matches := f.matches || comparison == 0;
          var warning := if matches then None else Some(VersionMismatch(binary, Contents(version)));
          (Flags(true, matches), Answer(matches, warning))
  }

  /** Whether a call runs the catalog query: only an unchecked call under a snapshot does. */
  predicate RunsQuery(f: Flags, snapshotActive: bool) {
    snapshotActive && !f.checked
  }

  class VersionState {
    /** LDB_BINARY_VERSION, the version the binary was compiled as. */
    const binaryVersion: seq<byte>
    /** The global `version_checked`. */
    var versionChecked: bool
    /** The global `versions_match`. */
    var versionsMatch: bool
    /** How many times the gate has gone to the catalog. */
    ghost var queries: nat

    ghost predicate Valid()
      reads this
    {
      NulFree(binaryVersion) && Consistent(Flags(versionChecked, versionsMatch))
    }

    function State(): Flags
      reads this
    {
      Flags(versionChecked, versionsMatch)
    }

    /** Process start: both globals are false. */
    constructor (binary: seq<byte>)
      requires NulFree(binary)
      ensures Valid() && binaryVersion == binary
      ensures !versionChecked && !versionsMatch && queries == 0
    {
      binaryVersion := binary;
      versionChecked := false;
      versionsMatch := false;
      queries := 0;
    }

    method VersionsMatch(snapshotActive: bool, query: QueryOutcome) returns (r: Outcome)
      requires Valid()
      modifies this
      ensures Valid()
      ensures (State(), r) == Step(old(State()), snapshotActive, query, binaryVersion)
      ensures queries == old(queries) + if RunsQuery(old(State()), snapshotActive) then 1 else 0
    {
      if !snapshotActive {
        versionChecked, versionsMatch := false, false;
        return Answer(true, None);
      }
      if versionChecked {
        return Answer(versionsMatch, None);
      }
      queries := queries + 1;
      match query {
        case ConnectFailed =>
          return Error(NoExecutor);
        case ExecuteFailed(code) =>
          return Error(QueryFailed(code));
        case Selected(rows, first) =>
          if rows != 1 {
            return Error(NoVersionRow(rows));
          }
          if first.None? {
            return Error(NullVersion);
          }
          var version := Terminated(first.value);
          var versionLength := Strlen(version);
          if |binaryVersion| + 1 >= versionLength {
            versionLength := |binaryVersion| + 1;
          }
          var comparison := Strncmp(version, Terminated(binaryVersion), versionLength);
          if comparison == 0 {
            versionsMatch := true;
          }
          versionChecked := true;
          var warning := None;
          if !versionsMatch {
            warning := Some(VersionMismatch(binaryVersion, Contents(version)));
          }
          return Answer(versionsMatch, warning);
      }
    }
  }

  /** Every call keeps "a match is a checked match". */
  lemma StepKeepsConsistent(f: Flags, snapshotActive: bool, q: QueryOutcome, binary: seq<byte>)
    requires Consistent(f)
    ensures Consistent(Step(f, snapshotActive, q, binary).0)
  {
  }

  /**
   * Without an active snapshot the gate passes and forgets what it knew,
   * whatever the flags were and whatever the catalog holds.
   */
  lemma SoftPassResets(f: Flags, q: QueryOutcome, binary: seq<byte>)
    ensures Step(f, false, q, binary) == (Flags(false, false), Answer(true, None))
    ensures !RunsQuery(f, false)
  {
  }

  /** Once checked, a call under a snapshot answers from the cache and changes nothing. */
  lemma CachedAnswer(f: Flags, q: QueryOutcome, binary: seq<byte>)
    requires f.checked
    ensures Step(f, true, q, binary) == (f, Answer(f.matches, None))
    ensures !RunsQuery(f, true)
  {
  }

  /** The query result has the expected shape: one row holding a non-null value. */
  predicate WellShaped(q: QueryOutcome) {
    q.Selected? && q.processed == 1 && q.first.Some?
  }

  /**
   * The gate fails exactly on an unchecked call under a snapshot whose query
   * went wrong, and a failing call leaves the flags as they were.
   */
  lemma ErrorsExactlyOnBadQuery(f: Flags, snapshotActive: bool, q: QueryOutcome, binary: seq<byte>)
    ensures Step(f, snapshotActive, q, binary).1.Error?
        <==> RunsQuery(f, snapshotActive) && !WellShaped(q)
    ensures Step(f, snapshotActive, q, binary).1.Error? ==> Step(f, snapshotActive, q, binary).0 == f
  {
  }

  /**
   * With the `strncmp` bound raised to cover the binary version's NUL, the
   * comparison is exact string equality of the two versions.
   */
  lemma {:induction false} ComparisonIsEquality(text: seq<byte>, binary: seq<byte>)
    requires NulFree(text) && NulFree(binary)
    ensures var version := Terminated(text);
            Strncmp(version, Terminated(binary), ComparisonLength(version, binary)) == 0 <==> text == binary
  {
    var version := Terminated(text);
    ContentsOfTerminated(text);
    ContentsOfTerminated(binary);
    StrncmpPastEndIsEquality(version, Terminated(binary), ComparisonLength(version, binary));
  }

  /**
   * The first check under a snapshot with a well-formed answer: the gate
   * becomes checked, matches exactly when the catalog's version string equals
   * the binary's, returns that, and warns, naming both versions, exactly when
   * they differ.
   */
  lemma {:induction false} FirstCheckDecides(f: Flags, text: seq<byte>, binary: seq<byte>)
    requires Consistent(f) && !f.checked
    requires NulFree(text) && NulFree(binary)
    ensures Step(f, true, Selected(1, Some(text)), binary)
         == (Flags(true, text == binary),
             Answer(text == binary, if text == binary then None else Some(VersionMismatch(binary, text))))
  {
    ComparisonIsEquality(text, binary);
    ContentsOfTerminated(text);
  }

  /**
   * Why the bound is raised: `strncmp` bounded by the catalog version's own
   * length treats "0.1" as equal to "0.1.2", while the gate's bound does not.
   */
  lemma PrefixIsNotAMatch()
    ensures var sql: seq<byte> := [48, 46, 49];              // "0.1"
            var binary: seq<byte> := [48, 46, 49, 46, 50];   // "0.1.2"
            && Strncmp(Terminated(sql), Terminated(binary), |sql|) == 0
            && Strncmp(Terminated(sql), Terminated(binary), ComparisonLength(Terminated(sql), binary)) != 0
  {
    var sql: seq<byte> := [48, 46, 49];
    var binary: seq<byte> := [48, 46, 49, 46, 50];
    ContentsOfTerminated(sql);
    ComparisonIsEquality(sql, binary);
    var a, b := Terminated(sql), Terminated(binary);
    assert a[1..][1..][1..] == [0];
    assert b[1..][1..][1..] == [46, 50, 0];
    assert Strncmp(a[1..][1..], b[1..][1..], 1) == 0;
    assert Strncmp(a[1..], b[1..], 2) == 0;
  }

  /** A checked gate stays checked, with the same answer, for every later call under a snapshot. */
  lemma {:induction false} CheckedGateIsStable(f: Flags, snapshots: seq<QueryOutcome>, binary: seq<byte>)
    requires f.checked
    ensures Replay(f, snapshots, binary) == f
  {
    if snapshots != [] {
      CachedAnswer(f, snapshots[0], binary);
      CheckedGateIsStable(f, snapshots[1..], binary);
    }
  }

  /** The flags after a run of calls, all under an active snapshot. */
  function Replay(f: Flags, queries: seq<QueryOutcome>, binary: seq<byte>): Flags
    decreases |queries|
  {
    if queries == [] then f else Replay(Step(f, true, queries[0], binary).0, queries[1..], binary)
  }
}
