/**
 * Migration catalogs, the journal of applied migrations and its reading
 * (internal/migrations/catalog.go, internal/migrations/history.go).
 */
module MigrationHistory {
  import opened Outcomes
  import Text
  import Tokenizer

  datatype Dialect = Postgres | Mysql | Sqlite

  /** What a database holds beside the journal: schema objects by name, and application data. */
  datatype Content = Content(objects: map<string, string>, data: map<string, string>)

  type Query = Content -> bool
  type Statement = Content -> Content

  datatype Kind = Baseline | Upgrade | OtherKind

  datatype Step = Step(
    id: int,
    file: string,
    checksum: string,
    kind: Kind,
    transactional: bool,
    schemaChecksum: string,
    snapshot: map<string, string>,
    checks: Query,
    preconditions: Query,
    retry: Option<Query>,
    statements: seq<Statement>)

  datatype Catalog = Catalog(dialect: Dialect, bootstrap: int, target: int, steps: seq<Step>, owned: set<string>)

  // ----- catalogs -----

  predicate StepFits(dialect: Dialect, i: nat, step: Step) {
    && step.kind == (if i == 0 then Baseline else Upgrade)
    && (dialect.Mysql? ==> !step.transactional)
    && (dialect.Sqlite? ==> step.transactional)
    && (step.retry.Some? ==> step.kind.Upgrade? && !step.transactional)
  }

  /** The steps before position `n` are in order, of the right kinds, and own only listed names. */
  predicate StepsFit(catalog: Catalog, n: nat)
    requires n <= |catalog.steps|
  {
    && (forall i :: 0 <= i < n ==> catalog.steps[i].id > 0 && StepFits(catalog.dialect, i, catalog.steps[i]))
    && (forall i, j :: 0 <= i < j < n ==> catalog.steps[i].id < catalog.steps[j].id)
  }

  /** Every name that some snapshot defines. */
  function OwnedBy(steps: seq<Step>): set<string> {
    set i, name | 0 <= i < |steps| && name in steps[i].snapshot :: name
  }

  predicate ValidCatalog(catalog: Catalog) {
    && |catalog.steps| > 0
    && StepsFit(catalog, |catalog.steps|)
    && catalog.bootstrap == catalog.steps[0].id
    && catalog.target == catalog.steps[|catalog.steps| - 1].id
    && catalog.owned == OwnedBy(catalog.steps)
  }

  datatype CatalogError =
    | BadHeader | BadFileName | BadOrder | BadKind | BadTransaction | BadSnapshotName | BadChecksum
    | BadScript | BadDefinition | BadRebuild | BadRetry | NotSelect | BadEnds

  datatype Header = Header(format: int, dialect: Dialect, bootstrap: int, target: int)

  /**
   * What is read beside a step: the numbers in the names of its file and of its snapshot when they
   * are well formed, the digests of the two when they can be read, whether they parse, whether the
   * step rebuilds SQLite tables, and the texts of its queries.
   */
  datatype Entry = Entry(
    step: Step,
    fileId: Option<nat>,
    snapshotId: Option<nat>,
    fileDigest: Option<string>,
    snapshotDigest: Option<string>,
    hasStatements: bool,
    isDefinition: bool,
    rebuild: bool,
    checks: seq<string>,
    preconditions: seq<string>,
    retryChecks: seq<string>,
    instructions: string)

  function Trimmed(s: string): string {
    if s == "" then ""
    else if Tokenizer.IsSpace(s[0]) then Trimmed(s[1..])
    else if Tokenizer.IsSpace(s[|s| - 1]) then Trimmed(s[..|s| - 1])
    else s
  }

  predicate IsSelect(query: string) {
    var text := Trimmed(query);
    |text| >= 7 && Text.ToLower(text[..7]) == "select "
  }

  function Queries(entry: Entry): seq<string> {
    entry.checks + entry.preconditions + if entry.step.retry.Some? then entry.retryChecks else []
  }

  predicate AllSelect(queries: seq<string>) { forall k :: 0 <= k < |queries| ==> IsSelect(queries[k]) }

  /** The files are the published ones, under the names of their step, and hold what they should. */
  predicate FilesFit(entry: Entry) {
    && entry.snapshotId == Some(entry.step.id)
    && entry.fileDigest == Some(entry.step.checksum) && entry.hasStatements
    && entry.snapshotDigest == Some(entry.step.schemaChecksum) && entry.isDefinition
  }

  predicate EntryFits(dialect: Dialect, entry: Entry) {
    && FilesFit(entry)
    && (entry.rebuild ==> dialect.Sqlite?)
    && (entry.step.retry.Some? ==> entry.retryChecks != [] && Trimmed(entry.instructions) != "")
    && AllSelect(Queries(entry))
  }

  /** Every file carries its step's number, and every entry fits. */
  predicate EntriesFit(dialect: Dialect, entries: seq<Entry>) {
    forall i :: 0 <= i < |entries| ==> entries[i].fileId == Some(entries[i].step.id) && EntryFits(dialect, entries[i])
  }

  function StepsOf(entries: seq<Entry>): (r: seq<Step>)
    ensures |r| == |entries|
    ensures forall i :: 0 <= i < |entries| ==> r[i] == entries[i].step
  {
    seq(|entries|, i requires 0 <= i < |entries| => entries[i].step)
  }

  lemma OwnedByAppend(steps: seq<Step>, i: nat)
    requires i < |steps|
    ensures OwnedBy(steps[..i + 1]) == OwnedBy(steps[..i]) + steps[i].snapshot.Keys
  {}

  predicate GoesOn(dialect: Dialect, i: nat, previous: int, entry: Entry) {
    && entry.fileId == Some(entry.step.id) && entry.step.id > previous
    && StepFits(dialect, i, entry.step) && EntryFits(dialect, entry)
  }

  /** The leading `i` entries fit, and `previous` is the last identifier of them. */
  predicate ReadUpTo(catalog: Catalog, entries: seq<Entry>, i: nat, previous: int)
    requires i <= |entries| && catalog.steps == StepsOf(entries)
  {
    && previous == (if i == 0 then 0 else entries[i - 1].step.id)
    && (forall j :: 0 <= j < i ==> entries[j].step.id <= previous)
    && EntriesFit(catalog.dialect, entries[..i]) && StepsFit(catalog, i)
  }

  lemma ReadNext(catalog: Catalog, entries: seq<Entry>, i: nat, previous: int)
    requires i < |entries| && catalog.steps == StepsOf(entries) && ReadUpTo(catalog, entries, i, previous)
    ensures if GoesOn(catalog.dialect, i, previous, entries[i]) then ReadUpTo(catalog, entries, i + 1, entries[i].step.id)
            else !(EntriesFit(catalog.dialect, entries) && StepsFit(catalog, |entries|))
  {
    var step := entries[i].step;
    assert catalog.steps[i] == step;
    if step.id <= previous {
      assert if i == 0 then catalog.steps[0].id <= 0 else catalog.steps[i - 1].id >= catalog.steps[i].id;
    }
  }

  /** The metadata validation: accepted exactly when header and entries form a valid catalog. */
  method ReadCatalog(dialect: Dialect, header: Header, entries: seq<Entry>) returns (result: Result<Catalog, CatalogError>)
    ensures var catalog := Catalog(dialect, header.bootstrap, header.target, StepsOf(entries), OwnedBy(StepsOf(entries)));
      && (result.Ok? ==> result.value == catalog)
      && (result.Ok? <==> header.format == 1 && header.dialect == dialect && EntriesFit(dialect, entries) && ValidCatalog(catalog))
  {
    ghost var catalog := Catalog(dialect, header.bootstrap, header.target, StepsOf(entries), OwnedBy(StepsOf(entries)));
    if header.format != 1 || header.dialect != dialect || |entries| == 0 {
      return Err(BadHeader);
    }
    var previous := 0;
    for i := 0 to |entries|
      invariant ReadUpTo(catalog, entries, i, previous)
    {
      ReadNext(catalog, entries, i, previous);
      var problem := CheckEntry(dialect, i, previous, entries[i]);
      if problem.Some? {
        return Err(problem.value);
      }
      previous := entries[i].step.id;
    }
    assert entries[..|entries|] == entries;
    if header.bootstrap != entries[0].step.id || header.target != previous {
      return Err(BadEnds);
    }
    var owned := OwnedNames(StepsOf(entries));
    return Ok(Catalog(dialect, header.bootstrap, header.target, StepsOf(entries), owned));
  }

  method CheckEntry(dialect: Dialect, i: nat, previous: int, entry: Entry) returns (problem: Option<CatalogError>)
    ensures problem.None? <==> GoesOn(dialect, i, previous, entry)
  {
    if entry.fileId.None? {
      return Some(BadFileName);
    }
    if entry.fileId.value != entry.step.id || entry.step.id <= previous {
      return Some(BadOrder);
    }
    problem := CheckStep(dialect, i, entry);
  }

  method OwnedNames(steps: seq<Step>) returns (owned: set<string>)
    ensures owned == OwnedBy(steps)
  {
    owned := {};
    for i := 0 to |steps|
      invariant owned == OwnedBy(steps[..i])
    {
      OwnedByAppend(steps, i);
      owned := owned + steps[i].snapshot.Keys;
    }
    assert steps[..|steps|] == steps;
  }

  method CheckStep(dialect: Dialect, i: nat, entry: Entry) returns (problem: Option<CatalogError>)
    ensures problem.None? <==> StepFits(dialect, i, entry.step) && EntryFits(dialect, entry)
  {
    var step := entry.step;
    if (i == 0 && step.kind != Baseline) || (i != 0 && step.kind != Upgrade) {
      return Some(BadKind);
    }
    if dialect.Mysql? && step.transactional {
      return Some(BadTransaction);
    }
    if dialect.Sqlite? && !step.transactional {
      return Some(BadTransaction);
    }
    problem := CheckFiles(entry);
    if problem.Some? {
      return;
    }
    if entry.rebuild && !dialect.Sqlite? {
      return Some(BadRebuild);
    }
    var queries := entry.checks + entry.preconditions;
    if step.retry.Some? {
      if step.kind != Upgrade || step.transactional || entry.retryChecks == [] || Trimmed(entry.instructions) == "" {
        return Some(BadRetry);
      }
      queries := queries + entry.retryChecks;
    }
    problem := CheckQueries(queries);
    assert queries == Queries(entry);
  }

  method CheckFiles(entry: Entry) returns (problem: Option<CatalogError>)
    ensures problem.None? <==> FilesFit(entry)
  {
    if entry.snapshotId != Some(entry.step.id) {
      return Some(BadSnapshotName);
    }
    if entry.fileDigest != Some(entry.step.checksum) {
      return Some(BadChecksum);
    }
    if !entry.hasStatements {
      return Some(BadScript);
    }
    if entry.snapshotDigest != Some(entry.step.schemaChecksum) {
      return Some(BadChecksum);
    }
    return if entry.isDefinition then None else Some(BadDefinition);
  }

  method CheckQueries(queries: seq<string>) returns (problem: Option<CatalogError>)
    ensures problem.None? <==> AllSelect(queries)
  {
    for k := 0 to |queries|
      invariant AllSelect(queries[..k])
    {
      if !IsSelect(queries[k]) {
        return Some(NotSelect);
      }
    }
    assert queries[..|queries|] == queries;
    return None;
  }

  // ----- verification of a revision -----

  /** The owned objects present are exactly the snapshot's, with its definitions. */
  predicate ObjectsMatch(catalog: Catalog, step: Step, content: Content) {
    && (forall name :: name in catalog.owned && name in content.objects ==> name in step.snapshot)
    && (forall name :: name in step.snapshot ==> name in content.objects && content.objects[name] == step.snapshot[name])
  }

  /** verifyStep: the objects match and the step's data checks hold. */
  predicate Verified(catalog: Catalog, step: Step, content: Content) {
    ObjectsMatch(catalog, step, content) && step.checks(content)
  }

  /** requireUnused over all steps: no owned name is taken. */
  predicate Unused(catalog: Catalog, content: Content) {
    catalog.owned !! content.objects.Keys
  }

  // ----- the journal -----

  datatype Mode = Executed | Adopted | OtherMode

  datatype State = Started | Complete | OtherState

  datatype Record = Record(
    id: int, baseline: int, dialect: Dialect, file: string, checksum: string, schemaChecksum: string,
    kind: Kind, mode: Mode, state: State, startedAt: int, completedAt: Option<int>)

  datatype Status = Status(revision: int, dirty: bool, pending: seq<int>, history: seq<Record>)

  datatype HistoryCause = UnknownHistory | ChecksumMismatch

  /** The row names the catalog's step at position `i`, unaltered. */
  predicate RowFits(catalog: Catalog, i: nat, row: Record) {
    && i < |catalog.steps|
    && row.id == catalog.steps[i].id
    && row.checksum == catalog.steps[i].checksum && row.schemaChecksum == catalog.steps[i].schemaChecksum
    && row.baseline == catalog.bootstrap && row.dialect == catalog.dialect
    && row.file == catalog.steps[i].file && row.kind == catalog.steps[i].kind
    && (row.mode == Executed || (i == 0 && row.mode == Adopted))
    && row.startedAt > 0
  }

  predicate IsComplete(row: Record) { row.state == Complete && row.completedAt.Some? && row.completedAt.value > 0 }

  predicate IsStarted(row: Record) { row.state == Started && row.completedAt.None? }

  /** The rows are a prefix of the catalog, with only the last one possibly incomplete. */
  predicate ValidHistory(catalog: Catalog, rows: seq<Record>) {
    && |rows| <= |catalog.steps|
    && (forall i {:trigger RowFits(catalog, i, rows[i])} :: 0 <= i < |rows| ==> RowFits(catalog, i, rows[i]))
    && (forall i {:trigger IsComplete(rows[i])} :: 0 <= i < |rows| - 1 ==> IsComplete(rows[i]))
    && (|rows| > 0 ==> IsComplete(rows[|rows| - 1]) || IsStarted(rows[|rows| - 1]))
  }

  predicate IsDirty(rows: seq<Record>) { |rows| > 0 && rows[|rows| - 1].state == Started }

  /** How many leading rows are complete, in a valid history. */
  function CompleteCount(rows: seq<Record>): nat { if IsDirty(rows) then |rows| - 1 else |rows| }

  function RevisionOf(rows: seq<Record>): int {
    if CompleteCount(rows) == 0 then 0 else rows[CompleteCount(rows) - 1].id
  }

  function Ids(steps: seq<Step>): (r: seq<int>)
    ensures |r| == |steps|
    ensures forall i :: 0 <= i < |steps| ==> r[i] == steps[i].id
  {
    seq(|steps|, i requires 0 <= i < |steps| => steps[i].id)
  }

  function RowIds(rows: seq<Record>): (r: seq<int>)
    ensures |r| == |rows|
    ensures forall i :: 0 <= i < |rows| ==> r[i] == rows[i].id
  {
    seq(|rows|, i requires 0 <= i < |rows| => rows[i].id)
  }

  /** What a valid history reports. */
  function StatusOf(catalog: Catalog, rows: seq<Record>): Status
    requires |rows| <= |catalog.steps|
  {
    Status(RevisionOf(rows), IsDirty(rows), Ids(catalog.steps[CompleteCount(rows)..]), rows)
  }

  /** Completed ids followed by pending ids are always the catalog's ids. */
  lemma CompletedThenPending(catalog: Catalog, rows: seq<Record>)
    requires ValidHistory(catalog, rows)
    ensures RowIds(rows[..CompleteCount(rows)]) + StatusOf(catalog, rows).pending == Ids(catalog.steps)
  {
    assert forall i :: 0 <= i < |rows| ==> RowFits(catalog, i, rows[i]);
  }

  /** How many leading rows can be read before the first bad one. */
  function Readable(catalog: Catalog, rows: seq<Record>): (n: nat)
    ensures n <= |rows| && ValidHistory(catalog, rows[..n])
  {
    if ValidHistory(catalog, rows) then
      assert rows[..|rows|] == rows; |rows|
    else
      var shorter := rows[..|rows| - 1];
      assert shorter[..Readable(catalog, shorter)] == rows[..Readable(catalog, shorter)];
      Readable(catalog, shorter)
  }

  /** What a rejected history reports: the state reached before the bad row. */
  function PartialStatus(catalog: Catalog, rows: seq<Record>): Status {
    var read := rows[..Readable(catalog, rows)];
    Status(RevisionOf(read), IsDirty(read), [], rows)
  }

  lemma ValidPrefix(catalog: Catalog, rows: seq<Record>, n: nat)
    requires ValidHistory(catalog, rows) && n <= |rows|
    ensures ValidHistory(catalog, rows[..n])
  {}

  lemma {:induction false} ReadableIs(catalog: Catalog, rows: seq<Record>, n: nat)
    requires n < |rows| && ValidHistory(catalog, rows[..n]) && !ValidHistory(catalog, rows[..n + 1])
    ensures !ValidHistory(catalog, rows) && Readable(catalog, rows) == n
  {
    if ValidHistory(catalog, rows) {
      ValidPrefix(catalog, rows, n + 1);
      assert false;
    }
    var shorter := rows[..|rows| - 1];
    assert shorter[..n] == rows[..n];
    if n + 1 < |rows| {
      assert shorter[..n + 1] == rows[..n + 1];
      ReadableIs(catalog, shorter, n);
    } else {
      assert shorter == rows[..n];
    }
  }

  /** What the leading `i` rows say. */
  predicate Scanned(catalog: Catalog, rows: seq<Record>, i: nat, revision: int, dirty: bool)
    requires i <= |rows|
  {
    && ValidHistory(catalog, rows[..i])
    && revision == RevisionOf(rows[..i])
    && dirty == IsDirty(rows[..i])
  }

  /** A journal is accepted exactly when it is a valid history, and then reports its status. */
  method ReadHistory(catalog: Catalog, rows: seq<Record>) returns (status: Status, cause: Option<HistoryCause>)
    requires ValidCatalog(catalog)
    ensures cause.None? <==> ValidHistory(catalog, rows)
    ensures cause.None? ==> status == StatusOf(catalog, rows)
    ensures cause.Some? ==> status == PartialStatus(catalog, rows)
  {
    status := Status(0, false, [], rows);
    for i := 0 to |rows|
      invariant Scanned(catalog, rows, i, status.revision, status.dirty)
      invariant status.history == rows && status.pending == []
    {
      var row := rows[i];
      ghost var before, now := rows[..i], rows[..i + 1];
      assert now == before + [row] && now[..i] == before;
      var problem := CheckRow(catalog, i, row);
      if problem.Some? || status.dirty {
        RowRejected(catalog, now, i);
        ReadableIs(catalog, rows, i);
        return status, if problem.Some? then problem else Some(UnknownHistory);
      }
      if row.state == Complete {
        status := status.(revision := row.id);
      } else {
        status := status.(dirty := true);
      }
    }
    assert rows[..|rows|] == rows;
    var pending := PendingAfter(catalog, rows, status.revision);
    status := status.(pending := pending);
    return status, None;
  }

  /** One bad row spoils the history. */
  lemma RowRejected(catalog: Catalog, rows: seq<Record>, i: nat)
    requires i < |rows|
    requires !RowFits(catalog, i, rows[i]) || !(IsComplete(rows[i]) || IsStarted(rows[i])) || IsDirty(rows[..i])
    ensures !ValidHistory(catalog, rows)
  {
    assert ValidHistory(catalog, rows) ==> RowFits(catalog, i, rows[i]);
    assert ValidHistory(catalog, rows) && i < |rows| - 1 ==> IsComplete(rows[i]);
    if i > 0 {
      assert rows[..i][i - 1] == rows[i - 1];
      assert ValidHistory(catalog, rows) ==> IsComplete(rows[i - 1]);
    }
  }

  method CheckRow(catalog: Catalog, i: nat, row: Record) returns (problem: Option<HistoryCause>)
    ensures problem.None? <==> RowFits(catalog, i, row) && (IsComplete(row) || IsStarted(row))
  {
    if i >= |catalog.steps| || row.id != catalog.steps[i].id {
      return Some(UnknownHistory);
    }
    var step := catalog.steps[i];
    if row.checksum != step.checksum || row.schemaChecksum != step.schemaChecksum {
      return Some(ChecksumMismatch);
    }
    var validIdentity := row.baseline == catalog.bootstrap && row.dialect == catalog.dialect;
    validIdentity := validIdentity && row.file == step.file && row.kind == step.kind;
    var validMode := row.mode == Executed || (i == 0 && row.mode == Adopted);
    if !validIdentity || !validMode || row.startedAt <= 0 {
      return Some(UnknownHistory);
    }
    match row.state {
      case Complete =>
        if row.completedAt.None? || row.completedAt.value <= 0 {
          return Some(UnknownHistory);
        }
      case Started =>
        if row.completedAt.Some? {
          return Some(UnknownHistory);
        }
      case OtherState => return Some(UnknownHistory);
    }
    return None;
  }

  method PendingAfter(catalog: Catalog, rows: seq<Record>, revision: int) returns (pending: seq<int>)
    requires ValidCatalog(catalog) && ValidHistory(catalog, rows) && revision == RevisionOf(rows)
    ensures pending == StatusOf(catalog, rows).pending
  {
    forall i | 0 <= i < |catalog.steps|
      ensures catalog.steps[i].id > revision <==> CompleteCount(rows) <= i
    {
      PendingExactlyAfter(catalog, rows, i);
    }
    pending := IdsBeyond(catalog.steps, revision, CompleteCount(rows));
  }

  method IdsBeyond(steps: seq<Step>, revision: int, ghost n: nat) returns (pending: seq<int>)
    requires n <= |steps| && forall i :: 0 <= i < |steps| ==> (steps[i].id > revision <==> n <= i)
    ensures pending == Ids(steps[n..])
  {
    pending := [];
    for i := 0 to |steps|
      invariant pending == if i <= n then [] else Ids(steps[n..i])
    {
      if steps[i].id > revision {
        assert steps[n..i + 1] == steps[n..i] + [steps[i]];
        pending := pending + [steps[i].id];
      }
    }
    assert steps[n..|steps|] == steps[n..];
  }

  lemma PendingExactlyAfter(catalog: Catalog, rows: seq<Record>, i: nat)
    requires ValidCatalog(catalog) && ValidHistory(catalog, rows) && i < |catalog.steps|
    ensures catalog.steps[i].id > RevisionOf(rows) <==> CompleteCount(rows) <= i
  {
    var n := CompleteCount(rows);
    if n > 0 {
      assert RowFits(catalog, n - 1, rows[n - 1]);
    }
  }
}
