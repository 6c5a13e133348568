/**
 `ingest_source`: writes what a source yields into a store, skipping what is already there.

 Before each of the driver's own transactions and reads, other processes may commit theirs.
 */
module Driver {
  import opened Wrappers
  import opened Items
  import opened Table
  import opened Store

  /** What a source yields, in order; an `Err` is one unreadable input. */
  datatype Source = Source(
    results: seq<Result<NewItem, string>>,
    filtered: nat,
    defaultScope: NewItem -> Option<string>)

  datatype Report = Report(ingested: nat, skippedExisting: nat, skippedFiltered: nat, failed: nat)

  const BATCH_SIZE: nat := 500

  /** A sum that a run conserves. */
  function Accounted(report: Report): nat {
    report.ingested + report.skippedExisting + report.failed
  }

  function Errors(results: seq<Result<NewItem, string>>): nat {
    if results == [] then 0
    else Errors(results[..|results| - 1]) + (if results[|results| - 1].Err? then 1 else 0)
  }

  function WithScope(source: Source, item: NewItem): NewItem {
    if item.scope.None? then item.(scope := source.defaultScope(item)) else item
  }

  function Candidates(source: Source, n: nat): (items: seq<NewItem>)
    requires n <= |source.results|
    ensures |items| + Errors(source.results[..n]) == n
  {
    if n == 0 then []
    else
      assert source.results[..n][..n - 1] == source.results[..n - 1];
      match source.results[n - 1]
      case Err(_) => Candidates(source, n - 1)
      case Ok(item) => Candidates(source, n - 1) + [WithScope(source, item)]
  }

  function KeysOf(items: seq<NewItem>): seq<string> {
    if items == [] then []
    else
      KeysOf(items[..|items| - 1])
      + (if items[|items| - 1].externalId.Some? then [items[|items| - 1].externalId.value] else [])
  }

  /** Replace only when both sides carry a hash and they differ. */
  predicate Differs(item: NewItem, holder: Row) {
    var given, stored := Sha256(item.metadata), Sha256(holder.metadata);
    given.Some? && stored.Some? && given != stored
  }

  /******* The decision about each candidate *******/

  datatype Triage = Triage(w: World, report: Report, unseen: seq<NewItem>, accepted: set<string>)

  function Skip(t: Triage): Triage {
    t.(report := t.report.(skippedExisting := t.report.skippedExisting + 1))
  }

  function Count(t: Triage): Triage {
    t.(report := t.report.(ingested := t.report.ingested + 1))
  }

  /** A candidate whose key the store held when the run began. */
  function TriagePresent(env: Surroundings, dryRun: bool, t: Triage, item: NewItem, key: string)
    : (Triage, Option<Error>)
  {
    var seen := OthersCommit(env, t.w);
    match HolderOf(seen.rows, key)
    case None => (Skip(t.(w := seen)), None)
    case Some(holder) =>
      if !Differs(item, holder) then (Skip(t.(w := seen)), None)
      else if dryRun then (Count(t.(w := seen)), None)
      else
        var (w, r) := Replaced(env, OthersCommit(env, seen), item, holder.id);
        match r
        case Err(e) => (t.(w := w), Some(e))
        case Ok(_) => (Count(t.(w := w)), None)
  }

  function TriageOne(env: Surroundings, existing: set<string>, dryRun: bool, t: Triage, item: NewItem)
    : (Triage, Option<Error>)
  {
    match item.externalId
    case None => (t.(unseen := t.unseen + [item]), None)
    case Some(key) =>
      if key in t.accepted then (Skip(t), None)
      else
        var accepting := t.(accepted := t.accepted + {key});
        if key !in existing then (accepting.(unseen := t.unseen + [item]), None)
        else TriagePresent(env, dryRun, accepting, item, key)
  }

  /** Candidates from the `i`-th on, stopping the run at the first store error. */
  function TriageFrom(env: Surroundings, existing: set<string>, dryRun: bool, t: Triage, items: seq<NewItem>, i: nat)
    : (Triage, Option<Error>)
    requires i <= |items|
    decreases |items| - i
  {
    if i == |items| then (t, None)
    else
      var (next, failed) := TriageOne(env, existing, dryRun, t, items[i]);
      if failed.Some? then (next, failed) else TriageFrom(env, existing, dryRun, next, items, i + 1)
  }

  /******* Writing what is new *******/

  datatype Progress = Progress(w: World, report: Report)

  function Written(p: Progress, n: nat): Progress {
    p.(report := p.report.(ingested := p.report.ingested + n))
  }

  function EachOne(env: Surroundings, p: Progress, item: NewItem): (Progress, Option<Error>) {
    var (w, r) := Ingested(env, OthersCommit(env, p.w), item);
    match r
    case Ok(_) => (Written(p.(w := w), 1), None)
    case Err(Invalid(_)) => (Progress(w, p.report.(failed := p.report.failed + 1)), None)
    case Err(e) => (p.(w := w), Some(e))
  }

  /** A batch again, item by item: an item that breaks a rule costs one `failed`. */
  function EachFrom(env: Surroundings, p: Progress, batch: seq<NewItem>, i: nat): (Progress, Option<Error>)
    requires i <= |batch|
    decreases |batch| - i
  {
    if i == |batch| then (p, None)
    else
      var (next, failed) := EachOne(env, p, batch[i]);
      if failed.Some? then (next, failed) else EachFrom(env, next, batch, i + 1)
  }

  /** The items whose key is not in `existing`. */
  function Without(batch: seq<NewItem>, existing: set<string>): (kept: seq<NewItem>)
    ensures |kept| <= |batch|
  {
    if batch == [] then []
    else
      var last := batch[|batch| - 1];
      Without(batch[..|batch| - 1], existing)
      + (if last.externalId.Some? && last.externalId.value in existing then [] else [last])
  }

  lemma {:induction false} WithoutMembers(batch: seq<NewItem>, existing: set<string>)
    ensures forall item :: item in Without(batch, existing) <==>
              item in batch && !(item.externalId.Some? && item.externalId.value in existing)
  {
    if batch != [] {
      WithoutMembers(batch[..|batch| - 1], existing);
      assert batch == batch[..|batch| - 1] + [batch[|batch| - 1]];
    }
  }

  /** After a conflict with another writer: filter again and try once more. */
  function Retried(env: Surroundings, p: Progress, batch: seq<NewItem>): (Progress, Option<Error>) {
    var (seen, existing) := Existing(env, p.w, KeysOf(batch), 0, {});
    var retry := Without(batch, existing);
    var skipped := p.report.(skippedExisting := p.report.skippedExisting + (|batch| - |retry|));
    var (w, r) := IngestedMany(env, OthersCommit(env, seen), retry);
    match r
    case Err(e) => (Progress(w, skipped), Some(e))
    case Ok(rows) => (Written(Progress(w, skipped), |rows|), None)
  }

  function BatchWritten(env: Surroundings, p: Progress, batch: seq<NewItem>): (Progress, Option<Error>) {
    var (w, r) := IngestedMany(env, OthersCommit(env, p.w), batch);
    match r
    case Ok(rows) => (Written(p.(w := w), |rows|), None)
    case Err(ExternalIdConflict(_)) => Retried(env, p.(w := w), batch)
    case Err(Invalid(_)) => EachFrom(env, p.(w := w), batch, 0)
    case Err(e) => (p.(w := w), Some(e))
  }

  function BatchLength(unseen: seq<NewItem>): (n: nat)
    ensures n <= |unseen| && (unseen != [] ==> n > 0)
  {
    if |unseen| < BATCH_SIZE then |unseen| else BATCH_SIZE
  }

  function BatchesWritten(env: Surroundings, p: Progress, unseen: seq<NewItem>): (Progress, Option<Error>)
    decreases |unseen|
  {
    if unseen == [] then (p, None)
    else
      var n := BatchLength(unseen);
      var (next, failed) := BatchWritten(env, p, unseen[..n]);
      if failed.Some? then (next, failed) else BatchesWritten(env, next, unseen[n..])
  }

  /******* A run *******/

  function StartReport(source: Source): Report {
    Report(0, 0, source.filtered, Errors(source.results))
  }

  /** The first half of a run: which keys are there already, and what becomes of each candidate. */
  function Triaged(env: Surroundings, w: World, source: Source, dryRun: bool): (Triage, Option<Error>) {
    var items := Candidates(source, |source.results|);
    var (seen, existing) := Existing(env, w, KeysOf(items), 0, {});
    TriageFrom(env, existing, dryRun, Triage(seen, StartReport(source), [], {}), items, 0)
  }

  function SourceIngested(env: Surroundings, w: World, source: Source, dryRun: bool): (World, Result<Report, Error>) {
    var (t, stopped) := Triaged(env, w, source, dryRun);
    if stopped.Some? then (t.w, Err(stopped.value))
    else if dryRun then (t.w, Ok(t.report.(ingested := t.report.ingested + |t.unseen|)))
    else
      var (p, failed) := BatchesWritten(env, Progress(t.w, t.report), t.unseen);
      if failed.Some? then (p.w, Err(failed.value)) else (p.w, Ok(p.report))
  }

  method Collect(source: Source) returns (candidates: seq<NewItem>, failed: nat)
    ensures candidates == Candidates(source, |source.results|) && failed == Errors(source.results)
  {
    candidates, failed := [], 0;
    var i := 0;
    while i < |source.results|
      invariant 0 <= i <= |source.results|
      invariant candidates == Candidates(source, i) && failed == Errors(source.results[..i])
    {
      assert source.results[..i + 1][..i] == source.results[..i];
      match source.results[i] {
        case Ok(item) =>
          var scoped := item;
          if scoped.scope.None? { scoped := scoped.(scope := source.defaultScope(item)); }
          candidates := candidates + [scoped];
        case Err(_) =>
          failed := failed + 1;
      }
      i := i + 1;
    }
    assert source.results[..i] == source.results;
  }

  method CollectKeys(items: seq<NewItem>) returns (keys: seq<string>)
    ensures keys == KeysOf(items)
  {
    keys := [];
    var i := 0;
    while i < |items|
      invariant 0 <= i <= |items| && keys == KeysOf(items[..i])
    {
      assert items[..i + 1][..i] == items[..i];
      if items[i].externalId.Some? { keys := keys + [items[i].externalId.value]; }
      i := i + 1;
    }
    assert items[..i] == items;
  }

  /** The present-key branch of the triage loop. */
  method ReplaceIfChanged(store: Store, report: Report, item: NewItem, key: string, dryRun: bool)
    returns (after: Report, failed: Option<Error>)
    modifies store
    ensures forall unseen, accepted ::
              (Triage(store.Here(), after, unseen, accepted), failed)
              == TriagePresent(store.env, dryRun, Triage(old(store.Here()), report, unseen, accepted), item, key)
  {
    after, failed := report, None;
    store.LetOthersCommit();
    var holder := store.GetByExternalId(key);
    if holder.Some? && Differs(item, holder.value) {
      if !dryRun {
        store.LetOthersCommit();
        var written := store.IngestReplacing(item, holder.value.id);
        if written.Err? {
          failed := Some(written.error);
          return;
        }
      }
      after := after.(ingested := after.ingested + 1);
    } else {
      after := after.(skippedExisting := after.skippedExisting + 1);
    }
  }

  /** The triage loop of `ingest_source`. */
  method TriageAll(store: Store, existing: set<string>, start: Report, items: seq<NewItem>, dryRun: bool)
    returns (report: Report, unseen: seq<NewItem>, ghost accepted: set<string>, failed: Option<Error>)
    modifies store
    ensures (Triage(store.Here(), report, unseen, accepted), failed)
         == TriageFrom(store.env, existing, dryRun, Triage(old(store.Here()), start, [], {}), items, 0)
  {
    report, unseen, failed := start, [], None;
    var acceptedIds: set<string> := {};
    accepted := {};
    var i := 0;
    ghost var outcome := TriageFrom(store.env, existing, dryRun, Triage(store.Here(), start, [], {}), items, 0);
    while i < |items|
      invariant 0 <= i <= |items| && acceptedIds == accepted && failed.None?
      invariant outcome
             == TriageFrom(store.env, existing, dryRun, Triage(store.Here(), report, unseen, accepted), items, i)
    {
      var item := items[i];
      if item.externalId.None? {
        unseen := unseen + [item];
      } else if item.externalId.value in acceptedIds {
        report := report.(skippedExisting := report.skippedExisting + 1);
      } else {
        acceptedIds := acceptedIds + {item.externalId.value};
        accepted := acceptedIds;
        if item.externalId.value !in existing {
          unseen := unseen + [item];
        } else {
          report, failed := ReplaceIfChanged(store, report, item, item.externalId.value, dryRun);
          if failed.Some? { return; }
        }
      }
      i := i + 1;
    }
  }

  method WriteOne(store: Store, report: Report, item: NewItem) returns (after: Report, failed: Option<Error>)
    modifies store
    ensures (Progress(store.Here(), after), failed) == EachOne(store.env, Progress(old(store.Here()), report), item)
  {
    after, failed := report, None;
    store.LetOthersCommit();
    var r := store.Ingest(item);
    match r {
      case Ok(_) => after := after.(ingested := after.ingested + 1);
      case Err(Invalid(_)) => after := after.(failed := after.failed + 1);
      case Err(e) => failed := Some(e);
    }
  }

  method WriteEach(store: Store, report: Report, batch: seq<NewItem>) returns (after: Report, failed: Option<Error>)
    modifies store
    ensures (Progress(store.Here(), after), failed)
         == EachFrom(store.env, Progress(old(store.Here()), report), batch, 0)
  {
    after, failed := report, None;
    var i := 0;
    ghost var outcome := EachFrom(store.env, Progress(store.Here(), report), batch, 0);
    while i < |batch|
      invariant 0 <= i <= |batch| && failed.None?
      invariant EachFrom(store.env, Progress(store.Here(), after), batch, i) == outcome
    {
      after, failed := WriteOne(store, after, batch[i]);
      if failed.Some? { return; }
      i := i + 1;
    }
  }

  method Retry(store: Store, report: Report, batch: seq<NewItem>) returns (after: Report, failed: Option<Error>)
    modifies store
    ensures (Progress(store.Here(), after), failed) == Retried(store.env, Progress(old(store.Here()), report), batch)
  {
    after, failed := report, None;
    var keys := CollectKeys(batch);
    var nowExisting := store.ExistingExternalIds(keys);
    var retry := Without(batch, nowExisting);
    after := after.(skippedExisting := after.skippedExisting + (|batch| - |retry|));
    store.LetOthersCommit();
    var r := store.IngestMany(retry);
    match r {
      case Ok(written) => after := after.(ingested := after.ingested + |written|);
      case Err(e) => failed := Some(e);
    }
  }

  method WriteBatch(store: Store, report: Report, batch: seq<NewItem>) returns (after: Report, failed: Option<Error>)
    modifies store
    ensures (Progress(store.Here(), after), failed)
         == BatchWritten(store.env, Progress(old(store.Here()), report), batch)
  {
    after, failed := report, None;
    store.LetOthersCommit();
    var r := store.IngestMany(batch);
    match r {
      case Ok(written) => after := after.(ingested := after.ingested + |written|);
      case Err(ExternalIdConflict(_)) => after, failed := Retry(store, after, batch);
      case Err(Invalid(_)) => after, failed := WriteEach(store, after, batch);
      case Err(e) => failed := Some(e);
    }
  }

  /** `write_batches`. */
  method WriteBatches(store: Store, items: seq<NewItem>, report: Report) returns (after: Report, failed: Option<Error>)
    modifies store
    ensures (Progress(store.Here(), after), failed)
         == BatchesWritten(store.env, Progress(old(store.Here()), report), items)
  {
    after, failed := report, None;
    var unseen := items;
    ghost var outcome := BatchesWritten(store.env, Progress(store.Here(), report), items);
    while unseen != []
      invariant failed.None?
      invariant BatchesWritten(store.env, Progress(store.Here(), after), unseen) == outcome
      decreases |unseen|
    {
      var n := if |unseen| < BATCH_SIZE then |unseen| else BATCH_SIZE;
      var batch := unseen[..n];
      unseen := unseen[n..];
      after, failed := WriteBatch(store, after, batch);
      if failed.Some? { return; }
    }
  }

  /** `ingest_source`. */
  method IngestSource(store: Store, source: Source, dryRun: bool) returns (r: Result<Report, Error>)
    modifies store
    ensures (store.Here(), r) == SourceIngested(store.env, old(store.Here()), source, dryRun)
  {
    var candidates, failures := Collect(source);
    var report := Report(0, 0, source.filtered, failures);
    var keys := CollectKeys(candidates);
    var existing := store.ExistingExternalIds(keys);
    var unseen, stopped;
    ghost var accepted;
    report, unseen, accepted, stopped := TriageAll(store, existing, report, candidates, dryRun);
    if stopped.Some? { return Err(stopped.value); }
    if dryRun {
      return Ok(report.(ingested := report.ingested + |unseen|));
    }
    var failed;
    report, failed := WriteBatches(store, unseen, report);
    return if failed.Some? then Err(failed.value) else Ok(report);
  }
}
