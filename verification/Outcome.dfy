/** What a run of the ingest driver leaves in the table, candidate by candidate, while no other process writes. */
module Outcome {
  import opened Wrappers
  import opened Items
  import opened Table
  import opened Store
  import opened Driver
  import opened DriverLaws
  import opened Idempotence
  import opened Records
  import Json

  /******* Candidates whose key is held *******/

  /** Both sides carry a hash, and the two are different texts. */
  ghost predicate HashesDiffer(item: NewItem, holder: Row) {
    exists a, b ::
      && Json.Field(item.metadata, "sha256") == Some(Json.Str(a))
      && Json.Field(holder.metadata, "sha256") == Some(Json.Str(b))
      && a != b
  }

  lemma {:induction false} DiffersMeaning(item: NewItem, holder: Row)
    ensures Differs(item, holder) <==> HashesDiffer(item, holder)
  {
    if Differs(item, holder) {
      assert Json.Field(item.metadata, "sha256") == Some(Json.Str(Sha256(item.metadata).value));
      assert Json.Field(holder.metadata, "sha256") == Some(Json.Str(Sha256(holder.metadata).value));
    }
  }

  /** Who holds the key afterwards: a new row that records the item and supersedes the old one, or the old one. */
  ghost predicate Succession(old_: Row, item: NewItem, holder: Option<Row>) {
    if HashesDiffer(item, old_) then
      holder.Some? && RecordsItem(holder.value, item)
      && holder.value.supersedes == Some(old_.id) && holder.value.id != old_.id
    else holder == Some(old_)
  }

  lemma {:induction false} PresentOutcome(env: Surroundings, t: Triage, item: NewItem, key: string, old_: Row)
    requires Alone(env) && Valid(t.w.rows) && item.externalId == Some(key) && HolderOf(t.w.rows, key) == Some(old_)
    requires TriagePresent(env, false, t, item, key).1.None?
    ensures Succession(old_, item, HolderOf(TriagePresent(env, false, t, item, key).0.w.rows, key))
  {
    AloneMeansQuiet(env, t.w);
    var seen := OthersCommit(env, t.w);
    AloneMeansQuiet(env, seen);
    DiffersMeaning(item, old_);
    if Differs(item, old_) {
      ReplacedEffect(env, OthersCommit(env, seen), item, key, key);
      ReplacementRecords(env, OthersCommit(env, seen), item, old_.id);
      ReplacementHasNewId(env, OthersCommit(env, seen), item, key);
    }
  }

  lemma {:induction false} ReplacementHasNewId(env: Surroundings, w: World, item: NewItem, key: string)
    requires Valid(w.rows) && HolderOf(w.rows, key).Some? && item.externalId == Some(key)
    requires Replaced(env, w, item, HolderOf(w.rows, key).value.id).1.Ok?
    ensures Replaced(env, w, item, HolderOf(w.rows, key).value.id).1.value.id != HolderOf(w.rows, key).value.id
  {
    var h := ReplacedRows(env, w, item, key);
    var after := Replaced(env, w, item, HolderOf(w.rows, key).value.id).0;
    var i := HolderIndex(w.rows, key);
    assert h == i && after.rows[h].id == w.rows[h].id != after.rows[|w.rows|].id;
  }

  /** Keys already decided keep their holders through the rest of triage. */
  lemma {:induction false} TriageKeepsHolders(env: Surroundings, existing: set<string>, rows: seq<Row>, t: Triage,
                                              items: seq<NewItem>, i: nat, key: string)
    requires Alone(env) && i <= |items| && Knows(existing, rows, items) && Sound(rows, items, i, t)
    requires TriageFrom(env, existing, false, t, items, i).1.None? && key in t.accepted
    ensures HolderOf(TriageFrom(env, existing, false, t, items, i).0.w.rows, key) == HolderOf(t.w.rows, key)
    decreases |items| - i
  {
    if i < |items| {
      var next := TriageOne(env, existing, false, t, items[i]).0;
      DecideOne(env, existing, rows, t, items, i);
      TriageStep(env, existing, false, rows, t, items, i);
      SeenStep(items, i, key);
      TriageKeepsHolders(env, existing, rows, next, items, i + 1, key);
    }
  }

  lemma {:induction false} TriageOutcome(env: Surroundings, existing: set<string>, rows: seq<Row>, t: Triage,
                                         items: seq<NewItem>, i: nat, j: nat, old_: Row)
    requires Alone(env) && i <= j < |items| && Knows(existing, rows, items) && Sound(rows, items, i, t)
    requires FirstWithKey(items, j) && HolderOf(rows, items[j].externalId.value) == Some(old_)
    requires TriageFrom(env, existing, false, t, items, i).1.None?
    ensures var after := TriageFrom(env, existing, false, t, items, i).0.w.rows;
            Succession(old_, items[j], HolderOf(after, items[j].externalId.value))
    decreases j - i
  {
    var key, next := items[j].externalId.value, TriageOne(env, existing, false, t, items[i]).0;
    TriageStep(env, existing, false, rows, t, items, i);
    if i == j {
      assert Seen(items, |items|, key);
      PresentOutcome(env, t.(accepted := t.accepted + {key}), items[j], key, old_);
      SeenStep(items, i, key);
      TriageKeepsHolders(env, existing, rows, next, items, i + 1, key);
    } else {
      TriageOutcome(env, existing, rows, next, items, i + 1, j, old_);
    }
  }

  /**
   After a run that returned `Ok`: where the store held the key of a candidate, the first with that key, a
   new row that records the candidate holds it and supersedes the old row, if both carried a hash and the
   two differed; and in every other case the same row holds it, unchanged.
   */
  lemma {:induction false} HeldKeysAfterARun(env: Surroundings, w: World, source: Source, j: nat, old_: Row)
    requires Alone(env) && Valid(w.rows) && SourceIngested(env, w, source, false).1.Ok?
    requires var items := Candidates(source, |source.results|);
             j < |items| && FirstWithKey(items, j) && HolderOf(w.rows, items[j].externalId.value) == Some(old_)
    ensures var items := Candidates(source, |source.results|);
            var after := SourceIngested(env, w, source, false).0.rows;
            Succession(old_, items[j], HolderOf(after, items[j].externalId.value))
  {
    var items := Candidates(source, |source.results|);
    var key := items[j].externalId.value;
    var (seen, existing) := Existing(env, w, KeysOf(items), 0, {});
    var start := Triage(seen, StartReport(source), [], {});
    StartIsSound(env, w, source);
    TriageOutcome(env, existing, w.rows, start, items, 0, j, old_);
    TriageIsSound(env, existing, false, w.rows, start, items, 0);
    var t := Triaged(env, w, source, false).0;
    WrittenNovel(env, Progress(t.w, t.report), t.unseen);
    HolderStays(t.w.rows, SourceIngested(env, w, source, false).0.rows, key);
  }

  /** A candidate, the first with its key, whose text differs from the holder's by their hashes. */
  ghost predicate IsEdited(rows: seq<Row>, items: seq<NewItem>, j: nat)
    requires j < |items|
  {
    && FirstWithKey(items, j) && HolderOf(rows, items[j].externalId.value).Some?
    && HashesDiffer(items[j], HolderOf(rows, items[j].externalId.value).value)
  }

  /** How many of the first `i` candidates are. */
  ghost function Edited(rows: seq<Row>, items: seq<NewItem>, i: nat): nat
    requires i <= |items|
  {
    if i == 0 then 0 else Edited(rows, items, i - 1) + if IsEdited(rows, items, i - 1) then 1 else 0
  }

  lemma {:induction false} TriageOneCounts(env: Surroundings, existing: set<string>, rows: seq<Row>, t: Triage,
                                           items: seq<NewItem>, i: nat)
    requires Alone(env) && i < |items| && Knows(existing, rows, items) && Sound(rows, items, i, t)
    requires TriageOne(env, existing, false, t, items[i]).1.None?
    ensures TriageOne(env, existing, false, t, items[i]).0.report.ingested
         == t.report.ingested + if IsEdited(rows, items, i) then 1 else 0
  {
    var item := items[i];
    if item.externalId.Some? {
      var key := item.externalId.value;
      assert Seen(items, |items|, key);
      assert FirstWithKey(items, i) <==> key !in t.accepted;
      AloneMeansQuiet(env, t.w);
      if key !in t.accepted {
        assert HolderOf(t.w.rows, key) == HolderOf(rows, key);
        if HolderOf(rows, key).Some? { DiffersMeaning(item, HolderOf(rows, key).value); }
      }
    }
  }

  lemma {:induction false} TriageCounts(env: Surroundings, existing: set<string>, rows: seq<Row>, t: Triage,
                                        items: seq<NewItem>, i: nat)
    requires Alone(env) && i <= |items| && Knows(existing, rows, items) && Sound(rows, items, i, t)
    requires TriageFrom(env, existing, false, t, items, i).1.None?
    requires t.report.ingested == Edited(rows, items, i)
    ensures TriageFrom(env, existing, false, t, items, i).0.report.ingested == Edited(rows, items, |items|)
    decreases |items| - i
  {
    if i < |items| {
      TriageOneCounts(env, existing, rows, t, items, i);
      TriageStep(env, existing, false, rows, t, items, i);
      TriageCounts(env, existing, rows, TriageOne(env, existing, false, t, items[i]).0, items, i + 1);
    }
  }

  /******* What is written as new rows *******/

  function IfValid(item: NewItem): seq<NewItem> {
    if IsValid(item) then [item] else []
  }

  /** The valid items, in order. */
  function ValidOnes(items: seq<NewItem>): seq<NewItem> {
    if items == [] then [] else IfValid(items[0]) + ValidOnes(items[1..])
  }

  lemma {:induction false} ValidOnesAppend(a: seq<NewItem>, b: seq<NewItem>)
    ensures ValidOnes(a + b) == ValidOnes(a) + ValidOnes(b)
  {
    if a == [] {
      assert a + b == b;
    } else {
      assert (a + b)[1..] == a[1..] + b && (a + b)[0] == a[0];
      ValidOnesAppend(a[1..], b);
      SeqAssociates(IfValid(a[0]), ValidOnes(a[1..]), ValidOnes(b));
    }
  }

  lemma {:induction false} SeqAssociates<T>(a: seq<T>, b: seq<T>, c: seq<T>)
    ensures a + (b + c) == (a + b) + c
  {
  }

  lemma {:induction false} AllAreValid(items: seq<NewItem>)
    requires forall k :: 0 <= k < |items| ==> IsValid(items[k])
    ensures ValidOnes(items) == items
  {
    if items != [] {
      AllAreValid(items[1..]);
      assert items == [items[0]] + items[1..];
    }
  }

  ghost predicate IsRowFor(row: Row, item: NewItem) {
    RecordsItem(row, item) && row.supersedes == item.supersedes
  }

  /** One row for each item, in order. */
  ghost predicate RowsFor(rows: seq<Row>, items: seq<NewItem>) {
    |rows| == |items| && forall k :: 0 <= k < |rows| ==> IsRowFor(rows[k], items[k])
  }

  lemma {:induction false} RowsForAppend(a: seq<Row>, b: seq<Row>, x: seq<NewItem>, y: seq<NewItem>)
    requires RowsFor(a, x) && RowsFor(b, y)
    ensures RowsFor(a + b, x + y)
  {
  }

  /** Only a clock before 1970 can refuse a valid item as if it broke a rule. */
  lemma {:induction false} RefusedIsInvalid(env: Surroundings, w: World, item: NewItem)
    ensures var (after, r) := Ingested(env, w, item);
            r.Err? && r.error.Invalid? && ModernBetween(env, w.ticks, after.ticks) ==> !IsValid(item)
  {
    assert ModernBetween(env, w.ticks, w.ticks + 1) ==> Milliseconds(env.clock(w.ticks)) >= 0;
  }

  /**
   What is written between two points: one row for each valid item, in order, behind the rows already
   there. Rows count as ingested, and the other items as failed.
   */
  ghost predicate Adds(p: Progress, q: Progress, added: seq<Row>, items: seq<NewItem>) {
    && q.w.rows == p.w.rows + added && RowsFor(added, ValidOnes(items))
    && q.report.ingested == p.report.ingested + |added|
    && q.report.failed + |added| == p.report.failed + |items|
  }

  lemma {:induction false} EachOneAdds(env: Surroundings, p: Progress, item: NewItem) returns (added: seq<Row>)
    requires Alone(env) && EachOne(env, p, item).1.None?
    requires ModernBetween(env, p.w.ticks, EachOne(env, p, item).0.w.ticks)
    ensures Adds(p, EachOne(env, p, item).0, added, [item])
  {
    AloneMeansQuiet(env, p.w);
    var w := OthersCommit(env, p.w);
    var r := Ingested(env, w, item).1;
    IngestIsTransaction(env, w, item);
    RefusedIsInvalid(env, w, item);
    added := if r.Ok? then [r.value] else [];
    if r.Ok? { IngestRecords(env, w, item); }
    assert ValidOnes([item]) == IfValid(item) + ValidOnes([]);
  }

  lemma {:induction false} AddsJoin(p: Progress, next: Progress, q: Progress, first: seq<Row>, rest: seq<Row>,
                                    a: seq<NewItem>, b: seq<NewItem>)
    requires Adds(p, next, first, a) && Adds(next, q, rest, b)
    ensures Adds(p, q, first + rest, a + b)
  {
    ValidOnesAppend(a, b);
    RowsForAppend(first, rest, ValidOnes(a), ValidOnes(b));
    SeqAssociates(p.w.rows, first, rest);
  }

  /** Writing items `i` on one by one ends well at `q` without an early reading. */
  ghost predicate EachFinishes(env: Surroundings, p: Progress, items: seq<NewItem>, i: nat, q: Progress) {
    && Alone(env) && i <= |items| && EachFrom(env, p, items, i) == (q, None)
    && ModernBetween(env, p.w.ticks, q.w.ticks)
  }

  lemma {:induction false} NoneOfEachLeft(env: Surroundings, p: Progress, items: seq<NewItem>, q: Progress)
    requires EachFinishes(env, p, items, |items|, q)
    ensures Adds(p, q, [], [])
  {
  }

  /** One write further, and what it adds. */
  lemma {:induction false} EachStepAdds(env: Surroundings, p: Progress, items: seq<NewItem>, i: nat, q: Progress)
    returns (next: Progress, added: seq<Row>)
    requires i < |items| && EachFinishes(env, p, items, i, q)
    ensures EachFinishes(env, next, items, i + 1, q) && Adds(p, next, added, [items[i]])
  {
    next := EachOne(env, p, items[i]).0;
    EachOneTicks(env, p, items[i]);
    EachTicks(env, next, items, i + 1);
    ModernParts(env, p.w.ticks, next.w.ticks, q.w.ticks);
    added := EachOneAdds(env, p, items[i]);
  }

  lemma {:induction false} EachAdds(env: Surroundings, p: Progress, items: seq<NewItem>, i: nat, q: Progress)
    returns (added: seq<Row>)
    requires i <= |items| && EachFinishes(env, p, items, i, q)
    ensures Adds(p, q, added, items[i..])
    decreases |items| - i
  {
    if i == |items| {
      NoneOfEachLeft(env, p, items, q);
      added := [];
    } else {
      var next, first := EachStepAdds(env, p, items, i, q);
      var rest := EachAdds(env, next, items, i + 1, q);
      AddsJoin(p, next, q, first, rest, [items[i]], items[i + 1..]);
      assert items[i..] == [items[i]] + items[i + 1..];
      added := first + rest;
    }
  }

  lemma {:induction false} BatchAdds(env: Surroundings, p: Progress, batch: seq<NewItem>) returns (added: seq<Row>)
    requires Alone(env) && Valid(p.w.rows) && Novel(p.w.rows, batch, 0) && BatchWritten(env, p, batch).1.None?
    requires ModernBetween(env, p.w.ticks, BatchWritten(env, p, batch).0.w.ticks)
    ensures Adds(p, BatchWritten(env, p, batch).0, added, batch)
  {
    AloneMeansQuiet(env, p.w);
    var w := OthersCommit(env, p.w);
    var (after, r) := IngestedMany(env, w, batch);
    BatchOfNovel(env, w, batch);
    if r.Ok? {
      BatchRecords(env, w, batch);
      AllAreValid(batch);
      added := r.value;
    } else {
      var q := EachFrom(env, p.(w := after), batch, 0).0;
      EachTicks(env, p.(w := after), batch, 0);
      ModernParts(env, p.w.ticks, after.ticks, q.w.ticks);
      added := EachAdds(env, p.(w := after), batch, 0, q);
      assert batch[0..] == batch;
    }
  }

  /** What is left to write is new to the store, and writing it ends well at `q` without an early reading. */
  ghost predicate Finishes(env: Surroundings, p: Progress, unseen: seq<NewItem>, q: Progress) {
    && Alone(env) && Valid(p.w.rows) && Novel(p.w.rows, unseen, 0)
    && BatchesWritten(env, p, unseen) == (q, None)
    && ModernBetween(env, p.w.ticks, q.w.ticks)
  }

  lemma {:induction false} NothingLeft(env: Surroundings, p: Progress, q: Progress)
    requires Finishes(env, p, [], q)
    ensures Adds(p, q, [], [])
  {
  }

  /** One batch further, and what it adds. */
  lemma {:induction false} FirstBatchAdds(env: Surroundings, p: Progress, unseen: seq<NewItem>, q: Progress)
    returns (next: Progress, added: seq<Row>, batch: seq<NewItem>, left: seq<NewItem>)
    requires unseen != [] && Finishes(env, p, unseen, q)
    ensures unseen == batch + left && |left| < |unseen|
    ensures Finishes(env, next, left, q) && Adds(p, next, added, batch)
  {
    var n := BatchLength(unseen);
    batch, left := unseen[..n], unseen[n..];
    next := BatchWritten(env, p, batch).0;
    BatchTicks(env, p, batch);
    WritingTicks(env, next, left);
    ModernParts(env, p.w.ticks, next.w.ticks, q.w.ticks);
    added := BatchAdds(env, p, batch);
    BatchWrittenNovel(env, p, batch);
    NovelAfterPart(p.w.rows, next.w.rows, unseen, n);
  }

  lemma {:induction false} BatchesAdd(env: Surroundings, p: Progress, unseen: seq<NewItem>, q: Progress)
    returns (added: seq<Row>)
    requires Finishes(env, p, unseen, q)
    ensures Adds(p, q, added, unseen)
    decreases |unseen|
  {
    if unseen == [] {
      NothingLeft(env, p, q);
      added := [];
    } else {
      var next, first, batch, left := FirstBatchAdds(env, p, unseen, q);
      var rest := BatchesAdd(env, next, left, q);
      AddsJoin(p, next, q, first, rest, batch, left);
      added := first + rest;
    }
  }

  /**
   After a run that returned `Ok` and read no time before 1970: behind the rows that were there and those of
   the replacements come, one for each and in order, the rows of the valid candidates that have no key, or
   are the first with a key nobody held.
   */
  lemma {:induction false} NewRowsOfARun(env: Surroundings, w: World, source: Source) returns (added: seq<Row>)
    requires Alone(env) && Valid(w.rows) && SourceIngested(env, w, source, false).1.Ok?
    requires ModernBetween(env, w.ticks, SourceIngested(env, w, source, false).0.ticks)
    ensures var novel := NewAmong(w.rows, Candidates(source, |source.results|), |Candidates(source, |source.results|)|);
            && SourceIngested(env, w, source, false).0.rows == Triaged(env, w, source, false).0.w.rows + added
            && RowsFor(added, ValidOnes(novel))
            && SourceIngested(env, w, source, false).1.value.failed == Errors(source.results) + |novel| - |added|
            && SourceIngested(env, w, source, false).1.value.ingested
               == Triaged(env, w, source, false).0.report.ingested + |added|
  {
    var items := Candidates(source, |source.results|);
    var (seen, existing) := Existing(env, w, KeysOf(items), 0, {});
    var start := Triage(seen, StartReport(source), [], {});
    StartIsSound(env, w, source);
    TriageIsSound(env, existing, false, w.rows, start, items, 0);
    TriagedKeepsNew(env, w, source);
    TriagedConserves(env, w, source, false);
    TriageTicks(env, existing, false, start, items, 0);
    var t := Triaged(env, w, source, false).0;
    var p := Progress(t.w, t.report);
    WritingTicks(env, p, t.unseen);
    ModernParts(env, w.ticks, t.w.ticks, SourceIngested(env, w, source, false).0.ticks);
    added := BatchesAdd(env, p, t.unseen, BatchesWritten(env, p, t.unseen).0);
  }

  /**
   The report of such a run, counted off its input and the store as it was: what was edited or new and valid
   is ingested; unreadable inputs and new invalid candidates failed; everything else is skipped.
   */
  lemma {:induction false} CountsOfARun(env: Surroundings, w: World, source: Source)
    requires Alone(env) && Valid(w.rows) && SourceIngested(env, w, source, false).1.Ok?
    requires ModernBetween(env, w.ticks, SourceIngested(env, w, source, false).0.ticks)
    ensures var items := Candidates(source, |source.results|);
            var edited, novel := Edited(w.rows, items, |items|), NewAmong(w.rows, items, |items|);
            var report := SourceIngested(env, w, source, false).1.value;
            && report.ingested == edited + |ValidOnes(novel)|
            && report.failed == Errors(source.results) + |novel| - |ValidOnes(novel)|
            && report.skippedExisting == |items| - edited - |novel|
            && report.skippedFiltered == source.filtered
  {
    var items := Candidates(source, |source.results|);
    var (seen, existing) := Existing(env, w, KeysOf(items), 0, {});
    var start := Triage(seen, StartReport(source), [], {});
    StartIsSound(env, w, source);
    assert source.results[..|source.results|] == source.results;
    TriageCounts(env, existing, w.rows, start, items, 0);
    var added := NewRowsOfARun(env, w, source);
    EveryResultIsCounted(env, w, source, false);
  }

  /******* Among other writers *******/

  /**
   A candidate whose key was held when the run began, whatever others have committed since: if the row
   that holds the key now differs by its hash, a new row that records the candidate supersedes it and counts
   as ingested; if not, or if nobody holds the key any more, the candidate is skipped.
   */
  lemma {:induction false} PresentAmongWriters(env: Surroundings, t: Triage, item: NewItem, key: string)
    requires item.externalId == Some(key) && TriagePresent(env, false, t, item, key).1.None?
    ensures var next, seen := TriagePresent(env, false, t, item, key).0, OthersCommit(env, t.w);
            var holder := HolderOf(seen.rows, key);
            && next.unseen == t.unseen && next.accepted == t.accepted
            && if holder.Some? && HashesDiffer(item, holder.value) then
                 && next.report == t.report.(ingested := t.report.ingested + 1)
                 && next.w.rows != [] && RecordsItem(next.w.rows[|next.w.rows| - 1], item)
                 && next.w.rows[|next.w.rows| - 1].supersedes == Some(holder.value.id)
               else next.report == t.report.(skippedExisting := t.report.skippedExisting + 1) && next.w == seen
  {
    var seen := OthersCommit(env, t.w);
    var holder := HolderOf(seen.rows, key);
    if holder.Some? {
      DiffersMeaning(item, holder.value);
      if Differs(item, holder.value) { ReplacementRecords(env, OthersCommit(env, seen), item, holder.value.id); }
    }
  }

  /** The items whose key no row holds. */
  function Unheld(rows: seq<Row>, items: seq<NewItem>): seq<NewItem> {
    if items == [] then []
    else
      var last := items[|items| - 1];
      Unheld(rows, items[..|items| - 1]) + if Unclaimed(rows, last) then [last] else []
  }

  lemma {:induction false} WithoutIsUnheld(rows: seq<Row>, items: seq<NewItem>, existing: set<string>)
    requires forall item :: item in items && item.externalId.Some? ==>
               (item.externalId.value in existing <==> HasKey(rows, item.externalId.value))
    ensures Without(items, existing) == Unheld(rows, items)
  {
    if items != [] {
      assert items[|items| - 1] in items;
      WithoutIsUnheld(rows, items[..|items| - 1], existing);
    }
  }

  predicate DistinctKeys(items: seq<NewItem>) {
    forall j, k :: 0 <= j < k < |items| && items[j].externalId.Some? ==> items[j].externalId != items[k].externalId
  }

  lemma {:induction false} KeysRead(env: Surroundings, w: World, items: seq<NewItem>)
    requires QuietFrom(env, w.turns)
    ensures var (seen, existing) := Existing(env, w, KeysOf(items), 0, {});
            && seen.rows == w.rows && QuietFrom(env, seen.turns) && Without(items, existing) == Unheld(w.rows, items)
  {
    var (seen, existing) := Existing(env, w, KeysOf(items), 0, {});
    ExistingQuiet(env, w, KeysOf(items), 0, {});
    forall item | item in items && item.externalId.Some?
      ensures item.externalId.value in existing <==> HasKey(w.rows, item.externalId.value)
    {
      KeysMeaning(items, item.externalId.value);
      var j :| 0 <= j < |items| && items[j] == item;
    }
    WithoutIsUnheld(w.rows, items, existing);
  }

  /** A row was added for each item whose key nobody held, in order, and the other items count as skipped. */
  ghost predicate AddsUnheld(p: Progress, q: Progress, added: seq<Row>, items: seq<NewItem>) {
    && q.w.rows == p.w.rows + added && RowsFor(added, Unheld(p.w.rows, items))
    && q.report.ingested == p.report.ingested + |added|
    && q.report.skippedExisting + |added| == p.report.skippedExisting + |items|
    && q.report.failed == p.report.failed && q.report.skippedFiltered == p.report.skippedFiltered
  }

  /** The batch as a whole was refused because another process had taken one of its keys. */
  predicate LostRace(env: Surroundings, p: Progress, batch: seq<NewItem>) {
    var r := IngestedMany(env, OthersCommit(env, p.w), batch).1;
    r.Err? && r.error.ExternalIdConflict?
  }

  /**
   A batch that lost a race: unless yet another process commits, exactly its items whose key is held by then
   are skipped, and if nothing else ends the run a row is added for each of the others, in order.
   */
  lemma {:induction false} AfterALostRace(env: Surroundings, p: Progress, batch: seq<NewItem>)
    returns (added: seq<Row>)
    requires QuietFrom(env, p.w.turns + 1) && Valid(p.w.rows) && DistinctKeys(batch)
    requires LostRace(env, p, batch)
    ensures !IsConflict(BatchWritten(env, p, batch).1)
    ensures BatchWritten(env, p, batch).1.None? ==>
              AddsUnheld(p.(w := OthersCommit(env, p.w)), BatchWritten(env, p, batch).0, added, batch)
  {
    var w := OthersCommit(env, p.w);
    var after := IngestedMany(env, w, batch).0;
    IngestManyIsTransaction(env, w, batch);
    OthersKeepValid(p.w.rows, env.others(p.w.turns), 0);
    assert BatchWritten(env, p, batch) == Retried(env, p.(w := after), batch);
    RetryResolvesConflict(env, p.(w := after), batch);
    added := RetryAdds(env, p.(w := after), batch);
  }

  lemma {:induction false} RetryAdds(env: Surroundings, p: Progress, batch: seq<NewItem>) returns (added: seq<Row>)
    requires QuietFrom(env, p.w.turns)
    ensures Retried(env, p, batch).1.None? ==> AddsUnheld(p, Retried(env, p, batch).0, added, batch)
  {
    var (seen, existing) := Existing(env, p.w, KeysOf(batch), 0, {});
    KeysRead(env, p.w, batch);
    assert env.others(seen.turns) == [];
    var now, retry := OthersCommit(env, seen), Without(batch, existing);
    var r := IngestedMany(env, now, retry).1;
    added := if r.Ok? then r.value else [];
    if r.Ok? { BatchRecords(env, now, retry); }
  }
}
