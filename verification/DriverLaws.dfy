/** What a run of the ingest driver adds up to. */
module DriverLaws {
  import opened Wrappers
  import opened Items
  import opened Table
  import opened Store
  import opened Driver

  /******* Conservation, whatever other processes do *******/

  /** Rows that did not come from other processes at this store's turns. */
  function Own(w: World): int {
    |w.rows| - w.arrivals
  }

  lemma {:induction false} OthersKeepOwn(env: Surroundings, w: World)
    ensures Own(OthersCommit(env, w)) == Own(w)
  {
  }

  lemma {:induction false} ReadingKeepsOwn(env: Surroundings, w: World, keys: seq<string>, i: nat, found: set<string>)
    requires i <= |keys|
    ensures Own(Existing(env, w, keys, i, found).0) == Own(w)
    decreases |keys| - i
  {
    if i < |keys| {
      var now := OthersCommit(env, w);
      ReadingKeepsOwn(env, now, keys, i + 1, if HasKey(now.rows, keys[i]) then found + {keys[i]} else found);
    }
  }

  lemma {:induction false} IngestAddsOne(env: Surroundings, w: World, item: NewItem)
    ensures var (after, r) := Ingested(env, w, item);
            Own(after) == Own(w) + (if r.Ok? then 1 else 0)
  {
    IngestIsTransaction(env, w, item);
    var (after, r) := Ingested(env, w, item);
    if r.Ok? { InsertAllAppends(w.rows, [r.value], 0); }
  }

  lemma {:induction false} BatchAddsAll(env: Surroundings, w: World, items: seq<NewItem>)
    ensures var (after, r) := IngestedMany(env, w, items);
            && Own(after) == Own(w) + (if r.Ok? then |items| else 0)
            && (r.Ok? ==> |r.value| == |items|)
  {
    IngestManyIsTransaction(env, w, items);
    var (after, r) := IngestedMany(env, w, items);
    if r.Ok? { InsertAllAppends(w.rows, r.value, 0); }
  }

  lemma {:induction false} ReplacementAddsOne(env: Surroundings, w: World, item: NewItem, target: ItemId)
    ensures var (after, r) := Replaced(env, w, item, target);
            Own(after) == Own(w) + (if r.Ok? then 1 else 0)
  {
    ReplaceIsTransaction(env, w, item, target);
  }

  lemma {:induction false} TriageOneConserves(env: Surroundings, existing: set<string>, dryRun: bool, t: Triage,
                                              item: NewItem)
    ensures var (next, failed) := TriageOne(env, existing, dryRun, t, item);
            failed.None? ==>
              && Accounted(next.report) + |next.unseen| == Accounted(t.report) + |t.unseen| + 1
              && Own(next.w) - Own(t.w) == (if dryRun then 0 else next.report.ingested - t.report.ingested)
              && next.report.skippedFiltered == t.report.skippedFiltered && next.report.failed == t.report.failed
  {
    var seen := OthersCommit(env, t.w);
    OthersKeepOwn(env, t.w);
    OthersKeepOwn(env, seen);
    if item.externalId.Some? {
      var holder := HolderOf(seen.rows, item.externalId.value);
      if holder.Some? { ReplacementAddsOne(env, OthersCommit(env, seen), item, holder.value.id); }
    }
  }

  lemma {:induction false} TriageConserves(env: Surroundings, existing: set<string>, dryRun: bool, t: Triage,
                                           items: seq<NewItem>, i: nat)
    requires i <= |items|
    ensures var (after, failed) := TriageFrom(env, existing, dryRun, t, items, i);
            failed.None? ==>
              && Accounted(after.report) + |after.unseen| == Accounted(t.report) + |t.unseen| + |items| - i
              && Own(after.w) - Own(t.w) == (if dryRun then 0 else after.report.ingested - t.report.ingested)
              && after.report.skippedFiltered == t.report.skippedFiltered && after.report.failed == t.report.failed
    decreases |items| - i
  {
    if i < |items| {
      var (next, failed) := TriageOne(env, existing, dryRun, t, items[i]);
      TriageOneConserves(env, existing, dryRun, t, items[i]);
      if failed.None? { TriageConserves(env, existing, dryRun, next, items, i + 1); }
    }
  }

  /** `n` items went from `p` to `q`: each is accounted for, and each written one is a row. */
  predicate Conserves(p: Progress, q: Progress, n: nat) {
    && Accounted(q.report) == Accounted(p.report) + n
    && Own(q.w) - Own(p.w) == q.report.ingested - p.report.ingested
    && q.report.skippedFiltered == p.report.skippedFiltered && q.report.failed >= p.report.failed
  }

  lemma {:induction false} EachConserves(env: Surroundings, p: Progress, batch: seq<NewItem>, i: nat)
    requires i <= |batch|
    ensures var (q, failed) := EachFrom(env, p, batch, i);
            failed.None? ==> Conserves(p, q, |batch| - i)
    decreases |batch| - i
  {
    if i < |batch| {
      OthersKeepOwn(env, p.w);
      IngestAddsOne(env, OthersCommit(env, p.w), batch[i]);
      var (next, failed) := EachOne(env, p, batch[i]);
      if failed.None? { EachConserves(env, next, batch, i + 1); }
    }
  }

  lemma {:induction false} RetryConserves(env: Surroundings, p: Progress, batch: seq<NewItem>)
    ensures var (q, failed) := Retried(env, p, batch);
            failed.None? ==> Conserves(p, q, |batch|)
  {
    var (seen, existing) := Existing(env, p.w, KeysOf(batch), 0, {});
    ReadingKeepsOwn(env, p.w, KeysOf(batch), 0, {});
    OthersKeepOwn(env, seen);
    BatchAddsAll(env, OthersCommit(env, seen), Without(batch, existing));
  }

  lemma {:induction false} BatchConserves(env: Surroundings, p: Progress, batch: seq<NewItem>)
    ensures var (q, failed) := BatchWritten(env, p, batch);
            failed.None? ==> Conserves(p, q, |batch|)
  {
    OthersKeepOwn(env, p.w);
    BatchAddsAll(env, OthersCommit(env, p.w), batch);
    var w := IngestedMany(env, OthersCommit(env, p.w), batch).0;
    RetryConserves(env, p.(w := w), batch);
    EachConserves(env, p.(w := w), batch, 0);
  }

  lemma {:induction false} BatchesConserve(env: Surroundings, p: Progress, unseen: seq<NewItem>)
    ensures var (q, failed) := BatchesWritten(env, p, unseen);
            failed.None? ==> Conserves(p, q, |unseen|)
    decreases |unseen|
  {
    if unseen != [] {
      var n := BatchLength(unseen);
      BatchConserves(env, p, unseen[..n]);
      var (next, failed) := BatchWritten(env, p, unseen[..n]);
      if failed.None? { BatchesConserve(env, next, unseen[n..]); }
    }
  }

  lemma {:induction false} TriagedConserves(env: Surroundings, w: World, source: Source, dryRun: bool)
    ensures var (t, stopped) := Triaged(env, w, source, dryRun);
            stopped.None? ==>
              && Accounted(t.report) + |t.unseen| == |source.results|
              && Own(t.w) == Own(w) + (if dryRun then 0 else t.report.ingested)
              && t.report.skippedFiltered == source.filtered && t.report.failed == Errors(source.results)
  {
    var items := Candidates(source, |source.results|);
    assert source.results[..|source.results|] == source.results;
    var (seen, existing) := Existing(env, w, KeysOf(items), 0, {});
    ReadingKeepsOwn(env, w, KeysOf(items), 0, {});
    TriageConserves(env, existing, dryRun, Triage(seen, StartReport(source), [], {}), items, 0);
  }

  /**
   Every run that returns `Ok`, with any other processes writing in between, accounts for each result
   the source yielded exactly once, and adds exactly the rows it counts as ingested; a dry run adds
   none.
   */
  lemma {:induction false} EveryResultIsCounted(env: Surroundings, w: World, source: Source, dryRun: bool)
    ensures var (after, r) := SourceIngested(env, w, source, dryRun);
            r.Ok? ==>
              && r.value.ingested + r.value.skippedExisting + r.value.failed == |source.results|
              && r.value.skippedFiltered == source.filtered
              && r.value.failed >= Errors(source.results) && (dryRun ==> r.value.failed == Errors(source.results))
              && |after.rows| == |w.rows| + (after.arrivals - w.arrivals) + (if dryRun then 0 else r.value.ingested)
  {
    TriagedConserves(env, w, source, dryRun);
    var (t, stopped) := Triaged(env, w, source, dryRun);
    if stopped.None? && !dryRun {
      var start := Progress(t.w, t.report);
      BatchesConserve(env, start, t.unseen);
      var (q, failed) := BatchesWritten(env, start, t.unseen);
      if failed.None? {
        assert Conserves(start, q, |t.unseen|);
        assert SourceIngested(env, w, source, dryRun) == (q.w, Ok(q.report));
      }
    }
  }

  /******* What is taken from the source *******/

  lemma {:induction false} ErrorsMeaning(results: seq<Result<NewItem, string>>)
    ensures Errors(results) == |set i: nat | i < |results| && results[i].Err?|
  {
    if results != [] {
      var front, n := results[..|results| - 1], |results| - 1;
      ErrorsMeaning(front);
      var before := set i: nat | i < n && front[i].Err?;
      assert (set i: nat | i < |results| && results[i].Err?) == if results[n].Err? then before + {n} else before;
    }
  }

  /**
   The readable inputs are the candidates, in the source's order; one without a scope gets the source's
   default, and nothing else about it changes.
   */
  lemma {:induction false} CandidateOf(source: Source, n: nat, i: nat)
    requires i < n <= |source.results| && source.results[i].Ok?
    ensures var item, k := source.results[i].value, i - Errors(source.results[..i]);
            && 0 <= k < |Candidates(source, n)|
            && (item.scope.Some? ==> Candidates(source, n)[k] == item)
            && (item.scope.None? ==> Candidates(source, n)[k] == item.(scope := source.defaultScope(item)))
  {
    if i == n - 1 {
      assert |Candidates(source, i)| == i - Errors(source.results[..i]);
    } else {
      CandidateOf(source, n - 1, i);
    }
  }

  /** Filtering after a conflict keeps, in order and however often they occur, the items whose key is not held. */
  lemma {:induction false} WithoutKeepsOrder(a: seq<NewItem>, item: NewItem, b: seq<NewItem>, existing: set<string>)
    ensures Without([], existing) == []
    ensures Without(a + [item] + b, existing)
         == Without(a, existing)
            + (match item.externalId case Some(key) => if key in existing then [] else [item] case None => [item])
            + Without(b, existing)
    decreases |b|
  {
    var whole := a + [item] + b;
    if b == [] {
      assert whole[..|whole| - 1] == a && whole[|whole| - 1] == item;
    } else {
      var front, last := b[..|b| - 1], b[|b| - 1];
      assert whole[..|whole| - 1] == a + [item] + front && whole[|whole| - 1] == last;
      WithoutKeepsOrder(a, item, front, existing);
    }
  }

  /** Five hundred items are written at a time, while there are more; then what is left, in one batch. */
  lemma {:induction false} FiveHundredAtATime(env: Surroundings, p: Progress, unseen: seq<NewItem>)
    ensures 0 < |unseen| <= 500 ==> BatchesWritten(env, p, unseen) == BatchWritten(env, p, unseen)
    ensures |unseen| > 500 ==>
              var (next, failed) := BatchWritten(env, p, unseen[..500]);
              BatchesWritten(env, p, unseen)
              == if failed.Some? then (next, failed) else BatchesWritten(env, next, unseen[500..])
  {
    if 0 < |unseen| <= 500 {
      assert unseen[..BatchLength(unseen)] == unseen && unseen[BatchLength(unseen)..] == [];
      var next := BatchWritten(env, p, unseen).0;
      assert BatchesWritten(env, next, []) == (next, None);
    }
  }
}
