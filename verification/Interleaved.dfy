/** What a run of the ingest driver guarantees while other processes commit whatever they like in between. */
module Interleaved {
  import opened Wrappers
  import opened Items
  import opened Table
  import opened Store
  import opened Driver
  import opened Idempotence

  /******* Where a key is held at some point of a run *******/

  /** At one of the point queries from the `i`-th on. */
  predicate HeldInQueries(env: Surroundings, w: World, keys: seq<string>, i: nat, key: string)
    decreases |keys| - i
  {
    i < |keys| &&
      var now := OthersCommit(env, w);
      HasKey(now.rows, key) || HeldInQueries(env, now, keys, i + 1, key)
  }

  /** Before or after one of the single writes from the `i`-th on. */
  predicate HeldInEach(env: Surroundings, p: Progress, batch: seq<NewItem>, i: nat, key: string)
    decreases |batch| - i
  {
    || HasKey(p.w.rows, key)
    || (i < |batch| &&
          var (next, failed) := EachOne(env, p, batch[i]);
          failed.None? && HeldInEach(env, next, batch, i + 1, key))
  }

  predicate HeldInRetry(env: Surroundings, p: Progress, batch: seq<NewItem>, key: string) {
    HeldInQueries(env, p.w, KeysOf(batch), 0, key) || HasKey(Retried(env, p, batch).0.w.rows, key)
  }

  predicate HeldInBatch(env: Surroundings, p: Progress, batch: seq<NewItem>, key: string) {
    var (w, r) := IngestedMany(env, OthersCommit(env, p.w), batch);
    match r
    case Ok(_) => HasKey(w.rows, key)
    case Err(ExternalIdConflict(_)) => HeldInRetry(env, p.(w := w), batch, key)
    case Err(Invalid(_)) => HeldInEach(env, p.(w := w), batch, 0, key)
    case Err(_) => false
  }

  predicate HeldInBatches(env: Surroundings, p: Progress, unseen: seq<NewItem>, key: string)
    decreases |unseen|
  {
    unseen != [] &&
      var n := BatchLength(unseen);
      var (next, failed) := BatchWritten(env, p, unseen[..n]);
      HeldInBatch(env, p, unseen[..n], key) || (failed.None? && HeldInBatches(env, next, unseen[n..], key))
  }

  /** At the first look for the keys, or while the new items are written. */
  predicate HeldInRun(env: Surroundings, w: World, source: Source, key: string) {
    var (t, stopped) := Triaged(env, w, source, false);
    || HeldInQueries(env, w, KeysOf(Candidates(source, |source.results|)), 0, key)
    || (stopped.None? && HeldInBatches(env, Progress(t.w, t.report), t.unseen, key))
  }

  lemma {:induction false} FoundMeansHeld(env: Surroundings, w: World, keys: seq<string>, i: nat, found: set<string>,
                                          key: string)
    requires i <= |keys|
    ensures key in Existing(env, w, keys, i, found).1 ==> key in found || HeldInQueries(env, w, keys, i, key)
    decreases |keys| - i
  {
    if i < |keys| {
      var now := OthersCommit(env, w);
      FoundMeansHeld(env, now, keys, i + 1, if HasKey(now.rows, keys[i]) then found + {keys[i]} else found, key);
    }
  }

  /******* Writing *******/

  predicate IsKeyed(item: NewItem, key: string) {
    item.externalId == Some(key)
  }

  /** A batch that goes in leaves the keys of all its items held. */
  lemma {:induction false} ManyHolds(env: Surroundings, w: World, items: seq<NewItem>, m: nat, key: string)
    requires m < |items| && IsKeyed(items[m], key) && IngestedMany(env, w, items).1.Ok?
    ensures HasKey(IngestedMany(env, w, items).0.rows, key)
  {
    var (after, r) := IngestedMany(env, w, items);
    var validated := ValidateFrom([], items, 0).value;
    IngestManyIsTransaction(env, w, items);
    InsertAllAppends(w.rows, r.value, 0);
    assert r.value[0..] == r.value;
    LoopMakes(env, env.clock(w.ticks), Batch(w.rows, w.draws, []), items, validated, 0);
    assert Made(r.value[m], items[m]);
    KeysAppend(w.rows, r.value, key);
  }

  lemma {:induction false} IngestHolds(env: Surroundings, w: World, item: NewItem, key: string)
    requires IsKeyed(item, key)
    ensures var (after, r) := Ingested(env, w, item);
            && (r.Ok? ==> HasKey(after.rows, key))
            && (r.Err? && r.error.Invalid? && ModernBetween(env, w.ticks, after.ticks) ==> !IsValid(item))
  {
    var (after, r) := Ingested(env, w, item);
    IngestIsTransaction(env, w, item);
    if r.Ok? {
      InsertAllAppends(w.rows, [r.value], 0);
      KeysAppend(w.rows, [r.value], key);
      assert [r.value][0].externalId == Some(key);
    } else if ModernBetween(env, w.ticks, after.ticks) && after.ticks > w.ticks {
      assert Milliseconds(env.clock(w.ticks)) >= 0;
    }
  }

  lemma {:induction false} EachOneHolds(env: Surroundings, p: Progress, item: NewItem, key: string)
    requires IsKeyed(item, key) && IsValid(item) && EachOne(env, p, item).1.None?
    requires ModernBetween(env, p.w.ticks, EachOne(env, p, item).0.w.ticks)
    ensures HasKey(EachOne(env, p, item).0.w.rows, key)
  {
    IngestHolds(env, OthersCommit(env, p.w), item, key);
  }

  lemma {:induction false} EachHolds(env: Surroundings, p: Progress, batch: seq<NewItem>, i: nat, m: nat, key: string)
    requires i <= m < |batch| && IsKeyed(batch[m], key) && IsValid(batch[m])
    requires EachFrom(env, p, batch, i).1.None?
    requires ModernBetween(env, p.w.ticks, EachFrom(env, p, batch, i).0.w.ticks)
    ensures HeldInEach(env, p, batch, i, key)
    decreases m - i
  {
    var next := EachOne(env, p, batch[i]).0;
    EachOneTicks(env, p, batch[i]);
    EachTicks(env, next, batch, i + 1);
    ModernParts(env, p.w.ticks, next.w.ticks, EachFrom(env, next, batch, i + 1).0.w.ticks);
    if i == m {
      EachOneHolds(env, p, batch[m], key);
    } else {
      EachHolds(env, next, batch, i + 1, m, key);
    }
  }

  lemma {:induction false} RetryHolds(env: Surroundings, p: Progress, batch: seq<NewItem>, m: nat, key: string)
    requires m < |batch| && IsKeyed(batch[m], key) && Retried(env, p, batch).1.None?
    ensures HeldInRetry(env, p, batch, key)
  {
    var (seen, existing) := Existing(env, p.w, KeysOf(batch), 0, {});
    FoundMeansHeld(env, p.w, KeysOf(batch), 0, {}, key);
    if key !in existing {
      WithoutMembers(batch, existing);
      var retry := Without(batch, existing);
      assert batch[m] in retry;
      var k :| 0 <= k < |retry| && retry[k] == batch[m];
      ManyHolds(env, OthersCommit(env, seen), retry, k, key);
    }
  }

  lemma {:induction false} BatchHolds(env: Surroundings, p: Progress, batch: seq<NewItem>, m: nat, key: string)
    requires m < |batch| && IsKeyed(batch[m], key) && IsValid(batch[m]) && BatchWritten(env, p, batch).1.None?
    requires ModernBetween(env, p.w.ticks, BatchWritten(env, p, batch).0.w.ticks)
    ensures HeldInBatch(env, p, batch, key)
  {
    var (w, r) := IngestedMany(env, OthersCommit(env, p.w), batch);
    match r
    case Ok(_) => ManyHolds(env, OthersCommit(env, p.w), batch, m, key);
    case Err(ExternalIdConflict(_)) => RetryHolds(env, p.(w := w), batch, m, key);
    case Err(Invalid(_)) =>
      assert w.ticks >= p.w.ticks;
      EachTicks(env, p.(w := w), batch, 0);
      ModernParts(env, p.w.ticks, w.ticks, EachFrom(env, p.(w := w), batch, 0).0.w.ticks);
      EachHolds(env, p.(w := w), batch, 0, m, key);
    case Err(_) =>
  }

  /** All batches go through and leave `q`, no time before 1970 being read. */
  ghost predicate AllGoThrough(env: Surroundings, p: Progress, unseen: seq<NewItem>, q: Progress) {
    BatchesWritten(env, p, unseen) == (q, None) && ModernBetween(env, p.w.ticks, q.w.ticks)
  }

  lemma {:induction false} FirstBatch(env: Surroundings, p: Progress, unseen: seq<NewItem>, q: Progress)
    returns (next: Progress)
    requires unseen != [] && AllGoThrough(env, p, unseen, q)
    ensures AllGoThrough(env, next, unseen[BatchLength(unseen)..], q)
    ensures BatchWritten(env, p, unseen[..BatchLength(unseen)]) == (next, None)
    ensures ModernBetween(env, p.w.ticks, next.w.ticks)
  {
    var n := BatchLength(unseen);
    next := BatchWritten(env, p, unseen[..n]).0;
    BatchTicks(env, p, unseen[..n]);
    WritingTicks(env, next, unseen[n..]);
    ModernParts(env, p.w.ticks, next.w.ticks, q.w.ticks);
  }

  lemma {:induction false} HeldLater(env: Surroundings, p: Progress, unseen: seq<NewItem>, next: Progress, key: string)
    requires unseen != [] && BatchWritten(env, p, unseen[..BatchLength(unseen)]) == (next, None)
    requires || HeldInBatch(env, p, unseen[..BatchLength(unseen)], key)
             || HeldInBatches(env, next, unseen[BatchLength(unseen)..], key)
    ensures HeldInBatches(env, p, unseen, key)
  {
  }

  lemma {:induction false} FirstBatchHolds(env: Surroundings, p: Progress, unseen: seq<NewItem>, next: Progress, m: nat,
                                           key: string)
    requires m < BatchLength(unseen) && IsKeyed(unseen[m], key) && IsValid(unseen[m])
    requires BatchWritten(env, p, unseen[..BatchLength(unseen)]) == (next, None)
    requires ModernBetween(env, p.w.ticks, next.w.ticks)
    ensures HeldInBatches(env, p, unseen, key)
  {
    BatchHolds(env, p, unseen[..BatchLength(unseen)], m, key);
    HeldLater(env, p, unseen, next, key);
  }

  lemma {:induction false} BatchesHold(env: Surroundings, p: Progress, unseen: seq<NewItem>, m: nat, key: string,
                                       q: Progress)
    requires m < |unseen| && IsKeyed(unseen[m], key) && IsValid(unseen[m]) && AllGoThrough(env, p, unseen, q)
    ensures HeldInBatches(env, p, unseen, key)
    decreases |unseen|
  {
    var n := BatchLength(unseen);
    var next := FirstBatch(env, p, unseen, q);
    if m < n {
      FirstBatchHolds(env, p, unseen, next, m, key);
    } else {
      BatchesHold(env, next, unseen[n..], m - n, key, q);
      HeldLater(env, p, unseen, next, key);
    }
  }

  /******* Triage *******/

  lemma {:induction false} OneTriageExtends(env: Surroundings, existing: set<string>, t: Triage, item: NewItem)
    ensures var next := TriageOne(env, existing, false, t, item).0;
            && t.unseen <= next.unseen
            && forall k :: k in next.accepted <==> k in t.accepted || item.externalId == Some(k)
  {
  }

  lemma {:induction false} TriageExtends(env: Surroundings, existing: set<string>, t: Triage, items: seq<NewItem>,
                                         i: nat)
    requires i <= |items|
    ensures t.unseen <= TriageFrom(env, existing, false, t, items, i).0.unseen
    decreases |items| - i
  {
    if i < |items| {
      var (next, failed) := TriageOne(env, existing, false, t, items[i]);
      OneTriageExtends(env, existing, t, items[i]);
      if failed.None? { TriageExtends(env, existing, next, items, i + 1); }
    }
  }

  lemma {:induction false} LastStays<T>(front: seq<T>, x: T, whole: seq<T>)
    requires front + [x] <= whole
    ensures x in whole
  {
    assert whole[|front|] == x;
  }

  /** The first candidate with a key that was not found is handed on to be written. */
  lemma {:induction false} TriageHandsOn(env: Surroundings, existing: set<string>, t: Triage, items: seq<NewItem>,
                                         i: nat, j: nat)
    requires i <= j < |items| && FirstWithKey(items, j) && items[j].externalId.value !in existing
    requires forall k :: k in t.accepted <==> Seen(items, i, k)
    requires TriageFrom(env, existing, false, t, items, i).1.None?
    ensures items[j] in TriageFrom(env, existing, false, t, items, i).0.unseen
    decreases j - i
  {
    var next := TriageOne(env, existing, false, t, items[i]).0;
    OneTriageExtends(env, existing, t, items[i]);
    if i == j {
      TriageExtends(env, existing, next, items, i + 1);
      LastStays(t.unseen, items[j], TriageFrom(env, existing, false, next, items, i + 1).0.unseen);
    } else {
      forall k ensures k in next.accepted <==> Seen(items, i + 1, k) { SeenStep(items, i, k); }
      TriageHandsOn(env, existing, next, items, i + 1, j);
    }
  }

  /******* A whole run *******/

  /**
   Whatever other processes commit before each of its reads and transactions, conflicts with them and the
   retries that follow included: a run that returns `Ok` and reads no time before 1970 has seen every
   valid candidate that is the first with its key held in the store, as found or as written by itself.
   */
  lemma {:induction false} OkRunHeldEveryKey(env: Surroundings, w: World, source: Source, j: nat)
    requires SourceIngested(env, w, source, false).1.Ok?
    requires ModernBetween(env, w.ticks, SourceIngested(env, w, source, false).0.ticks)
    requires var items := Candidates(source, |source.results|);
             j < |items| && FirstWithKey(items, j) && IsValid(items[j])
    ensures HeldInRun(env, w, source, Candidates(source, |source.results|)[j].externalId.value)
  {
    var items := Candidates(source, |source.results|);
    var key := items[j].externalId.value;
    var (seen, existing) := Existing(env, w, KeysOf(items), 0, {});
    var start := Triage(seen, StartReport(source), [], {});
    FoundMeansHeld(env, w, KeysOf(items), 0, {}, key);
    if key !in existing {
      TriageHandsOn(env, existing, start, items, 0, j);
      var t := Triaged(env, w, source, false).0;
      var m :| 0 <= m < |t.unseen| && t.unseen[m] == items[j];
      ExistingTicks(env, w, KeysOf(items), 0, {});
      TriageTicks(env, existing, false, start, items, 0);
      WritingTicks(env, Progress(t.w, t.report), t.unseen);
      ModernParts(env, w.ticks, t.w.ticks, SourceIngested(env, w, source, false).0.ticks);
      var p := Progress(t.w, t.report);
      BatchesHold(env, p, t.unseen, m, key, BatchesWritten(env, p, t.unseen).0);
    }
  }
}
