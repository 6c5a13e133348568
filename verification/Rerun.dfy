/** Running a source again, whatever the clock read: exactly when the second run has nothing to do. */
module Rerun {
  import opened Wrappers
  import opened Items
  import opened Table
  import opened Store
  import opened Driver
  import opened Idempotence

  predicate IsModern(now: int) {
    Milliseconds(now) >= 0
  }

  /** Every reading of the clock from `from` to before `to` is `now`. */
  ghost predicate Steady(env: Surroundings, from: nat, to: nat, now: int) {
    forall n :: from <= n < to ==> env.clock(n) == now
  }

  ghost predicate EarlyBetween(env: Surroundings, from: nat, to: nat) {
    forall n :: from <= n < to ==> !IsModern(env.clock(n))
  }

  lemma {:induction false} EarlyParts(env: Surroundings, from: nat, mid: nat, to: nat)
    requires from <= mid <= to && EarlyBetween(env, from, to)
    ensures EarlyBetween(env, from, mid) && EarlyBetween(env, mid, to)
  {
  }

  predicate IsDangling(rows: seq<Row>, item: NewItem) {
    item.supersedes.Some? && !HasId(rows, item.supersedes.value)
  }

  /******* Writing under an early clock *******/

  /** The same store but for how often others had a turn and the clock was read. */
  predicate OnlyRead(before: World, after: World) {
    after == before.(turns := after.turns, ticks := after.ticks)
  }

  lemma {:induction false} EarlyOne(env: Surroundings, p: Progress, item: NewItem)
    requires Alone(env) && !env.readOnly && EarlyBetween(env, p.w.ticks, EachOne(env, p, item).0.w.ticks)
    ensures var (q, failed) := EachOne(env, p, item);
            failed.None? && OnlyRead(p.w, q.w) && q.report.ingested == p.report.ingested
  {
    AloneMeansQuiet(env, p.w);
    if IsValid(item) {
      var q := EachOne(env, p, item).0;
      FireNeverRewinds(env, OthersCommit(env, p.w), item);
      assert !IsModern(env.clock(p.w.ticks));
    }
  }

  /** A valid item has the clock read once. */
  lemma {:induction false} FireNeverRewinds(env: Surroundings, w: World, item: NewItem)
    requires !env.readOnly && IsValid(item)
    ensures Ingested(env, w, item).0.ticks == w.ticks + 1
  {
  }

  lemma {:induction false} EarlyEach(env: Surroundings, p: Progress, items: seq<NewItem>, i: nat)
    requires Alone(env) && !env.readOnly && i <= |items|
    requires EarlyBetween(env, p.w.ticks, EachFrom(env, p, items, i).0.w.ticks)
    ensures var (q, failed) := EachFrom(env, p, items, i);
            failed.None? && OnlyRead(p.w, q.w) && q.report.ingested == p.report.ingested
    decreases |items| - i
  {
    if i < |items| {
      var (next, failed) := EachOne(env, p, items[i]);
      EachOneTicks(env, p, items[i]);
      if failed.None? { EachTicks(env, next, items, i + 1); }
      EarlyParts(env, p.w.ticks, next.w.ticks, EachFrom(env, p, items, i).0.w.ticks);
      EarlyOne(env, p, items[i]);
      EarlyEach(env, next, items, i + 1);
    }
  }

  predicate AllValid(items: seq<NewItem>) {
    forall j :: 0 <= j < |items| ==> IsValid(items[j])
  }

  /** The batches that end a run under an early clock: the first item is looked at before the clock is. */
  predicate StopsEarly(env: Surroundings, rows: seq<Row>, batch: seq<NewItem>)
    requires batch != []
  {
    env.readOnly || (AllValid(batch) && IsDangling(rows, batch[0]))
  }

  lemma {:induction false} EarlyMany(env: Surroundings, w: World, batch: seq<NewItem>)
    requires batch != [] && EarlyBetween(env, w.ticks, IngestedMany(env, w, batch).0.ticks)
    ensures var (after, r) := IngestedMany(env, w, batch);
            && OnlyRead(w, after) && after.ticks >= w.ticks && r.Err?
            && (r.error.Invalid? <==> !StopsEarly(env, w.rows, batch)) && !r.error.ExternalIdConflict?
  {
    ValidationErrors(batch, 0, []);
    var validated := ValidateFrom([], batch, 0);
    if !env.readOnly && validated.Ok? {
      var now := env.clock(w.ticks);
      assert IngestedMany(env, w, batch).0.ticks == w.ticks + 1;
      assert !IsModern(now);
      assert InsertOne(env, now, Batch(w.rows, w.draws, []), batch[0], validated.value[0]).1.Some?;
    }
  }

  lemma {:induction false} EarlyBatch(env: Surroundings, p: Progress, batch: seq<NewItem>)
    requires Alone(env) && batch != [] && EarlyBetween(env, p.w.ticks, BatchWritten(env, p, batch).0.w.ticks)
    ensures var (q, failed) := BatchWritten(env, p, batch);
            && (failed.None? <==> !StopsEarly(env, p.w.rows, batch))
            && OnlyRead(p.w, q.w) && q.report.ingested == p.report.ingested
  {
    AloneMeansQuiet(env, p.w);
    var w := OthersCommit(env, p.w);
    var (after, r) := IngestedMany(env, w, batch);
    var q := BatchWritten(env, p, batch).0;
    assert after.ticks >= w.ticks;
    ExistingTicks(env, after, KeysOf(batch), 0, {});
    EachTicks(env, p.(w := after), batch, 0);
    EarlyParts(env, p.w.ticks, after.ticks, q.w.ticks);
    EarlyMany(env, w, batch);
    if r.error.Invalid? { EarlyEach(env, p.(w := after), batch, 0); }
  }

  predicate SomeStopsEarly(env: Surroundings, rows: seq<Row>, unseen: seq<NewItem>)
    decreases |unseen|
  {
    unseen != [] &&
      var n := BatchLength(unseen);
      StopsEarly(env, rows, unseen[..n]) || SomeStopsEarly(env, rows, unseen[n..])
  }

  /** Under an early clock nothing is written, and what ends the run does not depend on the clock. */
  lemma {:induction false} EarlyBatches(env: Surroundings, p: Progress, unseen: seq<NewItem>)
    requires Alone(env) && EarlyBetween(env, p.w.ticks, BatchesWritten(env, p, unseen).0.w.ticks)
    ensures var (q, failed) := BatchesWritten(env, p, unseen);
            && (failed.None? <==> !SomeStopsEarly(env, p.w.rows, unseen))
            && OnlyRead(p.w, q.w) && q.report.ingested == p.report.ingested
    decreases |unseen|
  {
    if unseen != [] {
      var n := BatchLength(unseen);
      var (next, failed) := BatchWritten(env, p, unseen[..n]);
      BatchTicks(env, p, unseen[..n]);
      if failed.None? { WritingTicks(env, next, unseen[n..]); }
      EarlyParts(env, p.w.ticks, next.w.ticks, BatchesWritten(env, p, unseen).0.w.ticks);
      EarlyBatch(env, p, unseen[..n]);
      if failed.None? { EarlyBatches(env, next, unseen[n..]); }
    }
  }

  /******* Triage under an early clock, and again *******/

  /** A replacement never gets through an early clock. */
  lemma {:induction false} EarlyPresent(env: Surroundings, t: Triage, item: NewItem, key: string)
    requires Alone(env) && TriagePresent(env, false, t, item, key).1.None?
    requires EarlyBetween(env, t.w.ticks, TriagePresent(env, false, t, item, key).0.w.ticks)
    ensures var next := TriagePresent(env, false, t, item, key).0;
            next.w == t.w.(turns := next.w.turns) && next.report.ingested == t.report.ingested
  {
    AloneMeansQuiet(env, t.w);
    var seen := OthersCommit(env, t.w);
    AloneMeansQuiet(env, seen);
    var holder := HolderOf(seen.rows, key);
    if holder.Some? && Differs(item, holder.value) {
      ReplacementReads(env, OthersCommit(env, seen), item, holder.value.id);
    }
  }

  lemma {:induction false} ReplacementReads(env: Surroundings, w: World, item: NewItem, target: ItemId)
    ensures var (after, r) := Replaced(env, w, item, target);
            r.Ok? ==> after.ticks == w.ticks + 1 && IsModern(env.clock(w.ticks))
  {
  }

  lemma {:induction false} EarlyTriage(env: Surroundings, existing: set<string>, t: Triage, items: seq<NewItem>, i: nat)
    requires Alone(env) && i <= |items| && TriageFrom(env, existing, false, t, items, i).1.None?
    requires EarlyBetween(env, t.w.ticks, TriageFrom(env, existing, false, t, items, i).0.w.ticks)
    ensures var after := TriageFrom(env, existing, false, t, items, i).0;
            after.w == t.w.(turns := after.w.turns) && after.report.ingested == t.report.ingested
    decreases |items| - i
  {
    if i < |items| {
      var next := TriageOne(env, existing, false, t, items[i]).0;
      TriageTicks(env, existing, false, next, items, i + 1);
      OneTriageTicks(env, existing, t, items[i]);
      EarlyParts(env, t.w.ticks, next.w.ticks, TriageFrom(env, existing, false, t, items, i).0.w.ticks);
      if items[i].externalId.Some? {
        var key := items[i].externalId.value;
        if key !in t.accepted && key in existing {
          EarlyPresent(env, t.(accepted := t.accepted + {key}), items[i], key);
        }
      }
      EarlyTriage(env, existing, next, items, i + 1);
    }
  }

  lemma {:induction false} OneTriageTicks(env: Surroundings, existing: set<string>, t: Triage, item: NewItem)
    ensures TriageOne(env, existing, false, t, item).0.w.ticks >= t.w.ticks
  {
  }

  lemma {:induction false} TriageNeverUncounts(env: Surroundings, existing: set<string>, t: Triage, items: seq<NewItem>,
                                               i: nat)
    requires i <= |items|
    ensures TriageFrom(env, existing, false, t, items, i).0.report.ingested >= t.report.ingested
    decreases |items| - i
  {
    if i < |items| {
      OneNeverUncounts(env, existing, t, items[i]);
      var (next, failed) := TriageOne(env, existing, false, t, items[i]);
      if failed.None? { TriageNeverUncounts(env, existing, next, items, i + 1); }
    }
  }

  lemma {:induction false} OneNeverUncounts(env: Surroundings, existing: set<string>, t: Triage, item: NewItem)
    ensures TriageOne(env, existing, false, t, item).0.report.ingested >= t.report.ingested
  {
  }

  /** Two points of triage that agree on everything a decision looks at. */
  predicate Alike(t: Triage, u: Triage) {
    t.w.rows == u.w.rows && t.unseen == u.unseen && t.accepted == u.accepted
  }

  lemma {:induction false} DecisionRepeats(env: Surroundings, existing: set<string>, t: Triage, u: Triage,
                                           item: NewItem)
    requires Alone(env) && Alike(t, u)
    requires var (next, failed) := TriageOne(env, existing, false, t, item);
             failed.None? && next.report.ingested == t.report.ingested
    ensures var (next, failed) := TriageOne(env, existing, false, u, item);
            && failed.None? && Alike(TriageOne(env, existing, false, t, item).0, next)
            && next.w == u.w.(turns := next.w.turns) && next.report.ingested == u.report.ingested
  {
    AloneMeansQuiet(env, t.w);
    AloneMeansQuiet(env, u.w);
  }

  /** A triage that replaced nothing goes the same way again over the same table, whatever the clock. */
  lemma {:induction false} IdleTriageRepeats(env: Surroundings, existing: set<string>, t: Triage, u: Triage,
                                             items: seq<NewItem>, i: nat)
    requires Alone(env) && Alike(t, u) && i <= |items|
    requires var (after, failed) := TriageFrom(env, existing, false, t, items, i);
             failed.None? && after.report.ingested == t.report.ingested
    ensures var (after, failed) := TriageFrom(env, existing, false, u, items, i);
            && failed.None? && after.unseen == TriageFrom(env, existing, false, t, items, i).0.unseen
            && after.w == u.w.(turns := after.w.turns) && after.report.ingested == u.report.ingested
    decreases |items| - i
  {
    if i < |items| {
      var next := TriageOne(env, existing, false, t, items[i]).0;
      OneNeverUncounts(env, existing, t, items[i]);
      TriageNeverUncounts(env, existing, next, items, i + 1);
      DecisionRepeats(env, existing, t, u, items[i]);
      IdleTriageRepeats(env, existing, next, TriageOne(env, existing, false, u, items[i]).0, items, i + 1);
    }
  }

  /** The same keys are found over the same table. */
  lemma {:induction false} FoundAgain(env: Surroundings, w: World, mid: World, keys: seq<string>)
    requires Alone(env) && w.rows == mid.rows
    ensures Existing(env, w, keys, 0, {}).1 == Existing(env, mid, keys, 0, {}).1
  {
    ExistingQuiet(env, w, keys, 0, {});
    ExistingQuiet(env, mid, keys, 0, {});
  }

  function Fresh(w: World, source: Source): seq<NewItem> {
    var items := Candidates(source, |source.results|);
    NewAmong(w.rows, items, |items|)
  }

  /** The halves of a run that returned `Ok` with every reading early: it wrote nothing. */
  lemma {:induction false} EarlyRun(env: Surroundings, w: World, source: Source)
    requires Alone(env) && Valid(w.rows) && SourceIngested(env, w, source, false).1.Ok?
    requires EarlyBetween(env, w.ticks, SourceIngested(env, w, source, false).0.ticks)
    ensures var t := Triaged(env, w, source, false).0;
            && t.w == w.(turns := t.w.turns) && t.report.ingested == 0 && t.unseen == Fresh(w, source)
    ensures OnlyRead(w, SourceIngested(env, w, source, false).0)
    ensures !SomeStopsEarly(env, w.rows, Fresh(w, source))
  {
    var items := Candidates(source, |source.results|);
    var (seen, existing) := Existing(env, w, KeysOf(items), 0, {});
    var start := Triage(seen, StartReport(source), [], {});
    var t := Triaged(env, w, source, false).0;
    StartIsSound(env, w, source);
    TriagedKeepsNew(env, w, source);
    TriageTicks(env, existing, false, start, items, 0);
    var p := Progress(t.w, t.report);
    WritingTicks(env, p, t.unseen);
    EarlyParts(env, w.ticks, t.w.ticks, SourceIngested(env, w, source, false).0.ticks);
    EarlyTriage(env, existing, start, items, 0);
    EarlyBatches(env, p, t.unseen);
  }

  /** After it, triage finds the same to do again. */
  lemma {:induction false} TriageAfterEarlyRun(env: Surroundings, w: World, source: Source)
    requires Alone(env) && Valid(w.rows) && SourceIngested(env, w, source, false).1.Ok?
    requires EarlyBetween(env, w.ticks, SourceIngested(env, w, source, false).0.ticks)
    ensures var mid := SourceIngested(env, w, source, false).0;
            var (u, stopped) := Triaged(env, mid, source, false);
            stopped.None? && u.w == mid.(turns := u.w.turns) && u.report.ingested == 0 && u.unseen == Fresh(w, source)
  {
    EarlyRun(env, w, source);
    var mid := SourceIngested(env, w, source, false).0;
    var items := Candidates(source, |source.results|);
    var (seen, existing) := Existing(env, w, KeysOf(items), 0, {});
    var (again, found) := Existing(env, mid, KeysOf(items), 0, {});
    FoundAgain(env, w, mid, KeysOf(items));
    StartIsSound(env, w, source);
    StartIsSound(env, mid, source);
    IdleTriageRepeats(env, existing, Triage(seen, StartReport(source), [], {}),
                      Triage(again, StartReport(source), [], {}), items, 0);
  }

  /******* Exactly when the second run has nothing to do *******/

  ghost predicate NothingDone(env: Surroundings, mid: World, source: Source) {
    var (after, second) := SourceIngested(env, mid, source, false);
    second.Ok? && second.value.ingested == 0 && after.rows == mid.rows
  }

  /** A candidate that belongs in the store and is not there. */
  predicate IsMissing(rows: seq<Row>, items: seq<NewItem>, j: nat)
    requires j < |items|
  {
    FirstWithKey(items, j) && !HasKey(rows, items[j].externalId.value) && IsValid(items[j])
  }

  predicate NoneMissing(rows: seq<Row>, source: Source) {
    var items := Candidates(source, |source.results|);
    forall j {:trigger IsMissing(rows, items, j)} :: 0 <= j < |items| ==> !IsMissing(rows, items, j)
  }

  lemma {:induction false} MissingIsNew(rows: seq<Row>, items: seq<NewItem>, j: nat)
    requires j < |items| && items[j].externalId.Some?
    ensures IsMissing(rows, items, j) <==> IsNew(rows, items, j) && IsValid(items[j])
  {
  }

  /** A valid candidate that is to be written is missing. */
  lemma {:induction false} FreshIsMissing(w: World, source: Source, item: NewItem)
    requires AllKeyed(source) && item in Fresh(w, source) && IsValid(item)
    ensures !NoneMissing(w.rows, source)
  {
    var items := Candidates(source, |source.results|);
    CandidatesKeepKeys(source, |source.results|);
    NewAmongMembers(w.rows, items, |items|, item);
    var j :| 0 <= j < |items| && IsNew(w.rows, items, j) && items[j] == item;
    MissingIsNew(w.rows, items, j);
  }

  lemma {:induction false} MissingIsFresh(w: World, source: Source, j: nat)
    requires j < |Candidates(source, |source.results|)| && IsMissing(w.rows, Candidates(source, |source.results|), j)
    ensures Candidates(source, |source.results|)[j] in Fresh(w, source)
  {
    var items := Candidates(source, |source.results|);
    MissingIsNew(w.rows, items, j);
    NewAmongMembers(w.rows, items, |items|, items[j]);
  }

  /** Early again: again nothing. */
  lemma {:induction false} EarlyAgain(env: Surroundings, w: World, source: Source)
    requires Alone(env) && Valid(w.rows) && SourceIngested(env, w, source, false).1.Ok?
    requires EarlyBetween(env, w.ticks, SourceIngested(env, w, source, false).0.ticks)
    requires var mid := SourceIngested(env, w, source, false).0;
             EarlyBetween(env, mid.ticks, SourceIngested(env, mid, source, false).0.ticks)
    ensures NothingDone(env, SourceIngested(env, w, source, false).0, source)
  {
    EarlyRun(env, w, source);
    TriageAfterEarlyRun(env, w, source);
    var mid := SourceIngested(env, w, source, false).0;
    var u := Triaged(env, mid, source, false).0;
    EarlyBatches(env, Progress(u.w, u.report), u.unseen);
  }

  /** A modern second run after an early first one does nothing exactly if nothing is missing. */
  lemma {:induction false} ModernAfterEarly(env: Surroundings, w: World, source: Source)
    requires Alone(env) && Valid(w.rows) && AllKeyed(source) && SourceIngested(env, w, source, false).1.Ok?
    requires EarlyBetween(env, w.ticks, SourceIngested(env, w, source, false).0.ticks)
    requires var mid := SourceIngested(env, w, source, false).0;
             ModernBetween(env, mid.ticks, SourceIngested(env, mid, source, false).0.ticks)
    ensures NothingDone(env, SourceIngested(env, w, source, false).0, source) <==> NoneMissing(w.rows, source)
  {
    EarlyRun(env, w, source);
    TriageAfterEarlyRun(env, w, source);
    var mid := SourceIngested(env, w, source, false).0;
    var t, u := Triaged(env, w, source, false).0, Triaged(env, mid, source, false).0;
    if NoneMissing(w.rows, source) {
      if t.unseen != [] { WritingNeedsAWritableStore(env, Progress(t.w, t.report), t.unseen); }
      forall j | 0 <= j < |u.unseen| ensures WillBeRefused(env, u.unseen[j]) {
        if IsValid(u.unseen[j]) { FreshIsMissing(w, source, u.unseen[j]); }
      }
      BatchesInvalid(env, Progress(u.w, u.report), u.unseen);
    } else if SourceIngested(env, mid, source, false).1.Ok? {
      MissingIsWritten(env, w, mid, source, u);
    }
  }

  lemma {:induction false} MissingIsWritten(env: Surroundings, w: World, mid: World, source: Source, u: Triage)
    requires Alone(env) && Valid(w.rows) && w.rows == mid.rows && AllKeyed(source) && !NoneMissing(w.rows, source)
    requires Triaged(env, mid, source, false) == (u, None) && u.w.rows == mid.rows && u.w.ticks == mid.ticks
    requires SourceIngested(env, mid, source, false).1.Ok?
    requires ModernBetween(env, mid.ticks, SourceIngested(env, mid, source, false).0.ticks)
    ensures SourceIngested(env, mid, source, false).0.rows != mid.rows
  {
    var items := Candidates(source, |source.results|);
    var j :| 0 <= j < |items| && IsMissing(w.rows, items, j);
    MissingIsFresh(w, source, j);
    TriagedTogether(env, mid, source);
    TriagedKeepsNew(env, mid, source);
    WrittenNovel(env, Progress(u.w, u.report), u.unseen);
    var after := SourceIngested(env, mid, source, false).0;
    var m :| 0 <= m < |u.unseen| && u.unseen[m] == items[j];
    assert HasKeyIfValid(after.rows, u.unseen[m]);
  }

  /**
   With the clock steady at `c1` during a first run that returned `Ok`, and at `c2` during the second,
   the second run has nothing to do exactly if `c1` is not before 1970, or `c2` is, or no candidate is
   missing from the store to begin with.
   */
  lemma {:induction false} WhenSecondRunDoesNothing(env: Surroundings, w: World, source: Source, c1: int, c2: int)
    requires Alone(env) && Valid(w.rows) && AllKeyed(source) && SourceIngested(env, w, source, false).1.Ok?
    requires Steady(env, w.ticks, SourceIngested(env, w, source, false).0.ticks, c1)
    requires var mid := SourceIngested(env, w, source, false).0;
             Steady(env, mid.ticks, SourceIngested(env, mid, source, false).0.ticks, c2)
    ensures NothingDone(env, SourceIngested(env, w, source, false).0, source) <==>
              IsModern(c1) || !IsModern(c2) || NoneMissing(w.rows, source)
  {
    if IsModern(c1) {
      SecondRunDoesNothing(env, w, source);
    } else if !IsModern(c2) {
      EarlyAgain(env, w, source);
    } else {
      ModernAfterEarly(env, w, source);
    }
  }
}
