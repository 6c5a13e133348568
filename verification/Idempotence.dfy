/** Runs of the ingest driver while no other process writes: dry runs predict, and second runs do nothing. */
module Idempotence {
  import opened Wrappers
  import opened Items
  import opened Table
  import opened Store
  import opened Driver
  import DriverLaws

  ghost predicate Alone(env: Surroundings) {
    forall n :: env.others(n) == []
  }

  lemma {:induction false} AloneMeansQuiet(env: Surroundings, w: World)
    requires Alone(env)
    ensures OthersCommit(env, w) == w.(turns := w.turns + 1)
  {
    assert env.others(w.turns) == [];
  }

  /** Other processes commit nothing from a turn on. */
  ghost predicate QuietFrom(env: Surroundings, turn: nat) {
    forall n :: n >= turn ==> env.others(n) == []
  }

  lemma {:induction false} ExistingQuiet(env: Surroundings, w: World, keys: seq<string>, i: nat, found: set<string>)
    requires QuietFrom(env, w.turns) && i <= |keys|
    ensures var (after, existing) := Existing(env, w, keys, i, found);
            && after == w.(turns := after.turns) && after.turns >= w.turns
            && forall k :: k in existing <==>
                 k in found || (HasKey(w.rows, k) && exists j :: i <= j < |keys| && keys[j] == k)
    decreases |keys| - i
  {
    if i < |keys| {
      assert env.others(w.turns) == [];
      var now := OthersCommit(env, w);
      ExistingQuiet(env, now, keys, i + 1, if HasKey(now.rows, keys[i]) then found + {keys[i]} else found);
    }
  }

  /******* Who holds a key *******/

  lemma {:induction false} HolderIs(rows: seq<Row>, i: nat, key: string)
    requires UniqueKeys(rows) && i < |rows| && rows[i].externalId == Some(key)
    ensures HolderOf(rows, key) == Some(rows[i])
  {
  }

  lemma {:induction false} HolderIndex(rows: seq<Row>, key: string) returns (i: nat)
    requires HolderOf(rows, key).Some?
    ensures i < |rows| && HolderOf(rows, key) == Some(rows[i]) && rows[i].externalId == Some(key)
  {
    i := IndexOfKey(rows, 0, key).value;
  }

  lemma {:induction false} HolderStays(rows: seq<Row>, after: seq<Row>, key: string)
    requires rows <= after && UniqueKeys(after) && HasKey(rows, key)
    ensures HolderOf(after, key) == HolderOf(rows, key)
  {
    var i := HolderIndex(rows, key);
    HolderIs(after, i, key);
  }

  /** What replacing the holder of `key` does to the table. */
  lemma {:induction false} ReplacedRows(env: Surroundings, w: World, item: NewItem, key: string) returns (h: nat)
    requires Valid(w.rows) && HolderOf(w.rows, key).Some? && item.externalId == Some(key)
    requires Replaced(env, w, item, HolderOf(w.rows, key).value.id).1.Ok?
    ensures h < |w.rows| && w.rows[h].externalId == Some(key)
    ensures var (after, r) := Replaced(env, w, item, HolderOf(w.rows, key).value.id);
            && Valid(after.rows)
            && after.rows == w.rows[h := w.rows[h].(externalId := None)] + [r.value]
            && r.value.externalId == Some(key) && r.value.metadata == item.metadata
  {
    h := HolderIndex(w.rows, key);
    var target := w.rows[h].id;
    var (after, r) := Replaced(env, w, item, target);
    ReplaceIsTransaction(env, w, item, target);
    CommitKeepsValid(w.rows, Replacement(r.value, target));
    assert IndexOfId(w.rows, 0, target) == Some(h);
  }

  lemma {:induction false} ReplacedEffect(env: Surroundings, w: World, item: NewItem, key: string, k: string)
    requires Valid(w.rows) && HolderOf(w.rows, key).Some? && item.externalId == Some(key)
    requires Replaced(env, w, item, HolderOf(w.rows, key).value.id).1.Ok?
    ensures var (after, r) := Replaced(env, w, item, HolderOf(w.rows, key).value.id);
            && Valid(after.rows)
            && HolderOf(after.rows, key) == Some(r.value) && r.value.metadata == item.metadata
            && (k != key ==> HolderOf(after.rows, k) == HolderOf(w.rows, k))
            && (HasKey(after.rows, k) <==> HasKey(w.rows, k))
  {
    var h := ReplacedRows(env, w, item, key);
    var after := Replaced(env, w, item, HolderOf(w.rows, key).value.id).0;
    HolderIs(after.rows, |w.rows|, key);
    if k != key && HasKey(w.rows, k) {
      var i := HolderIndex(w.rows, k);
      HolderIs(after.rows, i, k);
    }
  }

  /******* Triage *******/

  predicate Seen(items: seq<NewItem>, i: nat, key: string)
    requires i <= |items|
  {
    exists j :: 0 <= j < i && items[j].externalId == Some(key)
  }

  predicate Unclaimed(rows: seq<Row>, item: NewItem) {
    item.externalId.Some? ==> !HasKey(rows, item.externalId.value)
  }

  /** No item's key is taken, by a row or by another item. */
  predicate Novel(rows: seq<Row>, items: seq<NewItem>, i: nat)
    requires i <= |items|
  {
    && (forall j :: i <= j < |items| ==> Unclaimed(rows, items[j]))
    && (forall j, k :: i <= j < k < |items| && items[j].externalId.Some? ==> items[j].externalId != items[k].externalId)
  }

  /** What holds after the first `i` candidates of a run that started with `rows`. */
  ghost predicate Sound(rows: seq<Row>, items: seq<NewItem>, i: nat, t: Triage)
    requires i <= |items|
  {
    && Valid(t.w.rows)
    && (forall k :: k in t.accepted <==> Seen(items, i, k))
    && (forall k :: HasKey(t.w.rows, k) <==> HasKey(rows, k))
    && (forall k :: k !in t.accepted ==> HolderOf(t.w.rows, k) == HolderOf(rows, k))
    && Novel(t.w.rows, t.unseen, 0)
    && (forall j :: 0 <= j < |t.unseen| && t.unseen[j].externalId.Some? ==> t.unseen[j].externalId.value in t.accepted)
  }

  ghost predicate Knows(existing: set<string>, rows: seq<Row>, items: seq<NewItem>) {
    forall k :: k in existing <==> HasKey(rows, k) && Seen(items, |items|, k)
  }

  lemma {:induction false} PresentStep(env: Surroundings, dryRun: bool, t: Triage, item: NewItem, key: string)
    requires Alone(env) && Valid(t.w.rows) && HasKey(t.w.rows, key) && item.externalId == Some(key)
    requires TriagePresent(env, dryRun, t, item, key).1.None?
    ensures var next := TriagePresent(env, dryRun, t, item, key).0;
            && Valid(next.w.rows) && next.accepted == t.accepted && next.unseen == t.unseen
            && (forall k :: HasKey(next.w.rows, k) <==> HasKey(t.w.rows, k))
            && (forall k :: k != key ==> HolderOf(next.w.rows, k) == HolderOf(t.w.rows, k))
            && (!dryRun ==> HolderOf(next.w.rows, key).Some? && !Differs(item, HolderOf(next.w.rows, key).value))
            && (dryRun ==> next.w == t.w.(turns := next.w.turns))
  {
    AloneMeansQuiet(env, t.w);
    var seen := OthersCommit(env, t.w);
    AloneMeansQuiet(env, seen);
    if !dryRun && Differs(item, HolderOf(seen.rows, key).value) {
      forall k
        ensures HasKey(TriagePresent(env, dryRun, t, item, key).0.w.rows, k) <==> HasKey(t.w.rows, k)
        ensures k != key ==> HolderOf(TriagePresent(env, dryRun, t, item, key).0.w.rows, k) == HolderOf(t.w.rows, k)
      {
        ReplacedEffect(env, OthersCommit(env, seen), item, key, k);
      }
      ReplacedEffect(env, OthersCommit(env, seen), item, key, key);
    }
  }

  lemma {:induction false} SeenStep(items: seq<NewItem>, i: nat, key: string)
    requires i < |items|
    ensures Seen(items, i + 1, key) <==> Seen(items, i, key) || items[i].externalId == Some(key)
  {
  }

  /** A candidate with a new key, or with none, joins those to be written. */
  lemma {:induction false} NovelStep(rows: seq<Row>, t: Triage, items: seq<NewItem>, i: nat, accepted: set<string>)
    requires i < |items| && Sound(rows, items, i, t) && Unclaimed(t.w.rows, items[i])
    requires items[i].externalId.Some? ==> items[i].externalId.value !in t.accepted
    requires accepted == if items[i].externalId.Some? then t.accepted + {items[i].externalId.value} else t.accepted
    ensures Sound(rows, items, i + 1, t.(unseen := t.unseen + [items[i]], accepted := accepted))
  {
    forall k ensures k in accepted <==> Seen(items, i + 1, k) { SeenStep(items, i, k); }
    var next := t.(unseen := t.unseen + [items[i]], accepted := accepted);
    assert Novel(t.w.rows, next.unseen, 0);
  }

  /** A candidate whose key was there, or was taken by an earlier candidate, leaves the rest alone. */
  lemma {:induction false} SettledStep(rows: seq<Row>, t: Triage, items: seq<NewItem>, i: nat, key: string,
                                       next: Triage)
    requires i < |items| && Sound(rows, items, i, t) && items[i].externalId == Some(key)
    requires Valid(next.w.rows) && next.accepted == t.accepted + {key} && next.unseen == t.unseen
    requires forall k :: HasKey(next.w.rows, k) <==> HasKey(t.w.rows, k)
    requires forall k :: k != key ==> HolderOf(next.w.rows, k) == HolderOf(t.w.rows, k)
    requires key in t.accepted ==> next.w == t.w
    ensures Sound(rows, items, i + 1, next)
  {
    forall k ensures k in next.accepted <==> Seen(items, i + 1, k) { SeenStep(items, i, k); }
    forall j | 0 <= j < |next.unseen| ensures Unclaimed(next.w.rows, next.unseen[j]) {
      assert Unclaimed(t.w.rows, t.unseen[j]);
    }
  }

  lemma {:induction false} TriageStep(env: Surroundings, existing: set<string>, dryRun: bool, rows: seq<Row>, t: Triage,
                                      items: seq<NewItem>, i: nat)
    requires Alone(env) && i < |items| && Knows(existing, rows, items) && Sound(rows, items, i, t)
    requires TriageOne(env, existing, dryRun, t, items[i]).1.None?
    ensures Sound(rows, items, i + 1, TriageOne(env, existing, dryRun, t, items[i]).0)
  {
    var item := items[i];
    if item.externalId.None? {
      NovelStep(rows, t, items, i, t.accepted);
    } else {
      var key := item.externalId.value;
      assert Seen(items, |items|, key);
      var accepting := t.(accepted := t.accepted + {key});
      if key in t.accepted {
        SettledStep(rows, t, items, i, key, Skip(t));
      } else if key !in existing {
        NovelStep(rows, t, items, i, accepting.accepted);
      } else {
        assert HasKey(t.w.rows, key);
        PresentStep(env, dryRun, accepting, item, key);
        SettledStep(rows, t, items, i, key, TriagePresent(env, dryRun, accepting, item, key).0);
      }
    }
  }

  lemma {:induction false} TriageIsSound(env: Surroundings, existing: set<string>, dryRun: bool, rows: seq<Row>,
                                         t: Triage, items: seq<NewItem>, i: nat)
    requires Alone(env) && i <= |items| && Knows(existing, rows, items) && Sound(rows, items, i, t)
    requires TriageFrom(env, existing, dryRun, t, items, i).1.None?
    ensures Sound(rows, items, |items|, TriageFrom(env, existing, dryRun, t, items, i).0)
    decreases |items| - i
  {
    if i < |items| {
      TriageStep(env, existing, dryRun, rows, t, items, i);
      TriageIsSound(env, existing, dryRun, rows, TriageOne(env, existing, dryRun, t, items[i]).0, items, i + 1);
    }
  }

  /******* Writing novel items *******/

  predicate Made(row: Row, item: NewItem) {
    row.externalId == item.externalId && row.metadata == item.metadata
  }

  /** The rows added are those of some items from `i` on. */
  predicate Stored(rows: seq<Row>, after: seq<Row>, items: seq<NewItem>, i: nat)
    requires i <= |items|
  {
    && rows <= after && Valid(after)
    && forall x :: |rows| <= x < |after| ==> exists j :: i <= j < |items| && Made(after[x], items[j])
  }

  predicate HasKeyIfValid(rows: seq<Row>, item: NewItem) {
    item.externalId.Some? && IsValid(item) ==> HasKey(rows, item.externalId.value)
  }

  /** Every valid item with a key is there. */
  predicate Landed(rows: seq<Row>, items: seq<NewItem>, i: nat)
    requires i <= |items|
  {
    forall j :: i <= j < |items| ==> HasKeyIfValid(rows, items[j])
  }

  lemma {:induction false} KeysAppend(rows: seq<Row>, more: seq<Row>, key: string)
    ensures HasKey(rows + more, key) <==>
              HasKey(rows, key) || exists j :: 0 <= j < |more| && more[j].externalId == Some(key)
  {
    var all := rows + more;
    if HasKey(rows, key) {
      assert all[IndexOfKey(rows, 0, key).value].externalId == Some(key);
    }
    if j :| 0 <= j < |more| && more[j].externalId == Some(key) {
      assert all[|rows| + j].externalId == Some(key);
    }
  }

  /** After one of them is stored the others are still novel. */
  lemma {:induction false} NovelAfterOne(rows: seq<Row>, items: seq<NewItem>, i: nat, row: Row)
    requires i < |items| && Novel(rows, items, i) && row.externalId == items[i].externalId
    ensures Novel(rows + [row], items, i + 1)
  {
    forall j | i < j < |items| ensures Unclaimed(rows + [row], items[j]) {
      assert Unclaimed(rows, items[j]);
      if items[j].externalId.Some? { KeysAppend(rows, [row], items[j].externalId.value); }
    }
  }

  predicate IsConflict(failed: Option<Error>) {
    failed.Some? && failed.value.ExternalIdConflict?
  }

  lemma {:induction false} NovelInsert(env: Surroundings, now: int, batch: Batch, items: seq<NewItem>,
                                       validated: seq<Validated>, i: nat)
    requires i <= |items| == |validated| && Novel(batch.rows, items, i)
    ensures !IsConflict(InsertLoop(env, now, batch, items, validated, i).1)
    decreases |items| - i
  {
    if i < |items| {
      assert Unclaimed(batch.rows, items[i]);
      var (next, failed) := InsertOne(env, now, batch, items[i], validated[i]);
      if failed.None? {
        NovelAfterOne(batch.rows, items, i, next.made[|next.made| - 1]);
        NovelInsert(env, now, next, items, validated, i + 1);
      }
    }
  }

  lemma {:induction false} LoopMakes(env: Surroundings, now: int, batch: Batch, items: seq<NewItem>,
                                     validated: seq<Validated>, i: nat)
    requires i <= |items| == |validated| && InsertLoop(env, now, batch, items, validated, i).1.None?
    ensures var made := InsertLoop(env, now, batch, items, validated, i).0.made;
            && batch.made <= made && |made| == |batch.made| + |items| - i
            && forall j :: i <= j < |items| ==> Made(made[|batch.made| + j - i], items[j])
    decreases |items| - i
  {
    InsertLoopExtends(env, now, batch, items, validated, i);
    if i < |items| {
      var next := InsertOne(env, now, batch, items[i], validated[i]).0;
      LoopMakes(env, now, next, items, validated, i + 1);
      var made := InsertLoop(env, now, batch, items, validated, i).0.made;
      assert made[|batch.made|] == next.made[|batch.made|];
    }
  }

  lemma {:induction false} BatchOfNovel(env: Surroundings, w: World, items: seq<NewItem>)
    requires Valid(w.rows) && Novel(w.rows, items, 0)
    ensures var (after, r) := IngestedMany(env, w, items);
            && !(r.Err? && r.error.ExternalIdConflict?)
            && (r.Ok? ==> Stored(w.rows, after.rows, items, 0) && Landed(after.rows, items, 0))
            && (r.Err? ==> after.rows == w.rows)
  {
    var (after, r) := IngestedMany(env, w, items);
    IngestManyIsTransaction(env, w, items);
    var validated := ValidateFrom([], items, 0);
    ValidationErrors(items, 0, []);
    if validated.Ok? {
      NovelInsert(env, env.clock(w.ticks), Batch(w.rows, w.draws, []), items, validated.value, 0);
    }
    if r.Ok? {
      LoopMakes(env, env.clock(w.ticks), Batch(w.rows, w.draws, []), items, validated.value, 0);
      CommitKeepsValid(w.rows, Inserts(r.value));
      StoredAll(w.rows, r.value, items, after.rows);
    }
  }

  lemma {:induction false} StoredAll(rows: seq<Row>, made: seq<Row>, items: seq<NewItem>, after: seq<Row>)
    requires InsertAll(rows, made, 0) == Ok(after) && Valid(after)
    requires |made| == |items| && forall j :: 0 <= j < |items| ==> Made(made[j], items[j])
    ensures Stored(rows, after, items, 0) && Landed(after, items, 0)
  {
    InsertAllAppends(rows, made, 0);
    assert after == rows + made;
    forall x | |rows| <= x < |after| ensures exists j :: 0 <= j < |items| && Made(after[x], items[j]) {
      assert Made(after[x], items[x - |rows|]);
    }
    forall j | 0 <= j < |items| ensures HasKeyIfValid(after, items[j]) {
      assert Made(made[j], items[j]);
      if items[j].externalId.Some? { KeysAppend(rows, made, items[j].externalId.value); }
    }
  }

  /** A rule broken is the only way validation fails. */
  lemma {:induction false} ValidationErrors(items: seq<NewItem>, i: nat, done: seq<Validated>)
    requires i <= |items|
    ensures var r := ValidateFrom(done, items, i); r.Err? ==> r.error.Invalid?
    decreases |items| - i
  {
    if i < |items| && IsValid(items[i]) {
      ValidationErrors(items, i + 1, done + [Validate(items[i]).value]);
    }
  }

  /** None of the clock's readings from `from` to before `to` lies before 1970. */
  ghost predicate ModernBetween(env: Surroundings, from: nat, to: nat) {
    forall n :: from <= n < to ==> Milliseconds(env.clock(n)) >= 0
  }

  lemma {:induction false} ExistingTicks(env: Surroundings, w: World, keys: seq<string>, i: nat, found: set<string>)
    requires i <= |keys|
    ensures Existing(env, w, keys, i, found).0.ticks == w.ticks
    decreases |keys| - i
  {
    if i < |keys| {
      var now := OthersCommit(env, w);
      ExistingTicks(env, now, keys, i + 1, if HasKey(now.rows, keys[i]) then found + {keys[i]} else found);
    }
  }

  lemma {:induction false} EachOneTicks(env: Surroundings, p: Progress, item: NewItem)
    ensures EachOne(env, p, item).0.w.ticks >= p.w.ticks
  {
  }

  lemma {:induction false} EachTicks(env: Surroundings, p: Progress, items: seq<NewItem>, i: nat)
    requires i <= |items|
    ensures EachFrom(env, p, items, i).0.w.ticks >= p.w.ticks
    decreases |items| - i
  {
    if i < |items| {
      EachOneTicks(env, p, items[i]);
      var (next, failed) := EachOne(env, p, items[i]);
      if failed.None? { EachTicks(env, next, items, i + 1); }
    }
  }

  lemma {:induction false} BatchTicks(env: Surroundings, p: Progress, batch: seq<NewItem>)
    ensures BatchWritten(env, p, batch).0.w.ticks >= p.w.ticks
  {
    var w := IngestedMany(env, OthersCommit(env, p.w), batch).0;
    assert w.ticks >= p.w.ticks;
    ExistingTicks(env, w, KeysOf(batch), 0, {});
    EachTicks(env, p.(w := w), batch, 0);
  }

  /** Writing only moves the clock forward. */
  lemma {:induction false} WritingTicks(env: Surroundings, p: Progress, unseen: seq<NewItem>)
    ensures BatchesWritten(env, p, unseen).0.w.ticks >= p.w.ticks
    decreases |unseen|
  {
    if unseen != [] {
      var n := BatchLength(unseen);
      BatchTicks(env, p, unseen[..n]);
      var (next, failed) := BatchWritten(env, p, unseen[..n]);
      if failed.None? { WritingTicks(env, next, unseen[n..]); }
    }
  }

  lemma {:induction false} TriageTicks(env: Surroundings, existing: set<string>, dryRun: bool, t: Triage,
                                       items: seq<NewItem>, i: nat)
    requires i <= |items|
    ensures TriageFrom(env, existing, dryRun, t, items, i).0.w.ticks >= t.w.ticks
    decreases |items| - i
  {
    if i < |items| {
      var (next, failed) := TriageOne(env, existing, dryRun, t, items[i]);
      if failed.None? { TriageTicks(env, existing, dryRun, next, items, i + 1); }
    }
  }

  lemma {:induction false} ModernParts(env: Surroundings, from: nat, mid: nat, to: nat)
    requires from <= mid <= to
    ensures ModernBetween(env, from, to) ==> ModernBetween(env, from, mid) && ModernBetween(env, mid, to)
  {
  }

  /** Storing one novel item: only a clock before 1970 can refuse a valid one as if it broke a rule. */
  lemma {:induction false} OneOfNovel(env: Surroundings, w: World, item: NewItem)
    requires Valid(w.rows) && Unclaimed(w.rows, item)
    ensures var (after, r) := Ingested(env, w, item);
            && (r.Ok? ==> Made(r.value, item) && after.rows == w.rows + [r.value] && Valid(after.rows))
            && (r.Err? ==> after.rows == w.rows)
            && (r.Err? && r.error.Invalid? && ModernBetween(env, w.ticks, after.ticks) ==> !IsValid(item))
  {
    var (after, r) := Ingested(env, w, item);
    IngestIsTransaction(env, w, item);
    if r.Ok? {
      InsertAllAppends(w.rows, [r.value], 0);
      CommitKeepsValid(w.rows, Inserts([r.value]));
    } else if ModernBetween(env, w.ticks, after.ticks) && after.ticks > w.ticks {
      assert Milliseconds(env.clock(w.ticks)) >= 0;
    }
  }

  lemma {:induction false} EachOneNovel(env: Surroundings, p: Progress, item: NewItem) returns (row: Option<Row>)
    requires Alone(env) && Valid(p.w.rows) && Unclaimed(p.w.rows, item) && EachOne(env, p, item).1.None?
    ensures var q := EachOne(env, p, item).0;
            match row
            case Some(made) => Made(made, item) && q.w.rows == p.w.rows + [made] && Valid(q.w.rows)
            case None => q.w.rows == p.w.rows && (ModernBetween(env, p.w.ticks, q.w.ticks) ==> !IsValid(item))
  {
    AloneMeansQuiet(env, p.w);
    var w := OthersCommit(env, p.w);
    OneOfNovel(env, w, item);
    var r := Ingested(env, w, item).1;
    row := if r.Ok? then Some(r.value) else None;
  }

  lemma {:induction false} EachOfNovel(env: Surroundings, p: Progress, items: seq<NewItem>, i: nat)
    requires Alone(env) && i <= |items| && Valid(p.w.rows) && Novel(p.w.rows, items, i)
    requires EachFrom(env, p, items, i).1.None?
    ensures var q := EachFrom(env, p, items, i).0;
            && Stored(p.w.rows, q.w.rows, items, i)
            && (ModernBetween(env, p.w.ticks, q.w.ticks) ==> Landed(q.w.rows, items, i))
    decreases |items| - i
  {
    if i < |items| {
      assert Unclaimed(p.w.rows, items[i]);
      var row := EachOneNovel(env, p, items[i]);
      var next := EachOne(env, p, items[i]).0;
      if row.Some? { NovelAfterOne(p.w.rows, items, i, row.value); }
      EachOfNovel(env, next, items, i + 1);
      var q := EachFrom(env, next, items, i + 1).0;
      if row.Some? { StoredOne(p.w.rows, row.value, q.w.rows, items, i); }
      EachTicks(env, next, items, i + 1);
      EachOneTicks(env, p, items[i]);
      ModernParts(env, p.w.ticks, next.w.ticks, q.w.ticks);
    }
  }

  lemma {:induction false} EachSkipsNone(env: Surroundings, p: Progress, items: seq<NewItem>, i: nat)
    requires i <= |items|
    ensures EachFrom(env, p, items, i).0.report.skippedExisting == p.report.skippedExisting
    decreases |items| - i
  {
    if i < |items| {
      var (next, failed) := EachOne(env, p, items[i]);
      if failed.None? { EachSkipsNone(env, next, items, i + 1); }
    }
  }

  lemma {:induction false} StoredOne(rows: seq<Row>, row: Row, after: seq<Row>, items: seq<NewItem>, i: nat)
    requires i < |items| && Made(row, items[i]) && Stored(rows + [row], after, items, i + 1)
    ensures Stored(rows, after, items, i) && HasKeyIfValid(after, items[i])
  {
    assert after[|rows|] == (rows + [row])[|rows|];
    assert after[|rows|].externalId == items[i].externalId;
  }

  lemma {:induction false} BatchWrittenNovel(env: Surroundings, p: Progress, batch: seq<NewItem>)
    requires Alone(env) && Valid(p.w.rows) && Novel(p.w.rows, batch, 0)
    requires BatchWritten(env, p, batch).1.None?
    ensures var q := BatchWritten(env, p, batch).0;
            && Stored(p.w.rows, q.w.rows, batch, 0) && q.report.skippedExisting == p.report.skippedExisting
            && (ModernBetween(env, p.w.ticks, q.w.ticks) ==> Landed(q.w.rows, batch, 0))
  {
    AloneMeansQuiet(env, p.w);
    var w := OthersCommit(env, p.w);
    BatchOfNovel(env, w, batch);
    var (after, r) := IngestedMany(env, w, batch);
    if r.Err? && r.error.Invalid? {
      EachOfNovel(env, p.(w := after), batch, 0);
      EachSkipsNone(env, p.(w := after), batch, 0);
    }
  }

  /** A key found after storing was there before, or is one of the items'. */
  lemma {:induction false} StoredKeys(rows: seq<Row>, after: seq<Row>, items: seq<NewItem>, i: nat, key: string)
    requires i <= |items| && Stored(rows, after, items, i)
    ensures HasKey(after, key) ==> HasKey(rows, key) || exists j :: i <= j < |items| && items[j].externalId == Some(key)
  {
    if HasKey(after, key) {
      var x := HolderIndex(after, key);
      if x < |rows| {
        assert rows[x] == after[x];
      } else {
        var j :| i <= j < |items| && Made(after[x], items[j]);
      }
    }
  }

  /** Once the first part is stored, the rest is still novel. */
  lemma {:induction false} NovelAfterPart(rows: seq<Row>, mid: seq<Row>, items: seq<NewItem>, n: nat)
    requires n <= |items| && Novel(rows, items, 0) && Stored(rows, mid, items[..n], 0)
    ensures Novel(mid, items[n..], 0)
  {
    var rest := items[n..];
    forall j | 0 <= j < |rest| ensures Unclaimed(mid, rest[j]) {
      assert rest[j] == items[n + j] && Unclaimed(rows, items[n + j]);
      if rest[j].externalId.Some? {
        StoredKeys(rows, mid, items[..n], 0, rest[j].externalId.value);
        assert forall k :: 0 <= k < n ==> items[..n][k] == items[k];
      }
    }
  }

  lemma {:induction false} StoredParts(rows: seq<Row>, mid: seq<Row>, after: seq<Row>, items: seq<NewItem>, n: nat)
    requires n <= |items| && Stored(rows, mid, items[..n], 0) && Stored(mid, after, items[n..], 0)
    ensures Stored(rows, after, items, 0)
    ensures Landed(mid, items[..n], 0) && Landed(after, items[n..], 0) ==> Landed(after, items, 0)
  {
    forall x | |rows| <= x < |after| ensures exists j :: 0 <= j < |items| && Made(after[x], items[j]) {
      if x < |mid| {
        assert after[x] == mid[x];
        var j :| 0 <= j < n && Made(mid[x], items[..n][j]);
        assert Made(after[x], items[j]);
      } else {
        var j :| 0 <= j < |items| - n && Made(after[x], items[n..][j]);
        assert Made(after[x], items[n + j]);
      }
    }
    if Landed(mid, items[..n], 0) && Landed(after, items[n..], 0) {
      forall j | 0 <= j < |items| ensures HasKeyIfValid(after, items[j]) {
        if j < n {
          assert HasKeyIfValid(mid, items[..n][j]);
          if items[j].externalId.Some? && HasKey(mid, items[j].externalId.value) {
            HolderStays(mid, after, items[j].externalId.value);
          }
        } else {
          assert HasKeyIfValid(after, items[n..][j - n]);
        }
      }
    }
  }

  lemma {:induction false} WrittenNovel(env: Surroundings, p: Progress, unseen: seq<NewItem>)
    requires Alone(env) && Valid(p.w.rows) && Novel(p.w.rows, unseen, 0)
    requires BatchesWritten(env, p, unseen).1.None?
    ensures var q := BatchesWritten(env, p, unseen).0;
            && Stored(p.w.rows, q.w.rows, unseen, 0) && q.report.skippedExisting == p.report.skippedExisting
            && (ModernBetween(env, p.w.ticks, q.w.ticks) ==> Landed(q.w.rows, unseen, 0))
    decreases |unseen|
  {
    if unseen != [] {
      var n := BatchLength(unseen);
      BatchWrittenNovel(env, p, unseen[..n]);
      var next := BatchWritten(env, p, unseen[..n]).0;
      NovelAfterPart(p.w.rows, next.w.rows, unseen, n);
      WrittenNovel(env, next, unseen[n..]);
      var q := BatchesWritten(env, next, unseen[n..]).0;
      StoredParts(p.w.rows, next.w.rows, q.w.rows, unseen, n);
      BatchTicks(env, p, unseen[..n]);
      WritingTicks(env, next, unseen[n..]);
      ModernParts(env, p.w.ticks, next.w.ticks, q.w.ticks);
    }
  }

  /******* A dry run tells what the real run will do *******/

  lemma {:induction false} KeysMeaning(items: seq<NewItem>, key: string)
    ensures key in KeysOf(items) <==> Seen(items, |items|, key)
  {
    if items != [] {
      var front := items[..|items| - 1];
      KeysMeaning(front, key);
      SeenStep(items, |front|, key);
      assert Seen(front, |front|, key) <==> Seen(items, |front|, key) by {
        assert forall j :: 0 <= j < |front| ==> front[j] == items[j];
      }
    }
  }

  /** How a run starts. */
  lemma {:induction false} StartIsSound(env: Surroundings, w: World, source: Source)
    requires Alone(env) && Valid(w.rows)
    ensures var items := Candidates(source, |source.results|);
            var (seen, existing) := Existing(env, w, KeysOf(items), 0, {});
            && seen == w.(turns := seen.turns) && Knows(existing, w.rows, items)
            && Sound(w.rows, items, 0, Triage(seen, StartReport(source), [], {}))
  {
    var items := Candidates(source, |source.results|);
    var existing := Existing(env, w, KeysOf(items), 0, {}).1;
    ExistingQuiet(env, w, KeysOf(items), 0, {});
    forall k ensures k in existing <==> HasKey(w.rows, k) && Seen(items, |items|, k) {
      KeysMeaning(items, k);
    }
  }

  predicate InStep(dry: Triage, wet: Triage) {
    dry.report == wet.report && dry.unseen == wet.unseen && dry.accepted == wet.accepted
  }

  lemma {:induction false} DryTriageOnlyReads(env: Surroundings, existing: set<string>, t: Triage, items: seq<NewItem>,
                                              i: nat)
    requires Alone(env) && i <= |items|
    ensures var (after, failed) := TriageFrom(env, existing, true, t, items, i);
            failed.None? && after.w == t.w.(turns := after.w.turns)
    decreases |items| - i
  {
    if i < |items| {
      AloneMeansQuiet(env, t.w);
      DryTriageOnlyReads(env, existing, TriageOne(env, existing, true, t, items[i]).0, items, i + 1);
    }
  }

  lemma {:induction false} StepTogether(env: Surroundings, existing: set<string>, rows: seq<Row>, dry: Triage,
                                        wet: Triage, items: seq<NewItem>, i: nat)
    requires Alone(env) && i < |items| && Sound(rows, items, i, wet) && InStep(dry, wet) && dry.w.rows == rows
    requires TriageOne(env, existing, false, wet, items[i]).1.None?
    ensures InStep(TriageOne(env, existing, true, dry, items[i]).0, TriageOne(env, existing, false, wet, items[i]).0)
    ensures TriageOne(env, existing, true, dry, items[i]).0.w.rows == rows
  {
    AloneMeansQuiet(env, dry.w);
    AloneMeansQuiet(env, wet.w);
  }

  lemma {:induction false} TriageTogether(env: Surroundings, existing: set<string>, rows: seq<Row>, dry: Triage,
                                          wet: Triage, items: seq<NewItem>, i: nat)
    requires Alone(env) && i <= |items| && Knows(existing, rows, items)
    requires Sound(rows, items, i, wet) && InStep(dry, wet) && dry.w.rows == rows
    requires TriageFrom(env, existing, false, wet, items, i).1.None?
    ensures InStep(TriageFrom(env, existing, true, dry, items, i).0, TriageFrom(env, existing, false, wet, items, i).0)
    decreases |items| - i
  {
    if i < |items| {
      DryTriageOnlyReads(env, existing, dry, items, i);
      StepTogether(env, existing, rows, dry, wet, items, i);
      TriageStep(env, existing, false, rows, wet, items, i);
      TriageTogether(env, existing, rows, TriageOne(env, existing, true, dry, items[i]).0,
                     TriageOne(env, existing, false, wet, items[i]).0, items, i + 1);
    }
  }

  /** The triage halves of the two runs agree. */
  lemma {:induction false} TriagedTogether(env: Surroundings, w: World, source: Source)
    requires Alone(env) && Valid(w.rows)
    ensures Triaged(env, w, source, true).1.None?
    ensures Triaged(env, w, source, true).0.w == w.(turns := Triaged(env, w, source, true).0.w.turns)
    ensures Triaged(env, w, source, false).1.None? ==>
              && InStep(Triaged(env, w, source, true).0, Triaged(env, w, source, false).0)
              && Sound(w.rows, Candidates(source, |source.results|), |Candidates(source, |source.results|)|,
                       Triaged(env, w, source, false).0)
  {
    var items := Candidates(source, |source.results|);
    var (seen, existing) := Existing(env, w, KeysOf(items), 0, {});
    var start := Triage(seen, StartReport(source), [], {});
    StartIsSound(env, w, source);
    DryTriageOnlyReads(env, existing, start, items, 0);
    if Triaged(env, w, source, false).1.None? {
      TriageTogether(env, existing, w.rows, start, start, items, 0);
      TriageIsSound(env, existing, false, w.rows, start, items, 0);
    }
  }

  /** The real run skips no more than its triage did. */
  lemma {:induction false} RealSkips(env: Surroundings, w: World, source: Source)
    requires Alone(env) && Valid(w.rows) && SourceIngested(env, w, source, false).1.Ok?
    ensures var t := Triaged(env, w, source, false).0;
            && Triaged(env, w, source, false).1.None?
            && SourceIngested(env, w, source, false).1.value.skippedExisting == t.report.skippedExisting
  {
    TriagedTogether(env, w, source);
    var t := Triaged(env, w, source, false).0;
    WrittenNovel(env, Progress(t.w, t.report), t.unseen);
  }

  /**
   With no other writer, a dry run succeeds, changes nothing, and its counts are the real run's: the
   same items are skipped, and what it counts as ingested is what the real run ingests plus what the
   real run finds broken.
   */
  lemma {:induction false} DryRunPredicts(env: Surroundings, w: World, source: Source)
    requires Alone(env) && Valid(w.rows)
    ensures var (untouched, dry) := SourceIngested(env, w, source, true);
            var wet := SourceIngested(env, w, source, false).1;
            && dry.Ok? && untouched == w.(turns := untouched.turns)
            && (wet.Ok? ==>
                  && dry.value.skippedExisting == wet.value.skippedExisting
                  && dry.value.skippedFiltered == wet.value.skippedFiltered
                  && dry.value.failed <= wet.value.failed
                  && dry.value.ingested == wet.value.ingested + (wet.value.failed - dry.value.failed))
  {
    TriagedTogether(env, w, source);
    DriverLaws.EveryResultIsCounted(env, w, source, true);
    if SourceIngested(env, w, source, false).1.Ok? {
      DriverLaws.EveryResultIsCounted(env, w, source, false);
      RealSkips(env, w, source);
    }
  }

  /******* A second run finds nothing to do *******/

  predicate FirstWithKey(items: seq<NewItem>, j: nat)
    requires j < |items|
  {
    items[j].externalId.Some? && !Seen(items, j, items[j].externalId.value)
  }

  /** The store holds what it will ever hold of the item: its current version, or nothing as it is invalid. */
  predicate Settled(env: Surroundings, rows: seq<Row>, item: NewItem) {
    item.externalId.Some? ==>
      match HolderOf(rows, item.externalId.value)
      case Some(holder) => !Differs(item, holder)
      case None => !IsValid(item) && !env.readOnly
  }

  predicate UpToDate(rows: seq<Row>, item: NewItem) {
    item.externalId.Some? &&
      match HolderOf(rows, item.externalId.value)
      case Some(holder) => !Differs(item, holder)
      case None => false
  }

  predicate Decided(t: Triage, item: NewItem) {
    item in t.unseen || UpToDate(t.w.rows, item)
  }

  predicate AllDecided(t: Triage, items: seq<NewItem>, i: nat)
    requires i <= |items|
  {
    forall j {:trigger FirstWithKey(items, j)} :: 0 <= j < i && FirstWithKey(items, j) ==> Decided(t, items[j])
  }

  predicate AllSettled(env: Surroundings, rows: seq<Row>, items: seq<NewItem>) {
    forall j {:trigger FirstWithKey(items, j)} :: 0 <= j < |items| && FirstWithKey(items, j) ==>
      Settled(env, rows, items[j])
  }

  lemma {:induction false} DecidedStays(t: Triage, next: Triage, item: NewItem)
    requires Decided(t, item) && t.unseen <= next.unseen && item.externalId.Some?
    requires HolderOf(next.w.rows, item.externalId.value) == HolderOf(t.w.rows, item.externalId.value)
    ensures Decided(next, item)
  {
    if item in t.unseen {
      var m :| 0 <= m < |t.unseen| && t.unseen[m] == item;
      assert next.unseen[m] == item;
    }
  }

  /** What one candidate's decision means for it and for the other keys. */
  lemma {:induction false} DecideOne(env: Surroundings, existing: set<string>, rows: seq<Row>, t: Triage,
                                     items: seq<NewItem>, i: nat)
    requires Alone(env) && i < |items| && Knows(existing, rows, items) && Sound(rows, items, i, t)
    requires TriageOne(env, existing, false, t, items[i]).1.None?
    ensures var next := TriageOne(env, existing, false, t, items[i]).0;
            && t.unseen <= next.unseen && (FirstWithKey(items, i) ==> Decided(next, items[i]))
            && forall k :: k in t.accepted ==> HolderOf(next.w.rows, k) == HolderOf(t.w.rows, k)
  {
    var item := items[i];
    if item.externalId.Some? && item.externalId.value !in t.accepted && item.externalId.value in existing {
      var key := item.externalId.value;
      PresentStep(env, false, t.(accepted := t.accepted + {key}), item, key);
    }
  }

  lemma {:induction false} DecidedStep(env: Surroundings, existing: set<string>, rows: seq<Row>, t: Triage,
                                       items: seq<NewItem>, i: nat)
    requires Alone(env) && i < |items| && Knows(existing, rows, items) && Sound(rows, items, i, t)
    requires AllDecided(t, items, i)
    requires TriageOne(env, existing, false, t, items[i]).1.None?
    ensures AllDecided(TriageOne(env, existing, false, t, items[i]).0, items, i + 1)
  {
    DecideOne(env, existing, rows, t, items, i);
    forall j | 0 <= j < i && FirstWithKey(items, j)
      ensures Decided(TriageOne(env, existing, false, t, items[i]).0, items[j])
    {
      assert Seen(items, i, items[j].externalId.value);
      DecidedStays(t, TriageOne(env, existing, false, t, items[i]).0, items[j]);
    }
  }

  lemma {:induction false} TriageDecides(env: Surroundings, existing: set<string>, rows: seq<Row>, t: Triage,
                                         items: seq<NewItem>, i: nat)
    requires Alone(env) && i <= |items| && Knows(existing, rows, items) && Sound(rows, items, i, t)
    requires AllDecided(t, items, i)
    requires TriageFrom(env, existing, false, t, items, i).1.None?
    ensures AllDecided(TriageFrom(env, existing, false, t, items, i).0, items, |items|)
    decreases |items| - i
  {
    if i < |items| {
      DecidedStep(env, existing, rows, t, items, i);
      TriageStep(env, existing, false, rows, t, items, i);
      TriageDecides(env, existing, rows, TriageOne(env, existing, false, t, items[i]).0, items, i + 1);
    }
  }

  lemma {:induction false} PrefixAt(rows: seq<Row>, after: seq<Row>, x: nat)
    requires rows <= after && x < |after|
    ensures x < |rows| ==> rows[x] == after[x]
  {
  }

  lemma {:induction false} WritingSettles(env: Surroundings, rows: seq<Row>, after: seq<Row>, unseen: seq<NewItem>,
                                          m: nat)
    requires m < |unseen| && Novel(rows, unseen, 0) && !env.readOnly
    requires Stored(rows, after, unseen, 0) && Landed(after, unseen, 0)
    ensures Settled(env, after, unseen[m])
  {
    assert Unclaimed(rows, unseen[m]) && HasKeyIfValid(after, unseen[m]);
    if unseen[m].externalId.Some? && HasKey(after, unseen[m].externalId.value) {
      var x := HolderIndex(after, unseen[m].externalId.value);
      PrefixAt(rows, after, x);
      var k :| 0 <= k < |unseen| && Made(after[x], unseen[k]);
      assert k == m;
    }
  }

  lemma {:induction false} DecidedThenSettled(env: Surroundings, t: Triage, after: seq<Row>, item: NewItem)
    requires Decided(t, item) && Novel(t.w.rows, t.unseen, 0) && (t.unseen != [] ==> !env.readOnly)
    requires Stored(t.w.rows, after, t.unseen, 0) && Landed(after, t.unseen, 0)
    ensures Settled(env, after, item)
  {
    if item in t.unseen {
      var m :| 0 <= m < |t.unseen| && t.unseen[m] == item;
      WritingSettles(env, t.w.rows, after, t.unseen, m);
    } else {
      HolderStays(t.w.rows, after, item.externalId.value);
    }
  }

  lemma {:induction false} WritingNeedsAWritableStore(env: Surroundings, p: Progress, unseen: seq<NewItem>)
    requires unseen != [] && BatchesWritten(env, p, unseen).1.None?
    ensures !env.readOnly
  {
  }

  /** After a run that returns `Ok`, the first item with each key is settled. */
  lemma {:induction false} RunSettles(env: Surroundings, w: World, source: Source)
    requires Alone(env) && Valid(w.rows) && SourceIngested(env, w, source, false).1.Ok?
    requires ModernBetween(env, w.ticks, SourceIngested(env, w, source, false).0.ticks)
    ensures var after := SourceIngested(env, w, source, false).0;
            Valid(after.rows) && AllSettled(env, after.rows, Candidates(source, |source.results|))
  {
    var items := Candidates(source, |source.results|);
    var (seen, existing) := Existing(env, w, KeysOf(items), 0, {});
    var start := Triage(seen, StartReport(source), [], {});
    StartIsSound(env, w, source);
    TriageIsSound(env, existing, false, w.rows, start, items, 0);
    TriageDecides(env, existing, w.rows, start, items, 0);
    var t := Triaged(env, w, source, false).0;
    TriageTicks(env, existing, false, start, items, 0);
    WrittenNovel(env, Progress(t.w, t.report), t.unseen);
    if t.unseen != [] { WritingNeedsAWritableStore(env, Progress(t.w, t.report), t.unseen); }
    var after := SourceIngested(env, w, source, false).0;
    forall j | 0 <= j < |items| && FirstWithKey(items, j) ensures Settled(env, after.rows, items[j]) {
      DecidedThenSettled(env, t, after.rows, items[j]);
    }
  }

  /** Nothing has been written since `before`, and what is left over will be refused. */
  predicate Idle(env: Surroundings, before: Triage, t: Triage) {
    && t.w == before.w.(turns := t.w.turns) && t.report.ingested == before.report.ingested
    && forall j :: 0 <= j < |t.unseen| ==> WillBeRefused(env, t.unseen[j])
  }

  predicate WillBeRefused(env: Surroundings, item: NewItem) {
    !IsValid(item) && !env.readOnly
  }

  ghost predicate AtRest(env: Surroundings, items: seq<NewItem>, i: nat, before: Triage, t: Triage)
    requires i <= |items|
  {
    Sound(before.w.rows, items, i, t) && Idle(env, before, t)
  }

  lemma {:induction false} SettledItem(env: Surroundings, existing: set<string>, t: Triage, items: seq<NewItem>, i: nat,
                                       before: Triage)
    requires i < |items| && Knows(existing, before.w.rows, items) && AtRest(env, items, i, before, t)
    requires AllSettled(env, before.w.rows, items) && items[i].externalId.Some?
    requires items[i].externalId.value !in t.accepted
    ensures items[i].externalId.value in existing ==> UpToDate(t.w.rows, items[i])
    ensures items[i].externalId.value !in existing ==> WillBeRefused(env, items[i])
  {
    var key := items[i].externalId.value;
    assert Seen(items, |items|, key);
    assert FirstWithKey(items, i) && Settled(env, before.w.rows, items[i]);
  }

  lemma {:induction false} IdleStep(env: Surroundings, existing: set<string>, t: Triage, items: seq<NewItem>, i: nat,
                                    before: Triage)
    requires Alone(env) && i < |items| && Knows(existing, before.w.rows, items) && AtRest(env, items, i, before, t)
    requires AllSettled(env, before.w.rows, items) && items[i].externalId.Some?
    ensures var (next, failed) := TriageOne(env, existing, false, t, items[i]);
            failed.None? && Idle(env, before, next)
  {
    AloneMeansQuiet(env, t.w);
    if items[i].externalId.value !in t.accepted { SettledItem(env, existing, t, items, i, before); }
  }

  lemma {:induction false} RestStep(env: Surroundings, existing: set<string>, t: Triage, items: seq<NewItem>, i: nat,
                                    before: Triage)
    returns (next: Triage)
    requires Alone(env) && i < |items| && Knows(existing, before.w.rows, items) && AtRest(env, items, i, before, t)
    requires AllSettled(env, before.w.rows, items) && items[i].externalId.Some?
    ensures TriageOne(env, existing, false, t, items[i]) == (next, None) && AtRest(env, items, i + 1, before, next)
  {
    IdleStep(env, existing, t, items, i, before);
    TriageStep(env, existing, false, before.w.rows, t, items, i);
    next := TriageOne(env, existing, false, t, items[i]).0;
  }

  lemma {:induction false} SettledTriage(env: Surroundings, existing: set<string>, t: Triage, items: seq<NewItem>,
                                         i: nat, before: Triage)
    requires Alone(env) && i <= |items| && Knows(existing, before.w.rows, items) && AtRest(env, items, i, before, t)
    requires AllSettled(env, before.w.rows, items)
    requires forall j :: 0 <= j < |items| ==> items[j].externalId.Some?
    ensures var (after, failed) := TriageFrom(env, existing, false, t, items, i);
            failed.None? && Idle(env, before, after)
    decreases |items| - i
  {
    if i < |items| {
      var next := RestStep(env, existing, t, items, i, before);
      SettledTriage(env, existing, next, items, i + 1, before);
    }
  }

  lemma {:induction false} EachInvalid(env: Surroundings, p: Progress, batch: seq<NewItem>, i: nat)
    requires Alone(env) && i <= |batch| && forall j :: 0 <= j < |batch| ==> WillBeRefused(env, batch[j])
    ensures var (q, failed) := EachFrom(env, p, batch, i);
            failed.None? && q.w == p.w.(turns := q.w.turns) && q.report.ingested == p.report.ingested
    decreases |batch| - i
  {
    if i < |batch| {
      AloneMeansQuiet(env, p.w);
      EachInvalid(env, EachOne(env, p, batch[i]).0, batch, i + 1);
    }
  }

  lemma {:induction false} BatchesInvalid(env: Surroundings, p: Progress, unseen: seq<NewItem>)
    requires Alone(env) && forall j :: 0 <= j < |unseen| ==> WillBeRefused(env, unseen[j])
    ensures var (q, failed) := BatchesWritten(env, p, unseen);
            failed.None? && q.w == p.w.(turns := q.w.turns) && q.report.ingested == p.report.ingested
    decreases |unseen|
  {
    if unseen != [] {
      assert WillBeRefused(env, unseen[0]);
      var n := BatchLength(unseen);
      var batch := unseen[..n];
      assert batch[0] == unseen[0];
      AloneMeansQuiet(env, p.w);
      ValidationErrors(batch, 0, []);
      EachInvalid(env, p.(w := OthersCommit(env, p.w)), batch, 0);
      BatchesInvalid(env, BatchWritten(env, p, batch).0, unseen[n..]);
    }
  }

  lemma {:induction false} CandidatesKeepKeys(source: Source, n: nat)
    requires n <= |source.results|
    requires AllKeyed(source)
    ensures forall j :: 0 <= j < |Candidates(source, n)| ==> Candidates(source, n)[j].externalId.Some?
  {
    if n > 0 { CandidatesKeepKeys(source, n - 1); }
  }

  /** A run over settled items does nothing. */
  lemma {:induction false} SettledRunIsIdle(env: Surroundings, w: World, source: Source)
    requires Alone(env) && Valid(w.rows)
    requires var items := Candidates(source, |source.results|);
             AllSettled(env, w.rows, items) && forall j :: 0 <= j < |items| ==> items[j].externalId.Some?
    ensures var (after, r) := SourceIngested(env, w, source, false);
            r.Ok? && r.value.ingested == 0 && after == w.(turns := after.turns)
  {
    var items := Candidates(source, |source.results|);
    var (seen, existing) := Existing(env, w, KeysOf(items), 0, {});
    var start := Triage(seen, StartReport(source), [], {});
    StartIsSound(env, w, source);
    SettledTriage(env, existing, start, items, 0, start);
    var t := Triaged(env, w, source, false).0;
    BatchesInvalid(env, Progress(t.w, t.report), t.unseen);
  }

  /** Every item the source yields carries an external id. */
  predicate AllKeyed(source: Source) {
    forall i :: 0 <= i < |source.results| && source.results[i].Ok? ==> source.results[i].value.externalId.Some?
  }

  /**
   Running the same source again after a run that returned `Ok` returns `Ok`, ingests nothing, and
   leaves the table, the hooks, the clock and the random stream where they were, for any mix of
   duplicates, changed or missing hashes and invalid items, as long as every item carries an external
   id, no other process writes, and the first run did not read the clock before 1970.
   */
  lemma {:induction false} SecondRunDoesNothing(env: Surroundings, w: World, source: Source)
    requires Alone(env) && Valid(w.rows) && AllKeyed(source)
    requires ModernBetween(env, w.ticks, SourceIngested(env, w, source, false).0.ticks)
    ensures var (mid, first) := SourceIngested(env, w, source, false);
            var (after, second) := SourceIngested(env, mid, source, false);
            first.Ok? ==> second.Ok? && second.value.ingested == 0 && after == mid.(turns := after.turns)
  {
    var (mid, first) := SourceIngested(env, w, source, false);
    if first.Ok? {
      RunSettles(env, w, source);
      CandidatesKeepKeys(source, |source.results|);
      SettledRunIsIdle(env, mid, source);
    }
  }

  /**
   The clock matters: whenever the first run reads it before 1970 and the second does not, a valid new
   item counts as failed at first and is written by the second run.
   */
  lemma {:induction false} EarlyClockDefersItems(env: Surroundings, w: World, item: NewItem, key: string)
    requires Alone(env) && !env.readOnly && Valid(w.rows) && IsValid(item)
    requires item.externalId == Some(key) && !HasKey(w.rows, key) && item.supersedes.None? && item.scope.Some?
    requires IsStorable(item.content)
    requires Milliseconds(env.clock(w.ticks)) < 0 && Milliseconds(env.clock(w.ticks + 1)) < 0
    requires var id := MintId(env.clock(w.ticks + 2), env.random(w.draws)); id.Some? && !HasId(w.rows, id.value)
    ensures var source := Source([Ok(item)], 0, (_: NewItem) => None);
            var (mid, first) := SourceIngested(env, w, source, false);
            var (after, second) := SourceIngested(env, mid, source, false);
            && first == Ok(Report(0, 0, 0, 1)) && mid.rows == w.rows
            && second == Ok(Report(1, 0, 0, 0)) && |after.rows| == |w.rows| + 1
  {
    var source := Source([Ok(item)], 0, (_: NewItem) => None);
    NewItemTriage(env, w, source, item, key);
    var t := Triaged(env, w, source, false).0;
    EarlyWrite(env, Progress(t.w, t.report), item);
    var mid := SourceIngested(env, w, source, false).0;
    NewItemTriage(env, mid, source, item, key);
    var u := Triaged(env, mid, source, false).0;
    ModernWrite(env, Progress(u.w, u.report), item, key);
  }

  lemma {:induction false} NewItemStart(source: Source, item: NewItem)
    requires source.results == [Ok(item)] && item.scope.Some?
    ensures Candidates(source, |source.results|) == [item] && Errors(source.results) == 0
  {
    assert source.results[..0] == [];
    assert Candidates(source, 0) == [];
  }

  lemma {:induction false} NewItemTriage(env: Surroundings, w: World, source: Source, item: NewItem, key: string)
    requires Alone(env) && source.results == [Ok(item)] && item.scope.Some? && item.externalId == Some(key)
    requires !HasKey(w.rows, key)
    ensures var (t, failed) := Triaged(env, w, source, false);
            && failed.None? && t.w == w.(turns := t.w.turns) && t.unseen == [item]
            && t.report == Report(0, 0, source.filtered, 0)
  {
    NewItemStart(source, item);
    ExistingQuiet(env, w, KeysOf([item]), 0, {});
    var (seen, existing) := Existing(env, w, KeysOf([item]), 0, {});
    var start := Triage(seen, StartReport(source), [], {});
    var next := TriageOne(env, existing, false, start, item).0;
    assert key !in existing;
    assert TriageFrom(env, existing, false, start, [item], 0) == TriageFrom(env, existing, false, next, [item], 1);
  }

  lemma {:induction false} EarlyWrite(env: Surroundings, p: Progress, item: NewItem)
    requires Alone(env) && !env.readOnly && IsValid(item) && item.supersedes.None?
    requires Milliseconds(env.clock(p.w.ticks)) < 0 && Milliseconds(env.clock(p.w.ticks + 1)) < 0
    ensures var (q, failed) := BatchesWritten(env, p, [item]);
            && failed.None? && q.report == p.report.(failed := p.report.failed + 1)
            && q.w == p.w.(turns := q.w.turns, ticks := p.w.ticks + 2)
  {
    var batch := [item];
    assert batch[..1] == batch && batch[1..] == [];
    AloneMeansQuiet(env, p.w);
    var w := OthersCommit(env, p.w);
    var refused := IngestedMany(env, w, batch);
    assert refused == (w.(ticks := w.ticks + 1), Err(Invalid("internal:timestamp")));
    AloneMeansQuiet(env, refused.0);
    var (q, failed) := EachOne(env, p.(w := refused.0), item);
    assert EachFrom(env, p.(w := refused.0), batch, 0) == EachFrom(env, q, batch, 1);
  }

  lemma {:induction false} ModernWrite(env: Surroundings, p: Progress, item: NewItem, key: string)
    requires Alone(env) && !env.readOnly && IsValid(item) && item.supersedes.None? && item.externalId == Some(key)
    requires !HasKey(p.w.rows, key) && IsStorable(item.content)
    requires var id := MintId(env.clock(p.w.ticks), env.random(p.w.draws)); id.Some? && !HasId(p.w.rows, id.value)
    ensures var (q, failed) := BatchesWritten(env, p, [item]);
            && failed.None? && q.report == p.report.(ingested := p.report.ingested + 1)
            && |q.w.rows| == |p.w.rows| + 1
  {
    var batch := [item];
    assert batch[..1] == batch && batch[1..] == [];
    AloneMeansQuiet(env, p.w);
    var w := OthersCommit(env, p.w);
    var validated := ValidateFrom([], batch, 0).value;
    var start := Batch(w.rows, w.draws, []);
    var (next, failed) := InsertOne(env, env.clock(w.ticks), start, item, validated[0]);
    assert InsertLoop(env, env.clock(w.ticks), start, batch, validated, 0)
        == InsertLoop(env, env.clock(w.ticks), next, batch, validated, 1);
    assert IngestedMany(env, w, batch).1.Ok?;
  }

  /******* The retry after a conflict *******/

  lemma {:induction false} FilteredIsNovel(rows: seq<Row>, batch: seq<NewItem>, existing: set<string>)
    requires forall j, k :: 0 <= j < k < |batch| && batch[j].externalId.Some? ==>
               batch[j].externalId != batch[k].externalId
    requires forall j :: 0 <= j < |batch| && batch[j].externalId.Some? && HasKey(rows, batch[j].externalId.value) ==>
               batch[j].externalId.value in existing
    ensures Novel(rows, Without(batch, existing), 0)
  {
    if batch != [] {
      var front, last := batch[..|batch| - 1], batch[|batch| - 1];
      FilteredIsNovel(rows, front, existing);
      WithoutMembers(front, existing);
      var kept := Without(front, existing);
      forall j | 0 <= j < |kept| && kept[j].externalId.Some? ensures kept[j].externalId != last.externalId {
        assert kept[j] in front;
        var k :| 0 <= k < |front| && front[k] == kept[j];
        assert batch[k] == front[k];
      }
    }
  }

  /**
   A batch of distinct keys that lost a race is filtered again and tried once more: unless yet another
   process commits in between, the second try cannot conflict, and what was filtered out is exactly
   what the store holds by then.
   */
  lemma {:induction false} RetryResolvesConflict(env: Surroundings, p: Progress, batch: seq<NewItem>)
    requires QuietFrom(env, p.w.turns) && Valid(p.w.rows)
    requires forall j, k :: 0 <= j < k < |batch| && batch[j].externalId.Some? ==>
               batch[j].externalId != batch[k].externalId
    ensures !IsConflict(Retried(env, p, batch).1)
    ensures var existing := Existing(env, p.w, KeysOf(batch), 0, {}).1;
            forall item :: item in batch && item !in Without(batch, existing) <==>
              item in batch && !Unclaimed(p.w.rows, item)
  {
    var (seen, existing) := Existing(env, p.w, KeysOf(batch), 0, {});
    ExistingQuiet(env, p.w, KeysOf(batch), 0, {});
    forall k ensures k in existing <==> HasKey(p.w.rows, k) && Seen(batch, |batch|, k) { KeysMeaning(batch, k); }
    FilteredIsNovel(p.w.rows, batch, existing);
    WithoutMembers(batch, existing);
    forall item | item in batch && item.externalId.Some?
      ensures item.externalId.value in existing <==> HasKey(p.w.rows, item.externalId.value)
    {
      var j :| 0 <= j < |batch| && batch[j] == item;
    }
    assert env.others(seen.turns) == [];
    BatchOfNovel(env, OthersCommit(env, seen), Without(batch, existing));
  }

  /******* What triage leaves to write *******/

  /** A candidate to be written as a new row: without a key, or the first with a key nobody holds. */
  predicate IsNew(rows: seq<Row>, items: seq<NewItem>, j: nat)
    requires j < |items|
  {
    items[j].externalId.None? || (FirstWithKey(items, j) && !HasKey(rows, items[j].externalId.value))
  }

  /** A candidate to replace a row: the first with a key whose holder has a different hash. */
  predicate IsChanged(rows: seq<Row>, items: seq<NewItem>, j: nat)
    requires j < |items|
  {
    FirstWithKey(items, j) &&
      match HolderOf(rows, items[j].externalId.value)
      case None => false
      case Some(holder) => Differs(items[j], holder)
  }

  /** The new candidates among the first `i`, in order. */
  function NewAmong(rows: seq<Row>, items: seq<NewItem>, i: nat): seq<NewItem>
    requires i <= |items|
  {
    if i == 0 then []
    else NewAmong(rows, items, i - 1) + (if IsNew(rows, items, i - 1) then [items[i - 1]] else [])
  }

  lemma {:induction false} NewAmongMembers(rows: seq<Row>, items: seq<NewItem>, i: nat, item: NewItem)
    requires i <= |items|
    ensures item in NewAmong(rows, items, i) <==> exists j :: 0 <= j < i && IsNew(rows, items, j) && items[j] == item
  {
    if i > 0 { NewAmongMembers(rows, items, i - 1, item); }
  }

  lemma {:induction false} NewStep(env: Surroundings, existing: set<string>, dryRun: bool, rows: seq<Row>, t: Triage,
                                   items: seq<NewItem>, i: nat)
    requires Alone(env) && i < |items| && Knows(existing, rows, items) && Sound(rows, items, i, t)
    requires t.unseen == NewAmong(rows, items, i)
    ensures TriageOne(env, existing, dryRun, t, items[i]).1.None? ==>
              TriageOne(env, existing, dryRun, t, items[i]).0.unseen == NewAmong(rows, items, i + 1)
  {
    var item := items[i];
    if item.externalId.Some? {
      assert Seen(items, |items|, item.externalId.value);
      assert FirstWithKey(items, i) <==> item.externalId.value !in t.accepted;
    }
  }

  /** What triage hands on is exactly the new candidates, in order. */
  lemma {:induction false} TriageKeepsNew(env: Surroundings, existing: set<string>, dryRun: bool, rows: seq<Row>,
                                          t: Triage, items: seq<NewItem>, i: nat)
    requires Alone(env) && i <= |items| && Knows(existing, rows, items) && Sound(rows, items, i, t)
    requires t.unseen == NewAmong(rows, items, i)
    requires TriageFrom(env, existing, dryRun, t, items, i).1.None?
    ensures TriageFrom(env, existing, dryRun, t, items, i).0.unseen == NewAmong(rows, items, |items|)
    decreases |items| - i
  {
    if i < |items| {
      NewStep(env, existing, dryRun, rows, t, items, i);
      TriageStep(env, existing, dryRun, rows, t, items, i);
      TriageKeepsNew(env, existing, dryRun, rows, TriageOne(env, existing, dryRun, t, items[i]).0, items, i + 1);
    }
  }

  lemma {:induction false} TriagedKeepsNew(env: Surroundings, w: World, source: Source)
    requires Alone(env) && Valid(w.rows) && Triaged(env, w, source, false).1.None?
    ensures var items := Candidates(source, |source.results|);
            Triaged(env, w, source, false).0.unseen == NewAmong(w.rows, items, |items|)
  {
    var items := Candidates(source, |source.results|);
    var (seen, existing) := Existing(env, w, KeysOf(items), 0, {});
    StartIsSound(env, w, source);
    TriageKeepsNew(env, existing, false, w.rows, Triage(seen, StartReport(source), [], {}), items, 0);
  }
}
