/** When a run of the ingest driver returns `Err`, and why, while no other process writes. */
module RunErrors {
  import opened Wrappers
  import opened Items
  import opened Table
  import opened Store
  import opened Driver
  import opened Idempotence
  import opened Rerun
  import Hook
  import Json
  import opened Text

  /******* The ids a run mints *******/

  /** What minting yields at a reading of the clock and a draw of random bytes. */
  function IdAt(env: Surroundings, tick: nat, draw: nat): Option<ItemId> {
    MintId(env.clock(tick), env.random(draw))
  }

  /** Minted from one of the run's readings before `ticks` and one of its draws before `draws`. */
  ghost predicate MintedBefore(env: Surroundings, start: World, ticks: nat, draws: nat, id: ItemId) {
    exists t: nat, n: nat :: start.ticks <= t < ticks && start.draws <= n < draws && IdAt(env, t, n) == Some(id)
  }

  /** Every id in the table was there at the start or has been minted since; none has gone. */
  ghost predicate Traced(env: Surroundings, start: World, rows: seq<Row>, ticks: nat, draws: nat) {
    && ticks >= start.ticks && draws >= start.draws
    && (forall id :: HasId(rows, id) ==> HasId(start.rows, id) || MintedBefore(env, start, ticks, draws, id))
    && (forall id :: HasId(start.rows, id) ==> HasId(rows, id))
  }

  ghost predicate WorldTraced(env: Surroundings, start: World, w: World) {
    Traced(env, start, w.rows, w.ticks, w.draws)
  }

  lemma {:induction false} IdsAppend(rows: seq<Row>, row: Row, id: ItemId)
    ensures HasId(rows + [row], id) <==> HasId(rows, id) || row.id == id
  {
    var all := rows + [row];
    if HasId(rows, id) { assert all[IndexOfId(rows, 0, id).value].id == id; }
    if row.id == id { assert all[|rows|].id == id; }
  }

  lemma {:induction false} IdsEdit(rows: seq<Row>, k: nat, row: Row, id: ItemId)
    requires k < |rows| && row.id == rows[k].id
    ensures HasId(rows[k := row], id) <==> HasId(rows, id)
  {
    var all := rows[k := row];
    assert forall i :: 0 <= i < |rows| ==> all[i].id == rows[i].id;
    if HasId(rows, id) { assert all[IndexOfId(rows, 0, id).value].id == id; }
    if HasId(all, id) { assert rows[IndexOfId(all, 0, id).value].id == id; }
  }

  lemma {:induction false} TracedLater(env: Surroundings, start: World, rows: seq<Row>, ticks: nat, draws: nat,
                                       laterTicks: nat, laterDraws: nat)
    requires Traced(env, start, rows, ticks, draws) && ticks <= laterTicks && draws <= laterDraws
    ensures Traced(env, start, rows, laterTicks, laterDraws)
  {
    forall id: ItemId | HasId(rows, id)
      ensures HasId(start.rows, id) || MintedBefore(env, start, laterTicks, laterDraws, id)
    {
      if MintedBefore(env, start, ticks, draws, id) {
        var t: nat, n: nat :| start.ticks <= t < ticks && start.draws <= n < draws && IdAt(env, t, n) == Some(id);
      }
    }
  }

  /** One more row, with the id of the next draw. */
  lemma {:induction false} TracedInsert(env: Surroundings, start: World, rows: seq<Row>, tick: nat, ticks: nat,
                                        draws: nat, row: Row)
    requires Traced(env, start, rows, ticks, draws) && start.ticks <= tick < ticks
    requires IdAt(env, tick, draws) == Some(row.id)
    ensures Traced(env, start, rows + [row], ticks, draws + 1)
  {
    TracedLater(env, start, rows, ticks, draws, ticks, draws + 1);
    forall id: ItemId ensures HasId(rows + [row], id) <==> HasId(rows, id) || row.id == id { IdsAppend(rows, row, id); }
    assert MintedBefore(env, start, ticks, draws + 1, row.id);
  }

  lemma {:induction false} TracedEdit(env: Surroundings, start: World, rows: seq<Row>, ticks: nat, draws: nat, k: nat,
                                      row: Row)
    requires Traced(env, start, rows, ticks, draws) && k < |rows| && row.id == rows[k].id
    ensures Traced(env, start, rows[k := row], ticks, draws)
  {
    forall id: ItemId ensures HasId(rows[k := row], id) <==> HasId(rows, id) { IdsEdit(rows, k, row, id); }
  }

  /** What this draw yields at this reading was in the table at the start, or an earlier draw of the run yields it. */
  ghost predicate CollidesAt(env: Surroundings, start: World, tick: nat, draw: nat) {
    IdAt(env, tick, draw).Some? &&
      var id := IdAt(env, tick, draw).value;
      HasId(start.rows, id) || MintedBefore(env, start, tick + 1, draw, id)
  }

  lemma {:induction false} TakenIdCollides(env: Surroundings, start: World, rows: seq<Row>, ticks: nat, tick: nat,
                                           draw: nat)
    requires Traced(env, start, rows, ticks, draw) && ticks <= tick + 1 && IdAt(env, tick, draw).Some?
    ensures HasId(rows, IdAt(env, tick, draw).value) ==> CollidesAt(env, start, tick, draw)
  {
    if HasId(rows, IdAt(env, tick, draw).value) && tick + 1 >= ticks {
      TracedLater(env, start, rows, ticks, draw, tick + 1, draw);
    }
  }

  /******* Single operations *******/

  lemma {:induction false} IngestTraced(env: Surroundings, start: World, w: World, item: NewItem)
    requires WorldTraced(env, start, w)
    ensures WorldTraced(env, start, Ingested(env, w, item).0)
  {
    var (after, r) := Ingested(env, w, item);
    TracedLater(env, start, w.rows, w.ticks, w.draws, w.ticks + 1, w.draws + 1);
    TracedLater(env, start, w.rows, w.ticks, w.draws, w.ticks + 1, w.draws);
    if r.Ok? {
      IngestIsTransaction(env, w, item);
      InsertAllAppends(w.rows, [r.value], 0);
      IngestCounts(env, w, item);
      TracedInsert(env, start, w.rows, w.ticks, w.ticks + 1, w.draws, r.value);
    }
  }

  lemma {:induction false} IngestCounts(env: Surroundings, w: World, item: NewItem)
    ensures var (after, r) := Ingested(env, w, item);
            r.Ok? ==>
              && after.ticks == w.ticks + 1 && after.draws == w.draws + 1
              && IdAt(env, w.ticks, w.draws) == Some(r.value.id)
  {
  }

  lemma {:induction false} ReplacementTraced(env: Surroundings, start: World, w: World, item: NewItem, target: ItemId)
    requires WorldTraced(env, start, w)
    ensures WorldTraced(env, start, Replaced(env, w, item, target).0)
  {
    var (after, r) := Replaced(env, w, item, target);
    TracedLater(env, start, w.rows, w.ticks, w.draws, w.ticks + 1, w.draws + 1);
    TracedLater(env, start, w.rows, w.ticks, w.draws, w.ticks + 1, w.draws);
    if r.Ok? {
      var k := IndexOfId(w.rows, 0, target).value;
      var cleared := w.rows[k := w.rows[k].(externalId := None)];
      ReplacementCounts(env, w, item, target);
      TracedEdit(env, start, w.rows, w.ticks + 1, w.draws, k, w.rows[k].(externalId := None));
      TracedInsert(env, start, cleared, w.ticks, w.ticks + 1, w.draws, r.value);
    }
  }

  lemma {:induction false} ReplacementCounts(env: Surroundings, w: World, item: NewItem, target: ItemId)
    ensures var (after, r) := Replaced(env, w, item, target);
            r.Ok? ==>
              && after.ticks == w.ticks + 1 && after.draws == w.draws + 1
              && IdAt(env, w.ticks, w.draws) == Some(r.value.id) && IndexOfId(w.rows, 0, target).Some?
              && var k := IndexOfId(w.rows, 0, target).value;
                 after.rows == w.rows[k := w.rows[k].(externalId := None)] + [r.value]
  {
  }

  lemma {:induction false} LoopTraced(env: Surroundings, start: World, tick: nat, batch: Batch, items: seq<NewItem>,
                                      validated: seq<Validated>, i: nat)
    requires i <= |items| == |validated| && tick >= start.ticks
    requires Traced(env, start, batch.rows, tick + 1, batch.draws)
    ensures var after := InsertLoop(env, env.clock(tick), batch, items, validated, i).0;
            Traced(env, start, after.rows, tick + 1, after.draws) && after.draws >= batch.draws
    decreases |items| - i
  {
    if i < |items| {
      var (next, failed) := InsertOne(env, env.clock(tick), batch, items[i], validated[i]);
      OneTraced(env, start, tick, batch, items[i], validated[i]);
      if failed.None? { LoopTraced(env, start, tick, next, items, validated, i + 1); }
    }
  }

  lemma {:induction false} OneTraced(env: Surroundings, start: World, tick: nat, batch: Batch, item: NewItem,
                                     validated: Validated)
    requires tick >= start.ticks && Traced(env, start, batch.rows, tick + 1, batch.draws)
    ensures var next := InsertOne(env, env.clock(tick), batch, item, validated).0;
            Traced(env, start, next.rows, tick + 1, next.draws) && next.draws >= batch.draws
  {
    TracedLater(env, start, batch.rows, tick + 1, batch.draws, tick + 1, batch.draws + 1);
    var (next, failed) := InsertOne(env, env.clock(tick), batch, item, validated);
    if failed.None? {
      TracedInsert(env, start, batch.rows, tick, tick + 1, batch.draws, next.made[|next.made| - 1]);
    }
  }

  lemma {:induction false} ManyTraced(env: Surroundings, start: World, w: World, items: seq<NewItem>)
    requires WorldTraced(env, start, w)
    ensures WorldTraced(env, start, IngestedMany(env, w, items).0)
  {
    var validated := ValidateFrom([], items, 0);
    if !env.readOnly && validated.Ok? {
      var batch := Batch(w.rows, w.draws, []);
      TracedLater(env, start, w.rows, w.ticks, w.draws, w.ticks + 1, w.draws);
      LoopTraced(env, start, w.ticks, batch, items, validated.value, 0);
      var (after, failed) := InsertLoop(env, env.clock(w.ticks), batch, items, validated.value, 0);
      TracedLater(env, start, w.rows, w.ticks, w.draws, w.ticks + 1, after.draws);
    }
  }

  /******* Why one item fails *******/

  /** Content the rules allow and the table's check does not. */
  predicate IsRefusedByTable(item: NewItem) {
    IsValid(item) && !IsStorable(item.content)
  }

  /** The last id minted, by the counters' end, was taken. */
  ghost predicate LastIdCollides(env: Surroundings, start: World, ticks: nat, draws: nat) {
    ticks > start.ticks && draws > start.draws && CollidesAt(env, start, ticks - 1, draws - 1)
  }

  /** What can end a run, with its counters at `ticks` and `draws`, at an item to be written as a new row. */
  ghost predicate NewCause(env: Surroundings, start: World, ticks: nat, draws: nat, item: NewItem, e: Error) {
    match e
    case ReadOnly => env.readOnly
    case SupersedesNotFound(id) => IsValid(item) && item.supersedes == Some(id) && !HasId(start.rows, id)
    case Sqlite => IsRefusedByTable(item) || (IsValid(item) && LastIdCollides(env, start, ticks, draws))
    case _ => false
  }

  /** What can end a run at an item that replaces a row. */
  ghost predicate ChangedCause(env: Surroundings, start: World, ticks: nat, draws: nat, item: NewItem, e: Error) {
    match e
    case ReadOnly => env.readOnly
    case Invalid(field) =>
      if IsValid(item) then field == "internal:timestamp" && ticks > start.ticks && !IsModern(env.clock(ticks - 1))
      else e == Validate(item).error
    case Sqlite => IsRefusedByTable(item) || (IsValid(item) && LastIdCollides(env, start, ticks, draws))
    case _ => false
  }

  lemma {:induction false} IngestErrors(env: Surroundings, start: World, w: World, item: NewItem)
    requires WorldTraced(env, start, w) && Unclaimed(w.rows, item)
    ensures var (after, r) := Ingested(env, w, item);
            r.Err? && !r.error.Invalid? ==> NewCause(env, start, after.ticks, after.draws, item, r.error)
  {
    if IdAt(env, w.ticks, w.draws).Some? { TakenIdCollides(env, start, w.rows, w.ticks, w.ticks, w.draws); }
  }

  /** How replacing the row at `h` can fail, when nothing else holds the item's key. */
  lemma {:induction false} ReplacementFails(env: Surroundings, w: World, item: NewItem, h: nat)
    requires h < |w.rows| && IndexOfId(w.rows, 0, w.rows[h].id) == Some(h)
    requires Unclaimed(w.rows[h := w.rows[h].(externalId := None)], item)
    ensures var (after, r) := Replaced(env, w, item, w.rows[h].id);
            var id := IdAt(env, w.ticks, w.draws);
            r.Err? ==>
              || (env.readOnly && r.error == ReadOnly)
              || (!IsValid(item) && r.error == Validate(item).error)
              || (IsValid(item) && r.error == Invalid("internal:timestamp")
                  && after.ticks == w.ticks + 1 && !IsModern(env.clock(w.ticks)))
              || (IsValid(item) && r.error == Sqlite
                  && after.ticks == w.ticks + 1 && after.draws == w.draws + 1 && id.Some?
                  && (HasId(w.rows[h := w.rows[h].(externalId := None)], id.value) || !IsStorable(item.content)))
  {
    ValidationIgnoresSupersedes(item, Some(w.rows[h].id));
  }

  lemma {:induction false} ReplacementErrors(env: Surroundings, start: World, w: World, item: NewItem, key: string)
    requires WorldTraced(env, start, w) && Valid(w.rows) && item.externalId == Some(key) && HolderOf(w.rows, key).Some?
    ensures var (after, r) := Replaced(env, w, item, HolderOf(w.rows, key).value.id);
            r.Err? ==> ChangedCause(env, start, after.ticks, after.draws, item, r.error)
  {
    var h := HolderIndex(w.rows, key);
    assert IndexOfId(w.rows, 0, w.rows[h].id) == Some(h);
    assert IndexOfKey(w.rows[h := w.rows[h].(externalId := None)], 0, key).None?;
    ValidationIgnoresSupersedes(item, None);
    ClearedCollides(env, start, w, h);
    ReplacementFails(env, w, item, h);
  }

  lemma {:induction false} ClearedCollides(env: Surroundings, start: World, w: World, h: nat)
    requires WorldTraced(env, start, w) && h < |w.rows|
    ensures var id := IdAt(env, w.ticks, w.draws);
            id.Some? && HasId(w.rows[h := w.rows[h].(externalId := None)], id.value) ==>
              CollidesAt(env, start, w.ticks, w.draws)
  {
    var cleared := w.rows[h].(externalId := None);
    if IdAt(env, w.ticks, w.draws).Some? {
      TracedEdit(env, start, w.rows, w.ticks, w.draws, h, cleared);
      TakenIdCollides(env, start, w.rows[h := cleared], w.ticks, w.ticks, w.draws);
    }
  }

  lemma {:induction false} ValidationIgnoresSupersedes(item: NewItem, supersedes: Option<ItemId>)
    ensures Validate(item.(supersedes := supersedes)) == Validate(item)
    ensures !Validate(item).Ok? ==> Validate(item).error.Invalid?
  {
  }

  lemma {:induction false} OneError(env: Surroundings, start: World, tick: nat, batch: Batch, item: NewItem,
                                    validated: Validated)
    requires tick >= start.ticks && Traced(env, start, batch.rows, tick + 1, batch.draws)
    requires Unclaimed(batch.rows, item) && IsValid(item)
    ensures var (next, failed) := InsertOne(env, env.clock(tick), batch, item, validated);
            failed.Some? && !failed.value.Invalid? ==> NewCause(env, start, tick + 1, next.draws, item, failed.value)
  {
    if IdAt(env, tick, batch.draws).Some? {
      TakenIdCollides(env, start, batch.rows, tick + 1, tick, batch.draws);
    }
  }

  /** An item from `i` on that is a cause. */
  ghost predicate SomeNewCause(env: Surroundings, start: World, ticks: nat, draws: nat, items: seq<NewItem>, i: nat,
                               e: Error)
  {
    exists m :: i <= m < |items| && NewCause(env, start, ticks, draws, items[m], e)
  }

  /** A point of the insert loop: new items ahead, all of them valid, and every id accounted for. */
  ghost predicate LoopReady(env: Surroundings, start: World, tick: nat, batch: Batch, items: seq<NewItem>, i: nat)
    requires i <= |items|
  {
    Traced(env, start, batch.rows, tick + 1, batch.draws) && Novel(batch.rows, items, i) && AllValid(items)
  }

  lemma {:induction false} LoopStep(env: Surroundings, start: World, tick: nat, batch: Batch, items: seq<NewItem>,
                                    i: nat, validated: Validated)
    requires i < |items| && tick >= start.ticks && LoopReady(env, start, tick, batch, items, i)
    ensures var (next, failed) := InsertOne(env, env.clock(tick), batch, items[i], validated);
            && (failed.None? ==> LoopReady(env, start, tick, next, items, i + 1))
            && (failed.Some? && !failed.value.Invalid? ==>
                  NewCause(env, start, tick + 1, next.draws, items[i], failed.value))
  {
    assert Unclaimed(batch.rows, items[i]);
    OneError(env, start, tick, batch, items[i], validated);
    OneTraced(env, start, tick, batch, items[i], validated);
    var (next, failed) := InsertOne(env, env.clock(tick), batch, items[i], validated);
    if failed.None? { NovelAfterOne(batch.rows, items, i, next.made[|next.made| - 1]); }
  }

  lemma {:induction false} LoopUnfolds(env: Surroundings, now: int, batch: Batch, items: seq<NewItem>,
                                       validated: seq<Validated>, i: nat, next: Batch, failed: Option<Error>)
    requires i < |items| == |validated| && InsertOne(env, now, batch, items[i], validated[i]) == (next, failed)
    ensures InsertLoop(env, now, batch, items, validated, i)
         == if failed.None? then InsertLoop(env, now, next, items, validated, i + 1) else (next, failed)
  {
  }

  lemma {:induction false} CauseLater(env: Surroundings, start: World, ticks: nat, draws: nat, items: seq<NewItem>,
                                      i: nat, e: Option<Error>)
    ensures e.Some? && SomeNewCause(env, start, ticks, draws, items, i + 1, e.value) ==>
              SomeNewCause(env, start, ticks, draws, items, i, e.value)
  {
  }

  lemma {:induction false} LoopErrors(env: Surroundings, start: World, tick: nat, batch: Batch, items: seq<NewItem>,
                                      validated: seq<Validated>, i: nat)
    requires i <= |items| == |validated| && tick >= start.ticks && LoopReady(env, start, tick, batch, items, i)
    ensures var (last, failed) := InsertLoop(env, env.clock(tick), batch, items, validated, i);
            failed.Some? && !failed.value.Invalid? ==>
              SomeNewCause(env, start, tick + 1, last.draws, items, i, failed.value)
    decreases |items| - i
  {
    if i < |items| {
      var now := env.clock(tick);
      LoopStep(env, start, tick, batch, items, i, validated[i]);
      var (next, failed) := InsertOne(env, now, batch, items[i], validated[i]);
      LoopUnfolds(env, now, batch, items, validated, i, next, failed);
      if failed.None? {
        LoopErrors(env, start, tick, next, items, validated, i + 1);
        var (last, stopped) := InsertLoop(env, now, next, items, validated, i + 1);
        CauseLater(env, start, tick + 1, last.draws, items, i, stopped);
      }
    }
  }

  lemma {:induction false} ManyFails(env: Surroundings, w: World, items: seq<NewItem>, validated: seq<Validated>,
                                     last: Batch, e: Error)
    requires !env.readOnly && ValidateFrom([], items, 0) == Ok(validated)
    requires InsertLoop(env, env.clock(w.ticks), Batch(w.rows, w.draws, []), items, validated, 0) == (last, Some(e))
    ensures IngestedMany(env, w, items) == (w.(ticks := w.ticks + 1, draws := last.draws), Err(e))
  {
  }

  lemma {:induction false} ManyErrors(env: Surroundings, start: World, w: World, items: seq<NewItem>)
    requires WorldTraced(env, start, w) && Novel(w.rows, items, 0) && items != []
    ensures var (after, r) := IngestedMany(env, w, items);
            r.Err? && !r.error.Invalid? ==> SomeNewCause(env, start, after.ticks, after.draws, items, 0, r.error)
  {
    ValidationErrors(items, 0, []);
    var validated := ValidateFrom([], items, 0);
    if env.readOnly {
      assert NewCause(env, start, w.ticks, w.draws, items[0], ReadOnly);
    } else if validated.Ok? {
      WholeLoopErrors(env, start, w, items, validated.value);
      var batch := Batch(w.rows, w.draws, []);
      var (last, failed) := InsertLoop(env, env.clock(w.ticks), batch, items, validated.value, 0);
      if failed.Some? { ManyFails(env, w, items, validated.value, last, failed.value); }
    }
  }

  lemma {:induction false} WholeLoopErrors(env: Surroundings, start: World, w: World, items: seq<NewItem>,
                                           validated: seq<Validated>)
    requires WorldTraced(env, start, w) && Novel(w.rows, items, 0) && AllValid(items) && |validated| == |items|
    ensures var (last, failed) := InsertLoop(env, env.clock(w.ticks), Batch(w.rows, w.draws, []), items, validated, 0);
            failed.Some? && !failed.value.Invalid? ==>
              SomeNewCause(env, start, w.ticks + 1, last.draws, items, 0, failed.value)
  {
    TracedLater(env, start, w.rows, w.ticks, w.draws, w.ticks + 1, w.draws);
    LoopErrors(env, start, w.ticks, Batch(w.rows, w.draws, []), items, validated, 0);
  }

  /******* Why writing fails *******/

  lemma {:induction false} EachOneTraced(env: Surroundings, start: World, p: Progress, item: NewItem)
    requires Alone(env) && WorldTraced(env, start, p.w)
    ensures WorldTraced(env, start, EachOne(env, p, item).0.w)
  {
    AloneMeansQuiet(env, p.w);
    IngestTraced(env, start, OthersCommit(env, p.w), item);
  }

  lemma {:induction false} EachOneErrors(env: Surroundings, start: World, p: Progress, item: NewItem)
    requires Alone(env) && Unclaimed(p.w.rows, item) && WorldTraced(env, start, p.w)
    ensures var (next, failed) := EachOne(env, p, item);
            && (failed.Some? ==> NewCause(env, start, next.w.ticks, next.w.draws, item, failed.value))
            && WorldTraced(env, start, next.w)
  {
    AloneMeansQuiet(env, p.w);
    IngestErrors(env, start, OthersCommit(env, p.w), item);
    EachOneTraced(env, start, p, item);
  }

  /** The same between single writes. */
  ghost predicate EachReady(env: Surroundings, start: World, p: Progress, items: seq<NewItem>, i: nat)
    requires i <= |items|
  {
    Valid(p.w.rows) && Novel(p.w.rows, items, i) && WorldTraced(env, start, p.w)
  }

  lemma {:induction false} EachStep(env: Surroundings, start: World, p: Progress, items: seq<NewItem>, i: nat)
    requires Alone(env) && i < |items| && EachReady(env, start, p, items, i)
    ensures var (next, failed) := EachOne(env, p, items[i]);
            && (failed.None? ==> EachReady(env, start, next, items, i + 1))
            && (failed.Some? ==> NewCause(env, start, next.w.ticks, next.w.draws, items[i], failed.value))
  {
    assert Unclaimed(p.w.rows, items[i]);
    EachOneErrors(env, start, p, items[i]);
    if EachOne(env, p, items[i]).1.None? {
      var row := EachOneNovel(env, p, items[i]);
      if row.Some? { NovelAfterOne(p.w.rows, items, i, row.value); }
    }
  }

  lemma {:induction false} EachUnfolds(env: Surroundings, p: Progress, items: seq<NewItem>, i: nat, next: Progress,
                                       failed: Option<Error>)
    requires i < |items| && EachOne(env, p, items[i]) == (next, failed)
    ensures EachFrom(env, p, items, i)
         == if failed.Some? then (next, failed) else EachFrom(env, next, items, i + 1)
  {
  }

  lemma {:induction false} EachErrors(env: Surroundings, start: World, p: Progress, items: seq<NewItem>, i: nat)
    requires Alone(env) && i <= |items| && EachReady(env, start, p, items, i)
    ensures var (q, failed) := EachFrom(env, p, items, i);
            && (failed.Some? ==> SomeNewCause(env, start, q.w.ticks, q.w.draws, items, i, failed.value))
            && (failed.None? ==> WorldTraced(env, start, q.w))
    decreases |items| - i
  {
    if i < |items| {
      EachStep(env, start, p, items, i);
      var (next, failed) := EachOne(env, p, items[i]);
      EachUnfolds(env, p, items, i, next, failed);
      if failed.None? {
        EachErrors(env, start, next, items, i + 1);
        var (q, stopped) := EachFrom(env, next, items, i + 1);
        CauseLater(env, start, q.w.ticks, q.w.draws, items, i, stopped);
      }
    }
  }

  lemma {:induction false} BatchErrors(env: Surroundings, start: World, p: Progress, batch: seq<NewItem>)
    requires Alone(env) && batch != [] && Valid(p.w.rows) && Novel(p.w.rows, batch, 0) && WorldTraced(env, start, p.w)
    ensures var (q, failed) := BatchWritten(env, p, batch);
            && (failed.Some? ==> SomeNewCause(env, start, q.w.ticks, q.w.draws, batch, 0, failed.value))
            && (failed.None? ==> WorldTraced(env, start, q.w))
  {
    AloneMeansQuiet(env, p.w);
    var w := OthersCommit(env, p.w);
    BatchOfNovel(env, w, batch);
    ManyErrors(env, start, w, batch);
    ManyTraced(env, start, w, batch);
    var (after, r) := IngestedMany(env, w, batch);
    if r.Err? && r.error.Invalid? { EachErrors(env, start, p.(w := after), batch, 0); }
  }

  lemma {:induction false} CauseInPart(env: Surroundings, start: World, after: World, items: seq<NewItem>, lo: nat,
                                       hi: nat, e: Option<Error>)
    requires lo <= hi <= |items|
    ensures e.Some? && SomeNewCause(env, start, after.ticks, after.draws, items[lo..hi], 0, e.value) ==>
              SomeNewCause(env, start, after.ticks, after.draws, items, 0, e.value)
  {
    var part := items[lo..hi];
    if e.Some? && SomeNewCause(env, start, after.ticks, after.draws, part, 0, e.value) {
      var m :| 0 <= m < |part| && NewCause(env, start, after.ticks, after.draws, part[m], e.value);
      assert items[lo + m] == part[m];
    }
  }

  lemma {:induction false} BatchesErrors(env: Surroundings, start: World, p: Progress, unseen: seq<NewItem>)
    requires Alone(env) && Valid(p.w.rows) && Novel(p.w.rows, unseen, 0) && WorldTraced(env, start, p.w)
    ensures var (q, failed) := BatchesWritten(env, p, unseen);
            failed.Some? ==> SomeNewCause(env, start, q.w.ticks, q.w.draws, unseen, 0, failed.value)
    decreases |unseen|
  {
    if unseen != [] {
      var n := BatchLength(unseen);
      var batch, rest := unseen[..n], unseen[n..];
      BatchErrors(env, start, p, batch);
      var (next, failed) := BatchWritten(env, p, batch);
      if failed.None? {
        BatchWrittenNovel(env, p, batch);
        NovelAfterPart(p.w.rows, next.w.rows, unseen, n);
        BatchesErrors(env, start, next, rest);
        var (q, stopped) := BatchesWritten(env, next, rest);
        CauseInPart(env, start, q.w, unseen, n, |unseen|, stopped);
      } else {
        CauseInPart(env, start, next.w, unseen, 0, n, failed);
      }
    }
  }

  /******* Why triage fails *******/

  lemma {:induction false} PresentErrors(env: Surroundings, start: World, t: Triage, item: NewItem, key: string)
    requires Alone(env) && Valid(t.w.rows) && item.externalId == Some(key) && WorldTraced(env, start, t.w)
    ensures var (next, failed) := TriagePresent(env, false, t, item, key);
            && (failed.Some? ==>
                  && HolderOf(t.w.rows, key).Some? && Differs(item, HolderOf(t.w.rows, key).value)
                  && ChangedCause(env, start, next.w.ticks, next.w.draws, item, failed.value))
            && (failed.None? ==> WorldTraced(env, start, next.w))
  {
    AloneMeansQuiet(env, t.w);
    var seen := OthersCommit(env, t.w);
    AloneMeansQuiet(env, seen);
    var holder := HolderOf(t.w.rows, key);
    if holder.Some? && Differs(item, holder.value) {
      ReplacementErrors(env, start, OthersCommit(env, seen), item, key);
      ReplacementTraced(env, start, OthersCommit(env, seen), item, holder.value.id);
    }
  }

  lemma {:induction false} OneTriageErrors(env: Surroundings, existing: set<string>, start: World, t: Triage,
                                           items: seq<NewItem>, i: nat)
    requires Alone(env) && i < |items| && Knows(existing, start.rows, items) && Sound(start.rows, items, i, t)
    requires WorldTraced(env, start, t.w)
    ensures var (next, failed) := TriageOne(env, existing, false, t, items[i]);
            && (failed.Some? ==>
                  && IsChanged(start.rows, items, i)
                  && ChangedCause(env, start, next.w.ticks, next.w.draws, items[i], failed.value))
            && (failed.None? ==> WorldTraced(env, start, next.w))
  {
    var item := items[i];
    if item.externalId.Some? && item.externalId.value !in t.accepted && item.externalId.value in existing {
      var key := item.externalId.value;
      PresentErrors(env, start, t.(accepted := t.accepted + {key}), item, key);
    }
  }

  ghost predicate SomeChangedCause(env: Surroundings, start: World, after: World, items: seq<NewItem>, e: Error) {
    exists j :: 0 <= j < |items| && IsChanged(start.rows, items, j)
             && ChangedCause(env, start, after.ticks, after.draws, items[j], e)
  }

  lemma {:induction false} TriageErrors(env: Surroundings, existing: set<string>, start: World, t: Triage,
                                        items: seq<NewItem>, i: nat)
    requires Alone(env) && i <= |items| && Knows(existing, start.rows, items) && Sound(start.rows, items, i, t)
    requires WorldTraced(env, start, t.w)
    ensures var (after, failed) := TriageFrom(env, existing, false, t, items, i);
            && (failed.Some? ==> SomeChangedCause(env, start, after.w, items, failed.value))
            && (failed.None? ==> WorldTraced(env, start, after.w))
    decreases |items| - i
  {
    if i < |items| {
      OneTriageErrors(env, existing, start, t, items, i);
      var (next, failed) := TriageOne(env, existing, false, t, items[i]);
      if failed.None? {
        TriageStep(env, existing, false, start.rows, t, items, i);
        TriageErrors(env, existing, start, next, items, i + 1);
      }
    }
  }

  /******* Every error has a cause *******/

  /** A candidate that explains the error a run ended with, its counters then being those of `after`. */
  ghost predicate Explains(env: Surroundings, w: World, after: World, items: seq<NewItem>, j: nat, e: Error)
    requires j < |items|
  {
    || (IsNew(w.rows, items, j) && NewCause(env, w, after.ticks, after.draws, items[j], e))
    || (IsChanged(w.rows, items, j) && ChangedCause(env, w, after.ticks, after.draws, items[j], e))
  }

  lemma {:induction false} StartIsTraced(env: Surroundings, w: World, seen: World)
    requires seen == w.(turns := seen.turns)
    ensures WorldTraced(env, w, seen)
  {
  }

  lemma {:induction false} TriagedErrors(env: Surroundings, w: World, source: Source)
    requires Alone(env) && Valid(w.rows)
    ensures var items := Candidates(source, |source.results|);
            var (t, stopped) := Triaged(env, w, source, false);
            && (stopped.Some? ==> SomeChangedCause(env, w, t.w, items, stopped.value))
            && (stopped.None? ==> WorldTraced(env, w, t.w) && Sound(w.rows, items, |items|, t))
  {
    var items := Candidates(source, |source.results|);
    var (seen, existing) := Existing(env, w, KeysOf(items), 0, {});
    var start := Triage(seen, StartReport(source), [], {});
    StartIsSound(env, w, source);
    StartIsTraced(env, w, seen);
    TriageErrors(env, existing, w, start, items, 0);
    if Triaged(env, w, source, false).1.None? { TriageIsSound(env, existing, false, w.rows, start, items, 0); }
  }

  /**
   With no other writer, whatever the clock and the random bytes: when a run returns `Err`, the store was
   opened read-only and there was something to write; or a replacement broke a rule, and that rule is
   the error; or the last reading, taken for a replacement, lies before 1970; or a new item supersedes an
   item the store did not have; or the table's check refused an item's content; or the last id minted was
   in the table or had been minted before in this run. It never reports a conflict or anything else.
   */
  lemma {:induction false} EveryErrorHasACause(env: Surroundings, w: World, source: Source)
    requires Alone(env) && Valid(w.rows)
    ensures var (after, r) := SourceIngested(env, w, source, false);
            var items := Candidates(source, |source.results|);
            r.Err? ==> exists j :: 0 <= j < |items| && Explains(env, w, after, items, j, r.error)
  {
    var items := Candidates(source, |source.results|);
    var (after, r) := SourceIngested(env, w, source, false);
    TriagedErrors(env, w, source);
    var (t, stopped) := Triaged(env, w, source, false);
    if stopped.Some? {
      var j :| 0 <= j < |items| && IsChanged(w.rows, items, j)
            && ChangedCause(env, w, t.w.ticks, t.w.draws, items[j], stopped.value);
      assert Explains(env, w, after, items, j, r.error);
    } else if r.Err? {
      BatchesErrors(env, w, Progress(t.w, t.report), t.unseen);
      var m :| 0 <= m < |t.unseen| && NewCause(env, w, after.ticks, after.draws, t.unseen[m], r.error);
      TriagedKeepsNew(env, w, source);
      NewAmongMembers(w.rows, items, |items|, t.unseen[m]);
      var j :| 0 <= j < |items| && IsNew(w.rows, items, j) && items[j] == t.unseen[m];
      assert Explains(env, w, after, items, j, r.error);
    }
  }

  /******* How far a run can get *******/

  /** No more than `n` readings and `n` draws from `before` to `after`. */
  predicate UsesAtMost(before: World, after: World, n: nat) {
    after.ticks <= before.ticks + n && after.draws <= before.draws + n
  }

  lemma {:induction false} EachOneUses(env: Surroundings, p: Progress, item: NewItem)
    ensures UsesAtMost(p.w, EachOne(env, p, item).0.w, 1)
  {
  }

  lemma {:induction false} EachUses(env: Surroundings, p: Progress, items: seq<NewItem>, i: nat)
    requires i <= |items|
    ensures UsesAtMost(p.w, EachFrom(env, p, items, i).0.w, |items| - i)
    decreases |items| - i
  {
    if i < |items| {
      var (next, failed) := EachOne(env, p, items[i]);
      EachOneUses(env, p, items[i]);
      EachUnfolds(env, p, items, i, next, failed);
      if failed.None? { EachUses(env, next, items, i + 1); }
    }
  }

  lemma {:induction false} LoopUses(env: Surroundings, now: int, batch: Batch, items: seq<NewItem>,
                                    validated: seq<Validated>, i: nat)
    requires i <= |items| == |validated|
    ensures InsertLoop(env, now, batch, items, validated, i).0.draws <= batch.draws + |items| - i
    decreases |items| - i
  {
    if i < |items| {
      var (next, failed) := InsertOne(env, now, batch, items[i], validated[i]);
      LoopUnfolds(env, now, batch, items, validated, i, next, failed);
      if failed.None? { LoopUses(env, now, next, items, validated, i + 1); }
    }
  }

  lemma {:induction false} ManyUses(env: Surroundings, w: World, items: seq<NewItem>)
    ensures var after := IngestedMany(env, w, items).0;
            after.ticks <= w.ticks + 1 && after.draws <= w.draws + |items|
  {
    var validated := ValidateFrom([], items, 0);
    if !env.readOnly && validated.Ok? {
      LoopUses(env, env.clock(w.ticks), Batch(w.rows, w.draws, []), items, validated.value, 0);
    }
  }

  lemma {:induction false} BatchUses(env: Surroundings, p: Progress, batch: seq<NewItem>)
    requires batch != [] && Valid(p.w.rows) && Novel(p.w.rows, batch, 0) && Alone(env)
    ensures UsesAtMost(p.w, BatchWritten(env, p, batch).0.w, 2 * |batch|)
  {
    AloneMeansQuiet(env, p.w);
    var w := OthersCommit(env, p.w);
    BatchOfNovel(env, w, batch);
    ManyUses(env, w, batch);
    EachUses(env, p.(w := IngestedMany(env, w, batch).0), batch, 0);
  }

  lemma {:induction false} BatchesUse(env: Surroundings, p: Progress, unseen: seq<NewItem>)
    requires Valid(p.w.rows) && Novel(p.w.rows, unseen, 0) && Alone(env)
    ensures UsesAtMost(p.w, BatchesWritten(env, p, unseen).0.w, 2 * |unseen|)
    decreases |unseen|
  {
    if unseen != [] {
      var n := BatchLength(unseen);
      BatchUses(env, p, unseen[..n]);
      var (next, failed) := BatchWritten(env, p, unseen[..n]);
      if failed.None? {
        BatchWrittenNovel(env, p, unseen[..n]);
        NovelAfterPart(p.w.rows, next.w.rows, unseen, n);
        BatchesUse(env, next, unseen[n..]);
      }
    }
  }

  /** What triage has used and what its leftovers can use yet, two for each. */
  predicate OnBudget(before: Triage, after: Triage, n: nat) {
    && after.w.ticks + 2 * |after.unseen| <= before.w.ticks + 2 * |before.unseen| + 2 * n
    && after.w.draws + 2 * |after.unseen| <= before.w.draws + 2 * |before.unseen| + 2 * n
  }

  lemma {:induction false} OneTriageUses(env: Surroundings, existing: set<string>, t: Triage, item: NewItem)
    ensures OnBudget(t, TriageOne(env, existing, false, t, item).0, 1)
  {
    if item.externalId.Some? {
      PresentUses(env, t.(accepted := t.accepted + {item.externalId.value}), item, item.externalId.value);
    }
  }

  lemma {:induction false} PresentUses(env: Surroundings, t: Triage, item: NewItem, key: string)
    ensures var next := TriagePresent(env, false, t, item, key).0;
            next.unseen == t.unseen && UsesAtMost(t.w, next.w, 1)
  {
  }

  lemma {:induction false} TriageUses(env: Surroundings, existing: set<string>, t: Triage, items: seq<NewItem>, i: nat)
    requires i <= |items|
    ensures OnBudget(t, TriageFrom(env, existing, false, t, items, i).0, |items| - i)
    decreases |items| - i
  {
    if i < |items| {
      OneTriageUses(env, existing, t, items[i]);
      var (next, failed) := TriageOne(env, existing, false, t, items[i]);
      if failed.None? { TriageUses(env, existing, next, items, i + 1); }
    }
  }

  /** Readings and draws enough for any run over so many candidates. */
  function Reach(items: seq<NewItem>): nat {
    2 * |items|
  }

  /** Room for `n` more readings and draws. */
  predicate HasRoom(start: World, w: World, n: nat, reach: nat) {
    w.ticks + n <= start.ticks + reach && w.draws + n <= start.draws + reach
  }

  lemma {:induction false} TriagedUses(env: Surroundings, w: World, source: Source)
    requires Alone(env) && Valid(w.rows)
    ensures var t := Triaged(env, w, source, false).0;
            HasRoom(w, t.w, 2 * |t.unseen|, Reach(Candidates(source, |source.results|)))
  {
    var items := Candidates(source, |source.results|);
    var (seen, existing) := Existing(env, w, KeysOf(items), 0, {});
    StartIsSound(env, w, source);
    TriageUses(env, existing, Triage(seen, StartReport(source), [], {}), items, 0);
  }

  /** With no other writer a run reads the clock, and mints, at most twice for each candidate. */
  lemma {:induction false} RunUses(env: Surroundings, w: World, source: Source)
    requires Alone(env) && Valid(w.rows)
    ensures UsesAtMost(w, SourceIngested(env, w, source, false).0, Reach(Candidates(source, |source.results|)))
  {
    TriagedUses(env, w, source);
    TriagedErrors(env, w, source);
    var (t, stopped) := Triaged(env, w, source, false);
    if stopped.None? { BatchesUse(env, Progress(t.w, t.report), t.unseen); }
  }

  /******* Every cause ends the run *******/

  /** The readings and draws a run can use. */
  predicate InReach(start: World, reach: nat, t: nat, n: nat) {
    start.ticks <= t < start.ticks + reach && start.draws <= n < start.draws + reach
  }

  /** None of the ids a run can mint is in the table, and no two of its draws yield the same one. */
  ghost predicate IdsAreFresh(env: Surroundings, w: World, reach: nat) {
    && (forall t: nat, n: nat :: InReach(w, reach, t, n) && IdAt(env, t, n).Some? ==>
          !HasId(w.rows, IdAt(env, t, n).value))
    && (forall t: nat, n: nat, u: nat, m: nat ::
          InReach(w, reach, t, n) && InReach(w, reach, u, m) && n < m && IdAt(env, t, n).Some? ==>
            IdAt(env, u, m) != IdAt(env, t, n))
  }

  /** No candidate names an id the run can mint as the one it supersedes. */
  ghost predicate NamesNoNewId(env: Surroundings, start: World, items: seq<NewItem>, reach: nat) {
    forall j, t: nat, n: nat :: 0 <= j < |items| && items[j].supersedes.Some? && InReach(start, reach, t, n) ==>
      IdAt(env, t, n) != items[j].supersedes
  }

  /** The surroundings do not get in the way of a run that reaches so far. */
  ghost predicate Undisturbed(env: Surroundings, start: World, items: seq<NewItem>, reach: nat) {
    ModernBetween(env, start.ticks, start.ticks + reach) && NamesNoNewId(env, start, items, reach)
  }

  /** New items that end a run: the table refuses them for a reason that is not a broken rule. */
  predicate StopsNew(env: Surroundings, rows: seq<Row>, item: NewItem) {
    env.readOnly || (IsValid(item) && (IsDangling(rows, item) || !IsStorable(item.content)))
  }

  /** Replacements that end a run. */
  predicate StopsChanged(env: Surroundings, item: NewItem) {
    env.readOnly || !IsValid(item) || !IsStorable(item.content)
  }

  lemma {:induction false} DanglingStays(env: Surroundings, start: World, rows: seq<Row>, ticks: nat, draws: nat,
                                         items: seq<NewItem>, m: nat, reach: nat)
    requires Traced(env, start, rows, ticks, draws) && NamesNoNewId(env, start, items, reach) && m < |items|
    requires ticks <= start.ticks + reach && draws <= start.draws + reach
    ensures IsDangling(start.rows, items[m]) ==> IsDangling(rows, items[m])
  {
    if IsDangling(start.rows, items[m]) {
      forall t: nat, n: nat | start.ticks <= t < ticks && start.draws <= n < draws
        ensures IdAt(env, t, n) != items[m].supersedes
      {
        assert InReach(start, reach, t, n);
      }
    }
  }

  lemma {:induction false} NamesPart(env: Surroundings, start: World, items: seq<NewItem>, lo: nat, hi: nat, reach: nat)
    requires Undisturbed(env, start, items, reach) && lo <= hi <= |items|
    ensures Undisturbed(env, start, items[lo..hi], reach)
  {
    var part := items[lo..hi];
    assert forall j :: 0 <= j < |part| ==> part[j] == items[lo + j];
  }

  lemma {:induction false} IngestStops(env: Surroundings, start: World, w: World, items: seq<NewItem>, m: nat,
                                       reach: nat)
    requires WorldTraced(env, start, w) && Undisturbed(env, start, items, reach) && HasRoom(start, w, 1, reach)
    requires m < |items| && StopsNew(env, start.rows, items[m])
    ensures var r := Ingested(env, w, items[m]).1; r.Err? && !r.error.Invalid?
  {
    DanglingStays(env, start, w.rows, w.ticks, w.draws, items, m, reach);
    assert Milliseconds(env.clock(w.ticks)) >= 0;
  }

  lemma {:induction false} OneStops(env: Surroundings, start: World, tick: nat, batch: Batch, items: seq<NewItem>,
                                    m: nat, validated: Validated, reach: nat)
    requires start.ticks <= tick < start.ticks + reach && batch.draws <= start.draws + reach
    requires Traced(env, start, batch.rows, tick + 1, batch.draws) && Undisturbed(env, start, items, reach)
    requires m < |items|
    ensures var failed := InsertOne(env, env.clock(tick), batch, items[m], validated).1;
            && (failed.Some? ==> !failed.value.Invalid?)
            && (IsDangling(start.rows, items[m]) || !IsStorable(items[m].content) ==> failed.Some?)
  {
    DanglingStays(env, start, batch.rows, tick + 1, batch.draws, items, m, reach);
    assert Milliseconds(env.clock(tick)) >= 0;
  }

  lemma {:induction false} LoopStops(env: Surroundings, start: World, tick: nat, batch: Batch, items: seq<NewItem>,
                                     validated: seq<Validated>, i: nat, m: nat, reach: nat)
    requires i <= m < |items| == |validated| && start.ticks <= tick < start.ticks + reach
    requires batch.draws + |items| - i <= start.draws + reach
    requires Traced(env, start, batch.rows, tick + 1, batch.draws) && Undisturbed(env, start, items, reach)
    requires IsDangling(start.rows, items[m]) || !IsStorable(items[m].content)
    ensures var failed := InsertLoop(env, env.clock(tick), batch, items, validated, i).1;
            failed.Some? && !failed.value.Invalid?
    decreases |items| - i
  {
    var (next, failed) := InsertOne(env, env.clock(tick), batch, items[i], validated[i]);
    OneStops(env, start, tick, batch, items, i, validated[i], reach);
    OneTraced(env, start, tick, batch, items[i], validated[i]);
    LoopUnfolds(env, env.clock(tick), batch, items, validated, i, next, failed);
    if failed.None? { LoopStops(env, start, tick, next, items, validated, i + 1, m, reach); }
  }

  /** Writing one item, whatever that does to the store and the report. */
  type Write = (Progress, NewItem) -> (Progress, Option<Error>)

  /** Items written one by one, up to the first error. */
  function WriteFrom(write: Write, p: Progress, items: seq<NewItem>, i: nat): (Progress, Option<Error>)
    requires i <= |items|
    decreases |items| - i
  {
    if i == |items| then (p, None)
    else
      var (next, failed) := write(p, items[i]);
      if failed.Some? then (next, failed) else WriteFrom(write, next, items, i + 1)
  }

  /** Where that stands before item `m`. */
  function WriteTo(write: Write, p: Progress, items: seq<NewItem>, i: nat, m: nat): Progress
    requires i <= m <= |items|
    decreases m - i
  {
    if i == m then p else WriteTo(write, write(p, items[i]).0, items, i + 1, m)
  }

  lemma {:induction false} WritingStops(write: Write, p: Progress, items: seq<NewItem>, i: nat, m: nat)
    requires i <= m < |items| && write(WriteTo(write, p, items, i, m), items[m]).1.Some?
    ensures WriteFrom(write, p, items, i).1.Some?
    decreases m - i
  {
    if i < m { WritingStops(write, write(p, items[i]).0, items, i + 1, m); }
  }

  function WriteOf(env: Surroundings): Write {
    (p, item) => EachOne(env, p, item)
  }

  lemma {:induction false} EachIsWriting(env: Surroundings, p: Progress, items: seq<NewItem>, i: nat)
    requires i <= |items|
    ensures EachFrom(env, p, items, i) == WriteFrom(WriteOf(env), p, items, i)
    decreases |items| - i
  {
    if i < |items| { EachIsWriting(env, EachOne(env, p, items[i]).0, items, i + 1); }
  }

  /** What every write keeps, writing them one by one keeps. */
  lemma {:induction false} WritingKeeps(write: Write, inv: (Progress, nat) -> bool, p: Progress, items: seq<NewItem>,
                                        i: nat, m: nat)
    requires i <= m <= |items| && inv(p, i)
    requires forall q: Progress, k: nat :: k < m && inv(q, k) ==> inv(write(q, items[k]).0, k + 1)
    ensures inv(WriteTo(write, p, items, i, m), m)
    decreases m - i
  {
    if i < m { WritingKeeps(write, inv, write(p, items[i]).0, items, i + 1, m); }
  }

  lemma {:induction false} WritingIsTraced(env: Surroundings, start: World, p: Progress, items: seq<NewItem>, m: nat)
    requires Alone(env) && m <= |items| && WorldTraced(env, start, p.w)
    ensures var q := WriteTo(WriteOf(env), p, items, 0, m);
            WorldTraced(env, start, q.w) && UsesAtMost(p.w, q.w, m)
  {
    var inv := (q: Progress, k: nat) => WorldTraced(env, start, q.w) && UsesAtMost(p.w, q.w, k);
    forall q: Progress, k: nat | k < m && inv(q, k) ensures inv(WriteOf(env)(q, items[k]).0, k + 1) {
      EachOneTraced(env, start, q, items[k]);
      EachOneUses(env, q, items[k]);
    }
    WritingKeeps(WriteOf(env), inv, p, items, 0, m);
  }

  lemma {:induction false} EachStops(env: Surroundings, start: World, p: Progress, items: seq<NewItem>, m: nat,
                                     reach: nat)
    requires Alone(env) && m < |items| && WorldTraced(env, start, p.w) && HasRoom(start, p.w, |items|, reach)
    requires Undisturbed(env, start, items, reach) && StopsNew(env, start.rows, items[m])
    ensures EachFrom(env, p, items, 0).1.Some?
  {
    var q := WriteTo(WriteOf(env), p, items, 0, m);
    WritingIsTraced(env, start, p, items, m);
    AloneMeansQuiet(env, q.w);
    IngestStops(env, start, OthersCommit(env, q.w), items, m, reach);
    EachIsWriting(env, p, items, 0);
    WritingStops(WriteOf(env), p, items, 0, m);
  }

  lemma {:induction false} ManyStops(env: Surroundings, start: World, w: World, items: seq<NewItem>, m: nat, reach: nat)
    requires WorldTraced(env, start, w) && Undisturbed(env, start, items, reach)
    requires HasRoom(start, w, |items|, reach) && m < |items| && StopsNew(env, start.rows, items[m])
    ensures var r := IngestedMany(env, w, items).1;
            r.Err? && (r.error.Invalid? ==> !AllValid(items))
  {
    ValidationErrors(items, 0, []);
    var validated := ValidateFrom([], items, 0);
    if !env.readOnly && validated.Ok? {
      TracedLater(env, start, w.rows, w.ticks, w.draws, w.ticks + 1, w.draws);
      LoopStops(env, start, w.ticks, Batch(w.rows, w.draws, []), items, validated.value, 0, m, reach);
    }
  }

  lemma {:induction false} BatchStops(env: Surroundings, start: World, p: Progress, batch: seq<NewItem>, m: nat,
                                      reach: nat)
    requires Alone(env) && Valid(p.w.rows) && Novel(p.w.rows, batch, 0) && WorldTraced(env, start, p.w)
    requires Undisturbed(env, start, batch, reach) && HasRoom(start, p.w, 2 * |batch|, reach)
    requires m < |batch| && StopsNew(env, start.rows, batch[m])
    ensures BatchWritten(env, p, batch).1.Some?
  {
    AloneMeansQuiet(env, p.w);
    var w := OthersCommit(env, p.w);
    BatchOfNovel(env, w, batch);
    ManyStops(env, start, w, batch, m, reach);
    ManyTraced(env, start, w, batch);
    ManyUses(env, w, batch);
    var (after, r) := IngestedMany(env, w, batch);
    EachStops(env, start, p.(w := after), batch, m, reach);
  }

  /** A batch that goes through leaves the rest new, with room for it. */
  lemma {:induction false} BatchGoesOn(env: Surroundings, start: World, p: Progress, unseen: seq<NewItem>, n: nat,
                                       reach: nat)
    requires Alone(env) && Valid(p.w.rows) && Novel(p.w.rows, unseen, 0) && WorldTraced(env, start, p.w)
    requires 0 < n <= |unseen| && HasRoom(start, p.w, 2 * |unseen|, reach)
    requires BatchWritten(env, p, unseen[..n]).1.None?
    ensures var next := BatchWritten(env, p, unseen[..n]).0;
            && Valid(next.w.rows) && Novel(next.w.rows, unseen[n..], 0) && WorldTraced(env, start, next.w)
            && HasRoom(start, next.w, 2 * |unseen[n..]|, reach)
  {
    BatchErrors(env, start, p, unseen[..n]);
    BatchUses(env, p, unseen[..n]);
    BatchWrittenNovel(env, p, unseen[..n]);
    NovelAfterPart(p.w.rows, BatchWritten(env, p, unseen[..n]).0.w.rows, unseen, n);
  }

  lemma {:induction false} BatchesStop(env: Surroundings, start: World, p: Progress, unseen: seq<NewItem>, m: nat,
                                       reach: nat)
    requires Alone(env) && Valid(p.w.rows) && Novel(p.w.rows, unseen, 0) && WorldTraced(env, start, p.w)
    requires Undisturbed(env, start, unseen, reach) && HasRoom(start, p.w, 2 * |unseen|, reach)
    requires m < |unseen| && StopsNew(env, start.rows, unseen[m])
    ensures BatchesWritten(env, p, unseen).1.Some?
    decreases |unseen|
  {
    var n := BatchLength(unseen);
    NamesPart(env, start, unseen, 0, n, reach);
    NamesPart(env, start, unseen, n, |unseen|, reach);
    var (next, failed) := BatchWritten(env, p, unseen[..n]);
    BatchesUnfold(env, p, unseen, next, failed);
    if failed.None? {
      BatchGoesOn(env, start, p, unseen, n, reach);
      if m < n {
        BatchStops(env, start, p, unseen[..n], m, reach);
      } else {
        BatchesStop(env, start, next, unseen[n..], m - n, reach);
      }
    }
  }

  lemma {:induction false} BatchesUnfold(env: Surroundings, p: Progress, unseen: seq<NewItem>, next: Progress,
                                         failed: Option<Error>)
    requires unseen != [] && BatchWritten(env, p, unseen[..BatchLength(unseen)]) == (next, failed)
    ensures BatchesWritten(env, p, unseen)
         == if failed.Some? then (next, failed) else BatchesWritten(env, next, unseen[BatchLength(unseen)..])
  {
  }

  lemma {:induction false} ReplacementStops(env: Surroundings, w: World, item: NewItem, target: ItemId)
    requires StopsChanged(env, item)
    ensures Replaced(env, w, item, target).1.Err?
  {
    ValidationIgnoresSupersedes(item, Some(target));
  }

  lemma {:induction false} PresentStops(env: Surroundings, t: Triage, item: NewItem, key: string)
    requires Alone(env) && HolderOf(t.w.rows, key).Some? && Differs(item, HolderOf(t.w.rows, key).value)
    requires StopsChanged(env, item)
    ensures TriagePresent(env, false, t, item, key).1.Some?
  {
    AloneMeansQuiet(env, t.w);
    var seen := OthersCommit(env, t.w);
    AloneMeansQuiet(env, seen);
    ReplacementStops(env, OthersCommit(env, seen), item, HolderOf(t.w.rows, key).value.id);
  }

  lemma {:induction false} TriageStops(env: Surroundings, existing: set<string>, rows: seq<Row>, t: Triage,
                                       items: seq<NewItem>, i: nat, j: nat)
    requires Alone(env) && i <= j < |items| && Knows(existing, rows, items) && Sound(rows, items, i, t)
    requires IsChanged(rows, items, j) && StopsChanged(env, items[j])
    ensures TriageFrom(env, existing, false, t, items, i).1.Some?
    decreases |items| - i
  {
    var (next, failed) := TriageOne(env, existing, false, t, items[i]);
    if i == j {
      var key := items[j].externalId.value;
      assert Seen(items, |items|, key);
      assert key in existing && key !in t.accepted;
      PresentStops(env, t.(accepted := t.accepted + {key}), items[j], key);
    } else if failed.None? {
      TriageStep(env, existing, false, rows, t, items, i);
      TriageStops(env, existing, rows, next, items, i + 1, j);
    }
  }

  /** A candidate at which the run ends, if it gets that far; all of this can be told before the run. */
  predicate StopsRun(env: Surroundings, rows: seq<Row>, items: seq<NewItem>, j: nat)
    requires j < |items|
  {
    || (IsChanged(rows, items, j) && StopsChanged(env, items[j]))
    || (IsNew(rows, items, j) && StopsNew(env, rows, items[j]))
  }

  lemma {:induction false} StopsMeansErr(env: Surroundings, w: World, source: Source, j: nat)
    requires Alone(env) && Valid(w.rows)
    requires var items := Candidates(source, |source.results|);
             Undisturbed(env, w, items, Reach(items)) && j < |items| && StopsRun(env, w.rows, items, j)
    ensures SourceIngested(env, w, source, false).1.Err?
  {
    var items := Candidates(source, |source.results|);
    var (seen, existing) := Existing(env, w, KeysOf(items), 0, {});
    StartIsSound(env, w, source);
    if IsChanged(w.rows, items, j) && StopsChanged(env, items[j]) {
      TriageStops(env, existing, w.rows, Triage(seen, StartReport(source), [], {}), items, 0, j);
    } else {
      TriagedErrors(env, w, source);
      var (t, stopped) := Triaged(env, w, source, false);
      if stopped.None? {
        TriagedKeepsNew(env, w, source);
        TriagedUses(env, w, source);
        NewAmongMembers(w.rows, items, |items|, items[j]);
        var m :| 0 <= m < |t.unseen| && t.unseen[m] == items[j];
        NewNames(env, w, items, |items|, Reach(items));
        BatchesStop(env, w, Progress(t.w, t.report), t.unseen, m, Reach(items));
      }
    }
  }

  lemma {:induction false} NewNames(env: Surroundings, w: World, items: seq<NewItem>, i: nat, reach: nat)
    requires i <= |items| && Undisturbed(env, w, items, reach)
    ensures Undisturbed(env, w, NewAmong(w.rows, items, i), reach)
  {
    var chosen := NewAmong(w.rows, items, i);
    forall m, t: nat, n: nat | 0 <= m < |chosen| && chosen[m].supersedes.Some? && InReach(w, reach, t, n)
      ensures IdAt(env, t, n) != chosen[m].supersedes
    {
      NewAmongMembers(w.rows, items, i, chosen[m]);
      var j :| 0 <= j < i && IsNew(w.rows, items, j) && items[j] == chosen[m];
    }
  }

  lemma {:induction false} FreshIdsDoNotCollide(env: Surroundings, w: World, after: World, reach: nat)
    requires UsesAtMost(w, after, reach) && IdsAreFresh(env, w, reach)
    ensures !LastIdCollides(env, w, after.ticks, after.draws)
  {
    if after.ticks > w.ticks && after.draws > w.draws {
      var tick: nat, draw: nat := after.ticks - 1, after.draws - 1;
      assert InReach(w, reach, tick, draw);
      forall t: nat, n: nat | w.ticks <= t < tick + 1 && w.draws <= n < draw && IdAt(env, t, n).Some?
        ensures IdAt(env, tick, draw) != IdAt(env, t, n)
      {
        assert InReach(w, reach, t, n);
      }
    }
  }

  /** Nothing but a candidate ends a run whose readings are modern and whose ids are fresh. */
  lemma {:induction false} ErrMeansStops(env: Surroundings, w: World, after: World, items: seq<NewItem>, j: nat,
                                         e: Error)
    requires j < |items| && Explains(env, w, after, items, j, e) && UsesAtMost(w, after, Reach(items))
    requires ModernBetween(env, w.ticks, w.ticks + Reach(items)) && IdsAreFresh(env, w, Reach(items))
    ensures StopsRun(env, w.rows, items, j)
  {
    FreshIdsDoNotCollide(env, w, after, Reach(items));
  }

  /**
   With no other writer, and as far as a run over so many candidates can get, a clock after 1970 and ids
   that are neither taken, repeated nor named by a candidate: the run returns `Ok` exactly when no
   candidate stops it. A candidate does by replacing a row with an item that breaks a rule; by being new,
   valid and superseding an item the store does not have; by valid content the table refuses; or by being
   there to write at all when the store was opened read-only.
   */
  lemma {:induction false} WhenRunSucceeds(env: Surroundings, w: World, source: Source)
    requires Alone(env) && Valid(w.rows)
    requires var items := Candidates(source, |source.results|);
             Undisturbed(env, w, items, Reach(items)) && IdsAreFresh(env, w, Reach(items))
    ensures var items := Candidates(source, |source.results|);
            SourceIngested(env, w, source, false).1.Ok? <==>
              forall j :: 0 <= j < |items| ==> !StopsRun(env, w.rows, items, j)
  {
    var items := Candidates(source, |source.results|);
    var (after, r) := SourceIngested(env, w, source, false);
    if r.Err? {
      EveryErrorHasACause(env, w, source);
      RunUses(env, w, source);
      var j :| 0 <= j < |items| && Explains(env, w, after, items, j, r.error);
      ErrMeansStops(env, w, after, items, j, r.error);
    }
    if j :| 0 <= j < |items| && StopsRun(env, w.rows, items, j) { StopsMeansErr(env, w, source, j); }
  }

  /******* The conditions can be met *******/

  /** A store by itself at the start of 1970, each draw yielding the next number. */
  function Counting(readOnly: bool): Surroundings {
    Surroundings(readOnly, _ => 0, n => n, _ => [], (_, _) => Hook.Fine)
  }

  const EMPTY_STORE := World([], 0, 0, 0, 0, None)

  /** An empty store and counted draws meet them for any source that names no item to supersede. */
  lemma {:induction false} ConditionsAreMet(readOnly: bool, items: seq<NewItem>)
    requires Reach(items) <= RANDOM_RANGE && forall j :: 0 <= j < |items| ==> items[j].supersedes.None?
    ensures Alone(Counting(readOnly)) && Valid(EMPTY_STORE.rows)
    ensures Undisturbed(Counting(readOnly), EMPTY_STORE, items, Reach(items))
    ensures IdsAreFresh(Counting(readOnly), EMPTY_STORE, Reach(items))
  {
    var env := Counting(readOnly);
    forall t: nat, n: nat | InReach(EMPTY_STORE, Reach(items), t, n) ensures IdAt(env, t, n) == Some(n) {
      assert n % RANDOM_RANGE == n;
    }
  }

  /** So on an empty store such a run succeeds exactly when the table takes the content of every valid item. */
  lemma {:induction false} FirstRunSucceeds(source: Source)
    requires var items := Candidates(source, |source.results|);
             Reach(items) <= RANDOM_RANGE && forall j :: 0 <= j < |items| ==> items[j].supersedes.None?
    ensures var items := Candidates(source, |source.results|);
            SourceIngested(Counting(false), EMPTY_STORE, source, false).1.Ok? <==>
              forall j :: 0 <= j < |items| && IsNew([], items, j) ==> !IsRefusedByTable(items[j])
  {
    var items := Candidates(source, |source.results|);
    var env := Counting(false);
    ConditionsAreMet(false, items);
    WhenRunSucceeds(env, EMPTY_STORE, source);
    forall j | 0 <= j < |items|
      ensures StopsRun(env, [], items, j) <==> IsNew([], items, j) && IsRefusedByTable(items[j])
    {
      FirstStops(env, items, j);
    }
  }

  lemma {:induction false} FirstStops(env: Surroundings, items: seq<NewItem>, j: nat)
    requires j < |items| && items[j].supersedes.None? && !env.readOnly
    ensures StopsRun(env, [], items, j) <==> IsNew([], items, j) && IsRefusedByTable(items[j])
  {
  }

  /** A small item with a key. */
  function Note(content: string, key: string): NewItem {
    NewItem(content, None, [], None, Json.Object([]), Some(key), None)
  }

  function TwoNotes(first: string, second: string): Source {
    Source([Ok(Note(first, "a")), Ok(Note(second, "b"))], 0, (_: NewItem) => None)
  }

  lemma {:induction false} TwoCandidates(first: string, second: string)
    ensures var source := TwoNotes(first, second);
            Candidates(source, |source.results|) == [Note(first, "a"), Note(second, "b")]
  {
    var source := TwoNotes(first, second);
    assert Candidates(source, 0) == [];
    assert Candidates(source, 1) == [Note(first, "a")];
  }

  lemma {:induction false} ShortNotesAreValid(content: string, key: string)
    requires 1 <= |content| <= 2 && (key == "a" || key == "b")
    ensures IsValid(Note(content, key))
  {
    assert Bytes(content[1..]) <= 4;
    assert Bytes(key[1..]) == 0;
  }

  lemma {:induction false} BothAreNew(items: seq<NewItem>)
    requires |items| == 2 && items[0].externalId == Some("a") && items[1].externalId == Some("b")
    ensures IsNew([], items, 0) && IsNew([], items, 1)
  {
    assert items[0].externalId != items[1].externalId;
    assert !Seen(items, 0, "a") && !Seen(items, 1, "b");
  }

  /** On an empty store two short notes go in exactly when neither begins with NUL: both outcomes occur. */
  lemma {:induction false} BothOutcomesOccur(first: string, second: string)
    requires 1 <= |first| <= 2 && 1 <= |second| <= 2
    ensures SourceIngested(Counting(false), EMPTY_STORE, TwoNotes(first, second), false).1.Ok? <==>
              first[0] != '\0' && second[0] != '\0'
  {
    var items := [Note(first, "a"), Note(second, "b")];
    TwoCandidates(first, second);
    FirstRunSucceeds(TwoNotes(first, second));
    ShortNotesAreValid(first, "a");
    ShortNotesAreValid(second, "b");
    BothAreNew(items);
    assert IsRefusedByTable(items[0]) <==> first[0] == '\0';
    assert IsRefusedByTable(items[1]) <==> second[0] == '\0';
  }

  /******* One item is enough *******/

  lemma {:induction false} OneCandidate(source: Source, item: NewItem)
    requires source.results == [Ok(item)] && item.scope.Some?
    ensures Candidates(source, |source.results|) == [item]
  {
    NewItemStart(source, item);
  }

  /** An item that breaks a rule, where a row with its key and another hash is there: the run ends on that rule. */
  lemma {:induction false} InvalidReplacementEndsRun(env: Surroundings, w: World, source: Source, item: NewItem,
                                                     key: string)
    requires Alone(env) && !env.readOnly && source.results == [Ok(item)] && item.scope.Some?
    requires item.externalId == Some(key)
    requires HolderOf(w.rows, key).Some? && Differs(item, HolderOf(w.rows, key).value) && !IsValid(item)
    ensures var (after, r) := SourceIngested(env, w, source, false);
            r == Err(Validate(item).error) && r.error.Invalid? && after.rows == w.rows
  {
    OneCandidate(source, item);
    ExistingQuiet(env, w, KeysOf([item]), 0, {});
    KeysMeaning([item], key);
    assert Seen([item], 1, key);
    var (seen, existing) := Existing(env, w, KeysOf([item]), 0, {});
    AloneMeansQuiet(env, seen);
    var looked := OthersCommit(env, seen);
    AloneMeansQuiet(env, looked);
    ValidationIgnoresSupersedes(item, Some(HolderOf(w.rows, key).value.id));
    assert key in existing;
    var start := Triage(seen, StartReport(source), [], {});
    var (next, failed) := TriageOne(env, existing, false, start, item);
    assert failed == Some(Validate(item).error) && next.w.rows == w.rows;
  }

  /** A valid new item that supersedes an item the store does not have: the run ends on that. */
  lemma {:induction false} DanglingSupersedesEndsRun(env: Surroundings, w: World, source: Source, item: NewItem,
                                                     key: string)
    requires Alone(env) && !env.readOnly && source.results == [Ok(item)] && item.scope.Some?
    requires item.externalId == Some(key)
    requires !HasKey(w.rows, key) && IsValid(item) && IsDangling(w.rows, item)
    ensures var (after, r) := SourceIngested(env, w, source, false);
            r == Err(SupersedesNotFound(item.supersedes.value)) && after.rows == w.rows
  {
    NewItemTriage(env, w, source, item, key);
    var t := Triaged(env, w, source, false).0;
    OneItemMany(env, t.w, item);
    var p := Progress(t.w, t.report);
    assert [item][..1] == [item];
    assert BatchWritten(env, p, [item]).1 == Some(SupersedesNotFound(item.supersedes.value));
  }

  lemma {:induction false} OneItemMany(env: Surroundings, w: World, item: NewItem)
    requires Alone(env) && !env.readOnly && IsValid(item)
    ensures var now := OthersCommit(env, w);
            && now == w.(turns := w.turns + 1)
            && var tick, empty := env.clock(w.ticks), Batch(w.rows, w.draws, []);
               var (next, failed) := InsertOne(env, tick, empty, item, Validate(item).value);
               failed.Some? ==>
                 IngestedMany(env, now, [item])
                 == (now.(ticks := w.ticks + 1, draws := next.draws), Err(failed.value))
  {
    AloneMeansQuiet(env, w);
    var validated := ValidateFrom([], [item], 0);
    assert validated.Ok? && validated.value == [Validate(item).value];
  }

  /** Valid content that begins with NUL: the table's check refuses it and the run ends on that. */
  lemma {:induction false} RefusedContentEndsRun(env: Surroundings, w: World, source: Source, item: NewItem,
                                                 key: string)
    requires Alone(env) && !env.readOnly && source.results == [Ok(item)] && item.scope.Some?
    requires item.externalId == Some(key)
    requires !HasKey(w.rows, key) && IsRefusedByTable(item) && item.supersedes.None? && IsModern(env.clock(w.ticks))
    ensures var (after, r) := SourceIngested(env, w, source, false);
            r == Err(Sqlite) && after.rows == w.rows
  {
    NewItemTriage(env, w, source, item, key);
    var t := Triaged(env, w, source, false).0;
    OneItemMany(env, t.w, item);
    var p := Progress(t.w, t.report);
    assert [item][..1] == [item];
    assert BatchWritten(env, p, [item]).1 == Some(Sqlite);
  }
}
