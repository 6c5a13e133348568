/**
 The memory store: write operations over the items table, with the injected clock and random
 stream, the attached index hooks, and other processes committing between its transactions.
 */
module Store {
  import opened Wrappers
  import opened Items
  import opened Table
  import opened Hook
  import Scope

  /**
   Everything a store does not control: whether it was opened read-only, the clock and random bytes
   it reads, what other processes commit at each of its turns, and how its hook calls go.
   */
  datatype Surroundings = Surroundings(
    readOnly: bool,
    clock: nat -> int,
    random: nat -> nat,
    others: nat -> seq<Txn>,
    faults: Faults)

  /**
   `ticks`, `draws` and `turns` count how much of each stream has been used; `arrivals` counts the rows
   other processes have added at this store's turns.
   */
  datatype World = World(
    rows: seq<Row>, ticks: nat, draws: nat, turns: nat, arrivals: nat, hooks: Option<seq<Sidecar>>)

  /******* What the operations do, as functions *******/

  /** `fire_hook`: index the item, and commit only if every member took it. */
  function FireHook(env: Surroundings, w: World, row: Row): World {
    match w.hooks
    case None => w
    case Some(members) =>
      var indexed := CallEach(env.faults, members, OnIngest(row));
      if AllSucceed(env.faults, members, OnIngest(row)) then
        w.(hooks := Some(CallEach(env.faults, indexed, Publish)))
      else w.(hooks := Some(indexed))
  }

  /** The batch hook: index the batch, then commit whether or not that failed. */
  function FireBatch(env: Surroundings, w: World, rows: seq<Row>): World {
    match w.hooks
    case None => w
    case Some(members) =>
      w.(hooks := Some(CallEach(env.faults, CallEach(env.faults, members, OnIngestBatch(rows)), Publish)))
  }

  function Ingested(env: Surroundings, w: World, item: NewItem): (World, Result<Row, Error>) {
    if env.readOnly then (w, Err(ReadOnly))
    else
      match Validate(item)
      case Err(e) => (w, Err(e))
      case Ok(validated) =>
        var now := env.clock(w.ticks);
        var ticked := w.(ticks := w.ticks + 1);
        match MintId(now, env.random(w.draws))
        case None => (ticked, Err(Invalid("internal:timestamp")))
        case Some(id) =>
          var drawn := ticked.(draws := w.draws + 1);
          var row := RowOf(item, validated, id, now);
          match CheckedInsert(w.rows, row)
          case Err(e) => (drawn, Err(e))
          case Ok(rows) => (FireHook(env, drawn.(rows := rows), row), Ok(row))
  }

  /** The result of a batch's insert loop: the working table, the draws used, and the rows made. */
  datatype Batch = Batch(rows: seq<Row>, draws: nat, made: seq<Row>)

  /** One turn of the insert loop. */
  function InsertOne(env: Surroundings, now: int, batch: Batch, item: NewItem,
                     validated: Validated): (Batch, Option<Error>) {
    if item.supersedes.Some? && !HasId(batch.rows, item.supersedes.value) then
      (batch, Some(SupersedesNotFound(item.supersedes.value)))
    else
      match MintId(now, env.random(batch.draws))
      case None => (batch, Some(Invalid("internal:timestamp")))
      case Some(id) =>
        var row := RowOf(item, validated, id, now);
        match InsertRow(batch.rows, row)
        case Err(e) => (batch.(draws := batch.draws + 1), Some(e))
        case Ok(rows) => (Batch(rows, batch.draws + 1, batch.made + [row]), None)
  }

  /** Where the insert loop stops: at the end, or at the first item that fails. */
  function InsertLoop(env: Surroundings, now: int, batch: Batch, items: seq<NewItem>, validated: seq<Validated>, i: nat)
    : (Batch, Option<Error>)
    requires i <= |items| == |validated|
    decreases |items| - i
  {
    if i == |items| then (batch, None)
    else
      var (next, failed) := InsertOne(env, now, batch, items[i], validated[i]);
      if failed.Some? then (next, failed) else InsertLoop(env, now, next, items, validated, i + 1)
  }

  /** Every item validated, in order behind those already `done`, or the first rule broken. */
  function ValidateFrom(done: seq<Validated>, items: seq<NewItem>, i: nat): (r: Result<seq<Validated>, Error>)
    requires i <= |items|
    ensures r.Ok? <==> forall j :: i <= j < |items| ==> IsValid(items[j])
    ensures r.Ok? ==> |r.value| == |done| + |items| - i && done <= r.value
    ensures r.Ok? ==> forall j :: i <= j < |items| ==> Validate(items[j]) == Ok(r.value[|done| + j - i])
    decreases |items| - i
  {
    if i == |items| then Ok(done)
    else
      match Validate(items[i])
      case Err(e) => Err(e)
      case Ok(v) => ValidateFrom(done + [v], items, i + 1)
  }

  function IngestedMany(env: Surroundings, w: World, items: seq<NewItem>): (World, Result<seq<Row>, Error>) {
    if env.readOnly then (w, Err(ReadOnly))
    else
      match ValidateFrom([], items, 0)
      case Err(e) => (w, Err(e))
      case Ok(validated) =>
        var now := env.clock(w.ticks);
        var (batch, failed) := InsertLoop(env, now, Batch(w.rows, w.draws, []), items, validated, 0);
        var used := w.(ticks := w.ticks + 1, draws := batch.draws);
        match failed
        case Some(e) => (used, Err(e))
        case None => (FireBatch(env, used.(rows := batch.rows), batch.made), Ok(batch.made))
  }

  function Replaced(env: Surroundings, w: World, item: NewItem, old_: ItemId): (World, Result<Row, Error>) {
    var successor := item.(supersedes := Some(old_));
    if env.readOnly then (w, Err(ReadOnly))
    else
      match Validate(successor)
      case Err(e) => (w, Err(e))
      case Ok(validated) =>
        var now := env.clock(w.ticks);
        var ticked := w.(ticks := w.ticks + 1);
        match MintId(now, env.random(w.draws))
        case None => (ticked, Err(Invalid("internal:timestamp")))
        case Some(id) =>
          var drawn := ticked.(draws := w.draws + 1);
          var row := RowOf(successor, validated, id, now);
          match ReplaceRow(w.rows, row, old_)
          case Err(e) => (drawn, Err(e))
          case Ok(rows) => (FireHook(env, drawn.(rows := rows), row), Ok(row))
  }

  /** `set_scope` tells no hook. */
  function Rescoped(env: Surroundings, w: World, id: ItemId, scope: Option<string>): (World, Result<Row, Error>) {
    if env.readOnly then (w, Err(ReadOnly))
    else
      match NormaliseOption(scope)
      case Err(e) => (w, Err(e))
      case Ok(normalised) =>
        match MoveScope(w.rows, id, normalised)
        case Err(e) => (w, Err(e))
        case Ok(rows) => (w.(rows := rows), Ok(rows[IndexOfId(w.rows, 0, id).value]))
  }

  function NormaliseOption(scope: Option<string>): Result<Option<string>, Error> {
    match scope
    case None => Ok(None)
    case Some(raw) =>
      match Scope.Normalise(raw)
      case Err(_) => Err(Invalid("scope"))
      case Ok(s) => Ok(Some(s))
  }

  /** Other processes' transactions from `i` on, in turn. */
  function ApplyFrom(rows: seq<Row>, txns: seq<Txn>, i: nat): (after: seq<Row>)
    requires i <= |txns|
    ensures |rows| <= |after|
    decreases |txns| - i
  {
    TableNeverShrinks(rows, txns, i);
    if i == |txns| then rows else ApplyFrom(Apply(rows, txns[i]), txns, i + 1)
  }

  lemma {:induction false} TableNeverShrinks(rows: seq<Row>, txns: seq<Txn>, i: nat)
    requires i <= |txns|
    ensures i < |txns| ==> |rows| <= |Apply(rows, txns[i])|
  {
    if i < |txns| && txns[i].Inserts? && InsertAll(rows, txns[i].batch, 0).Ok? {
      InsertAllAppends(rows, txns[i].batch, 0);
    }
  }

  function OthersCommit(env: Surroundings, w: World): World {
    var rows := ApplyFrom(w.rows, env.others(w.turns), 0);
    w.(rows := rows, turns := w.turns + 1, arrivals := w.arrivals + (|rows| - |w.rows|))
  }

  /** `existing_external_ids`: one point query per id, each seeing what others have committed by then. */
  function Existing(env: Surroundings, w: World, keys: seq<string>, i: nat, found: set<string>): (World, set<string>)
    requires i <= |keys|
    decreases |keys| - i
  {
    if i == |keys| then (w, found)
    else
      var now := OthersCommit(env, w);
      Existing(env, now, keys, i + 1, if Table.HasKey(now.rows, keys[i]) then found + {keys[i]} else found)
  }

  /** The row that holds an external id. */
  function HolderOf(rows: seq<Row>, key: string): (holder: Option<Row>)
    ensures holder.Some? ==> holder.value in rows && holder.value.externalId == Some(key)
  {
    match IndexOfKey(rows, 0, key)
    case None => None
    case Some(i) => Some(rows[i])
  }

  /******* The store itself *******/

  class Store {
    const env: Surroundings
    var rows: seq<Row>
    var ticks: nat
    var draws: nat
    var turns: nat
    var arrivals: nat
    var hooks: Option<seq<Sidecar>>

    constructor (env: Surroundings, rows: seq<Row>)
      ensures this.env == env && Here() == World(rows, 0, 0, 0, 0, None)
    {
      this.env, this.rows := env, rows;
      ticks, draws, turns, arrivals, hooks := 0, 0, 0, 0, None;
    }

    function Here(): World
      reads this
    {
      World(rows, ticks, draws, turns, arrivals, hooks)
    }

    /** `set_hook`. */
    method SetHook(members: Option<seq<Sidecar>>)
      modifies this`hooks
      ensures hooks == members
    {
      hooks := members;
    }

    method MintRawUlid(now: int) returns (id: Option<ItemId>)
      modifies this`draws
      ensures id == MintId(now, env.random(old(draws)))
      ensures draws == if id.None? then old(draws) else old(draws) + 1
    {
      if Milliseconds(now) < 0 { return None; }
      id := MintId(now, env.random(draws));
      draws := draws + 1;
    }

    method RunHook(row: Row)
      modifies this`hooks
      ensures Here() == FireHook(env, old(Here()), row)
    {
      if hooks.Some? {
        var indexed, failed := RunAll(env.faults, hooks.value, OnIngest(row));
        hooks := Some(indexed);
        if failed.None? {
          var published, unpublished := RunAll(env.faults, indexed, Publish);
          hooks := Some(published);
        }
      }
    }

    method Ingest(item: NewItem) returns (r: Result<Row, Error>)
      modifies this
      ensures (Here(), r) == Ingested(env, old(Here()), item)
    {
      if env.readOnly { return Err(ReadOnly); }
      var validated := Validate(item);
      if validated.Err? { return Err(validated.error); }
      var now := env.clock(ticks);
      ticks := ticks + 1;
      var id := MintRawUlid(now);
      if id.None? { return Err(Invalid("internal:timestamp")); }
      if item.supersedes.Some? && !HasId(rows, item.supersedes.value) {
        return Err(SupersedesNotFound(item.supersedes.value));
      }
      var row := RowOf(item, validated.value, id.value, now);
      var tx := InsertRow(rows, row);
      if tx.Err? { return Err(tx.error); }
      rows := tx.value;
      RunHook(row);
      return Ok(row);
    }

    /** The validation pass of `ingest_many`, before any SQL. */
    method ValidateItems(items: seq<NewItem>) returns (r: Result<seq<Validated>, Error>)
      ensures r == ValidateFrom([], items, 0)
    {
      var validated: seq<Validated> := [];
      var i := 0;
      while i < |items|
        invariant 0 <= i <= |items|
        invariant ValidateFrom(validated, items, i) == ValidateFrom([], items, 0)
      {
        var v := Validate(items[i]);
        if v.Err? { return Err(v.error); }
        validated := validated + [v.value];
        i := i + 1;
      }
      return Ok(validated);
    }

    /** One turn of `ingest_many`'s loop, on the open transaction. */
    method InsertItem(tx: seq<Row>, made: seq<Row>, item: NewItem, validated: Validated, now: int)
      returns (rows': seq<Row>, made': seq<Row>, failed: Option<Error>)
      modifies this`draws
      ensures (Batch(rows', draws, made'), failed) == InsertOne(env, now, Batch(tx, old(draws), made), item, validated)
    {
      rows', made', failed := tx, made, None;
      if item.supersedes.Some? && !HasId(tx, item.supersedes.value) {
        failed := Some(SupersedesNotFound(item.supersedes.value));
        return;
      }
      var id := MintRawUlid(now);
      if id.None? {
        failed := Some(Invalid("internal:timestamp"));
        return;
      }
      var row := RowOf(item, validated, id.value, now);
      var next := InsertRow(tx, row);
      if next.Err? {
        failed := Some(next.error);
        return;
      }
      rows', made' := next.value, made + [row];
    }

    /** `ingest_many`'s loop: every item into a working copy of the table, stopping at the first failure. */
    method InsertItems(items: seq<NewItem>, validated: seq<Validated>, now: int)
      returns (tx: seq<Row>, made: seq<Row>, failed: Option<Error>)
      requires |items| == |validated|
      modifies this`draws
      ensures (Batch(tx, draws, made), failed)
           == InsertLoop(env, now, Batch(rows, old(draws), []), items, validated, 0)
    {
      tx, made, failed := rows, [], None;
      var i := 0;
      ghost var outcome := InsertLoop(env, now, Batch(rows, draws, []), items, validated, 0);
      while i < |items|
        invariant 0 <= i <= |items| && failed.None?
        invariant InsertLoop(env, now, Batch(tx, draws, made), items, validated, i) == outcome
      {
        tx, made, failed := InsertItem(tx, made, items[i], validated[i], now);
        if failed.Some? { return; }
        i := i + 1;
      }
    }

    /** `ingest_many`: one transaction; nothing is kept unless every item goes in. */
    method IngestMany(items: seq<NewItem>) returns (r: Result<seq<Row>, Error>)
      modifies this
      ensures (Here(), r) == IngestedMany(env, old(Here()), items)
    {
      if env.readOnly { return Err(ReadOnly); }
      var validated := ValidateItems(items);
      if validated.Err? { return Err(validated.error); }
      var now := env.clock(ticks);
      ticks := ticks + 1;
      var tx, made, failed := InsertItems(items, validated.value, now);
      if failed.Some? { return Err(failed.value); }
      rows := tx;
      PublishBatch(made);
      return Ok(made);
    }

    /** One `on_ingest_batch`, then one commit even if that failed. */
    method PublishBatch(made: seq<Row>)
      modifies this`hooks
      ensures Here() == FireBatch(env, old(Here()), made)
    {
      if hooks.Some? {
        var indexed, failed := RunAll(env.faults, hooks.value, OnIngestBatch(made));
        var published, unpublished := RunAll(env.faults, indexed, Publish);
        hooks := Some(published);
      }
    }

    method IngestReplacing(item: NewItem, old_: ItemId) returns (r: Result<Row, Error>)
      modifies this
      ensures (Here(), r) == Replaced(env, old(Here()), item, old_)
    {
      if env.readOnly { return Err(ReadOnly); }
      var successor := item.(supersedes := Some(old_));
      var validated := Validate(successor);
      if validated.Err? { return Err(validated.error); }
      var now := env.clock(ticks);
      ticks := ticks + 1;
      var id := MintRawUlid(now);
      if id.None? { return Err(Invalid("internal:timestamp")); }
      var freed := IndexOfId(rows, 0, old_);
      if freed.None? { return Err(SupersedesNotFound(old_)); }
      var tx := rows[freed.value := rows[freed.value].(externalId := None)];
      var row := RowOf(successor, validated.value, id.value, now);
      var next := InsertRow(tx, row);
      if next.Err? { return Err(next.error); }
      rows := next.value;
      RunHook(row);
      return Ok(row);
    }

    method SetScope(id: ItemId, scope: Option<string>) returns (r: Result<Row, Error>)
      modifies this`rows
      ensures (Here(), r) == Rescoped(env, old(Here()), id, scope)
    {
      if env.readOnly { return Err(ReadOnly); }
      var normalised := NormaliseOption(scope);
      if normalised.Err? { return Err(normalised.error); }
      var changed := IndexOfId(rows, 0, id);
      if changed.None? { return Err(NotFound(id)); }
      rows := rows[changed.value := rows[changed.value].(scope := normalised.value)];
      return Ok(rows[changed.value]);
    }

    /** Between two of this store's transactions other processes may commit theirs. */
    method LetOthersCommit()
      modifies this`rows, this`turns, this`arrivals
      ensures Here() == OthersCommit(env, old(Here()))
    {
      var before := rows;
      var txns := env.others(turns);
      var i := 0;
      while i < |txns|
        invariant 0 <= i <= |txns| && turns == old(turns) && arrivals == old(arrivals)
        invariant ApplyFrom(rows, txns, i) == ApplyFrom(before, txns, 0)
      {
        rows := Apply(rows, txns[i]);
        i := i + 1;
      }
      arrivals := arrivals + (|rows| - |before|);
      turns := turns + 1;
    }

    method ExistingExternalIds(keys: seq<string>) returns (found: set<string>)
      modifies this`rows, this`turns, this`arrivals
      ensures (Here(), found) == Existing(env, old(Here()), keys, 0, {})
    {
      found := {};
      var i := 0;
      ghost var outcome := Existing(env, Here(), keys, 0, {});
      while i < |keys|
        invariant 0 <= i <= |keys|
        invariant Existing(env, Here(), keys, i, found) == outcome
      {
        LetOthersCommit();
        if Table.HasKey(rows, keys[i]) {
          found := found + {keys[i]};
        }
        i := i + 1;
      }
    }

    method GetByExternalId(key: string) returns (holder: Option<Row>)
      ensures holder == HolderOf(rows, key)
      ensures holder.None? <==> forall i :: 0 <= i < |rows| ==> rows[i].externalId != Some(key)
      ensures holder.Some? ==> holder.value in rows && holder.value.externalId == Some(key)
    {
      var i := IndexOfKey(rows, 0, key);
      return if i.None? then None else Some(rows[i.value]);
    }
  }

  /******* Every operation is one transaction or none *******/

  /** The transaction an operation commits, when it succeeds. */
  lemma {:induction false} IngestIsTransaction(env: Surroundings, w: World, item: NewItem)
    ensures var (after, r) := Ingested(env, w, item);
            && (r.Ok? ==> Commit(w.rows, Inserts([r.value])) == Ok(after.rows))
            && (r.Err? ==> after.rows == w.rows && after.hooks == w.hooks)
  {
    var (after, r) := Ingested(env, w, item);
    if r.Ok? {
      var next := CheckedInsert(w.rows, r.value).value;
      assert InsertAll(next, [r.value], 1) == Ok(next);
    }
  }

  lemma {:induction false} InsertOneMeaning(env: Surroundings, now: int, batch: Batch, item: NewItem,
                                            validated: Validated)
    ensures var (next, failed) := InsertOne(env, now, batch, item, validated);
            && batch.made <= next.made
            && (failed.None? ==>
                  |next.made| == |batch.made| + 1
                  && CheckedInsert(batch.rows, next.made[|batch.made|]) == Ok(next.rows))
  {
  }

  lemma {:induction false} InsertLoopExtends(env: Surroundings, now: int, batch: Batch, items: seq<NewItem>,
                                             validated: seq<Validated>, i: nat)
    requires i <= |items| == |validated|
    ensures var (after, failed) := InsertLoop(env, now, batch, items, validated, i);
            batch.made <= after.made && (failed.None? ==> |after.made| == |batch.made| + |items| - i)
    decreases |items| - i
  {
    if i < |items| {
      var (next, stopped) := InsertOne(env, now, batch, items[i], validated[i]);
      InsertOneMeaning(env, now, batch, items[i], validated[i]);
      if stopped.None? { InsertLoopExtends(env, now, next, items, validated, i + 1); }
    }
  }

  lemma {:induction false} InsertLoopIsInsertAll(env: Surroundings, now: int, batch: Batch, items: seq<NewItem>,
                                                 validated: seq<Validated>, i: nat)
    requires i <= |items| == |validated| && InsertLoop(env, now, batch, items, validated, i).1.None?
    ensures var after := InsertLoop(env, now, batch, items, validated, i).0;
            |batch.made| <= |after.made| && InsertAll(batch.rows, after.made, |batch.made|) == Ok(after.rows)
    decreases |items| - i
  {
    InsertLoopExtends(env, now, batch, items, validated, i);
    if i < |items| {
      var next := InsertOne(env, now, batch, items[i], validated[i]).0;
      InsertOneMeaning(env, now, batch, items[i], validated[i]);
      InsertLoopExtends(env, now, next, items, validated, i + 1);
      InsertLoopIsInsertAll(env, now, next, items, validated, i + 1);
      var after := InsertLoop(env, now, batch, items, validated, i).0;
      assert after.made[|batch.made|] == next.made[|batch.made|];
    }
  }

  lemma {:induction false} IngestManyIsTransaction(env: Surroundings, w: World, items: seq<NewItem>)
    ensures var (after, r) := IngestedMany(env, w, items);
            && (r.Ok? ==> |r.value| == |items| && Commit(w.rows, Inserts(r.value)) == Ok(after.rows))
            && (r.Err? ==> after.rows == w.rows && after.hooks == w.hooks)
  {
    var (after, r) := IngestedMany(env, w, items);
    if r.Ok? {
      var validated := ValidateFrom([], items, 0).value;
      InsertLoopExtends(env, env.clock(w.ticks), Batch(w.rows, w.draws, []), items, validated, 0);
      InsertLoopIsInsertAll(env, env.clock(w.ticks), Batch(w.rows, w.draws, []), items, validated, 0);
    }
  }

  lemma {:induction false} ReplaceIsTransaction(env: Surroundings, w: World, item: NewItem, old_: ItemId)
    ensures var (after, r) := Replaced(env, w, item, old_);
            && (r.Ok? ==>
                  Commit(w.rows, Replacement(r.value, old_)) == Ok(after.rows) && r.value.supersedes == Some(old_))
            && (r.Err? ==> after.rows == w.rows && after.hooks == w.hooks)
  {
  }

  lemma {:induction false} RescopeIsTransaction(env: Surroundings, w: World, id: ItemId, scope: Option<string>)
    ensures var (after, r) := Rescoped(env, w, id, scope);
            && (r.Ok? ==> exists s :: Commit(w.rows, ScopeMove(id, s)) == Ok(after.rows))
            && (r.Err? ==> after.rows == w.rows) && after.hooks == w.hooks
  {
    var (after, r) := Rescoped(env, w, id, scope);
    if r.Ok? { assert Commit(w.rows, ScopeMove(id, NormaliseOption(scope).value)) == Ok(after.rows); }
  }

  /******* A batch is its items ingested one at a time *******/

  /** Items ingested one by one until one fails. */
  function IngestedEach(env: Surroundings, w: World, items: seq<NewItem>, i: nat, made: seq<Row>)
    : (World, Result<seq<Row>, Error>)
    requires i <= |items|
    decreases |items| - i
  {
    if i == |items| then (w, Ok(made))
    else
      var (next, r) := Ingested(env, w, items[i]);
      match r
      case Err(e) => (next, Err(e))
      case Ok(row) => IngestedEach(env, next, items, i + 1, made + [row])
  }

  /** The same surroundings with the clock stopped at `now`. */
  function Stopped(env: Surroundings, now: int): Surroundings {
    env.(clock := (_: nat) => now)
  }

  lemma {:induction false} FireHookKeepsRest(env: Surroundings, w: World, row: Row)
    ensures var f := FireHook(env, w, row);
            && f.rows == w.rows && f.ticks == w.ticks && f.draws == w.draws
            && f.turns == w.turns && f.arrivals == w.arrivals
  {
  }

  /** One turn of the batch loop against one single ingest at the same instant. */
  lemma {:induction false} OneIsSingle(env: Surroundings, now: int, batch: Batch, w: World, item: NewItem,
                                       validated: Validated)
    requires Validate(item) == Ok(validated) && !env.readOnly && batch.rows == w.rows && batch.draws == w.draws
    ensures var (next, failed) := InsertOne(env, now, batch, item, validated);
            var (single, r) := Ingested(Stopped(env, now), w, item);
            && (failed.None? <==> r.Ok?)
            && (r.Ok? ==> single.rows == next.rows && single.draws == next.draws && next.made == batch.made + [r.value])
  {
    var (single, r) := Ingested(Stopped(env, now), w, item);
    if r.Ok? {
      var rows := InsertRow(w.rows, r.value).value;
      var written := w.(rows := rows, ticks := w.ticks + 1, draws := w.draws + 1);
      FireHookKeepsRest(Stopped(env, now), written, r.value);
    }
  }

  lemma {:induction false} LoopIsEach(env: Surroundings, now: int, batch: Batch, w: World, items: seq<NewItem>,
                                      validated: seq<Validated>, i: nat)
    requires i <= |items| == |validated| && !env.readOnly
    requires forall j :: 0 <= j < |items| ==> Validate(items[j]) == Ok(validated[j])
    requires batch.rows == w.rows && batch.draws == w.draws
    ensures var (after, failed) := InsertLoop(env, now, batch, items, validated, i);
            var (each, r) := IngestedEach(Stopped(env, now), w, items, i, batch.made);
            && (failed.None? <==> r.Ok?)
            && (r.Ok? ==> each.rows == after.rows && each.draws == after.draws && r.value == after.made)
    decreases |items| - i
  {
    if i < |items| {
      OneIsSingle(env, now, batch, w, items[i], validated[i]);
      var next := Ingested(Stopped(env, now), w, items[i]).0;
      if InsertOne(env, now, batch, items[i], validated[i]).1.None? {
        LoopIsEach(env, now, InsertOne(env, now, batch, items[i], validated[i]).0, next, items, validated, i + 1);
      }
    }
  }

  /** With an item that breaks a rule, ingesting one by one fails too. */
  lemma {:induction false} EachFailsOnInvalid(env: Surroundings, w: World, items: seq<NewItem>, i: nat, made: seq<Row>,
                                              bad: nat)
    requires i <= bad < |items| && !IsValid(items[bad])
    ensures IngestedEach(env, w, items, i, made).1.Err?
    decreases |items| - i
  {
    var (next, r) := Ingested(env, w, items[i]);
    if r.Ok? { EachFailsOnInvalid(env, next, items, i + 1, made + [r.value], bad); }
  }

  /**
   `ingest_many` succeeds exactly when ingesting its items one after another, at the instant it reads
   and from the same random stream, succeeds for all of them; then both leave the same table and
   return the same rows, later items superseding earlier ones included. Otherwise the table is
   unchanged.
   */
  lemma {:induction false} BatchRefinesSingles(env: Surroundings, w: World, items: seq<NewItem>)
    requires !env.readOnly
    ensures var (many, r) := IngestedMany(env, w, items);
            var (each, s) := IngestedEach(Stopped(env, env.clock(w.ticks)), w, items, 0, []);
            && (r.Ok? <==> s.Ok?)
            && (r.Ok? ==> many.rows == each.rows && many.draws == each.draws && r.value == s.value)
            && (r.Err? ==> many.rows == w.rows && many.hooks == w.hooks)
  {
    var now := env.clock(w.ticks);
    if ValidateFrom([], items, 0).Ok? {
      LoopIsEach(env, now, Batch(w.rows, w.draws, []), w, items, ValidateFrom([], items, 0).value, 0);
    } else {
      var bad :| 0 <= bad < |items| && !IsValid(items[bad]);
      EachFailsOnInvalid(Stopped(env, now), w, items, 0, [], bad);
    }
  }

  /** Whatever the operation, the table stays valid and only evolves. */
  lemma {:induction false} OthersKeepValid(rows: seq<Row>, txns: seq<Txn>, i: nat)
    requires Valid(rows) && i <= |txns|
    ensures Valid(ApplyFrom(rows, txns, i)) && Evolves(rows, ApplyFrom(rows, txns, i))
    decreases |txns| - i
  {
    if i < |txns| {
      var next := Apply(rows, txns[i]);
      CommitKeepsValid(rows, txns[i]);
      OthersKeepValid(next, txns, i + 1);
      EvolvesTransitive(rows, next, ApplyFrom(rows, txns, i));
    }
  }
}
