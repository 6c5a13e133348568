/** What the rows hold: the fields of the items they were written for, and what that makes of whole tables. */
module Records {
  import opened Wrappers
  import opened Items
  import opened Table
  import opened Hook
  import opened Store
  import opened Agreement
  import Scope

  /******* What each operation writes *******/

  /** A successful ingest appends one row, which holds the item's fields and the time of the reading. */
  lemma {:induction false} IngestRecords(env: Surroundings, w: World, item: NewItem)
    requires Ingested(env, w, item).1.Ok?
    ensures var (after, r) := Ingested(env, w, item);
            && after.rows == w.rows + [r.value] && RecordsItem(r.value, item)
            && r.value.supersedes == item.supersedes && r.value.createdAt == env.clock(w.ticks)
            && !HasId(w.rows, r.value.id)
  {
    RowRecords(item, Validate(item).value, MintId(env.clock(w.ticks), env.random(w.draws)).value, env.clock(w.ticks));
  }

  /** A successful replacement frees the target's key and appends a row that supersedes the target. */
  lemma {:induction false} ReplacementRecords(env: Surroundings, w: World, item: NewItem, target: ItemId)
    requires Replaced(env, w, item, target).1.Ok?
    ensures var (after, r) := Replaced(env, w, item, target);
            var k := IndexOfId(w.rows, 0, target);
            && k.Some? && after.rows == w.rows[k.value := w.rows[k.value].(externalId := None)] + [r.value]
            && RecordsItem(r.value, item) && r.value.supersedes == Some(target)
            && r.value.createdAt == env.clock(w.ticks)
  {
    var successor := item.(supersedes := Some(target));
    var id := MintId(env.clock(w.ticks), env.random(w.draws)).value;
    RowRecords(successor, Validate(successor).value, id, env.clock(w.ticks));
  }

  predicate MadeAt(env: Surroundings, tick: nat, row: Row, item: NewItem) {
    row.createdAt == env.clock(tick) && row.supersedes == item.supersedes
  }

  /** The rows a batch has made hold the fields of its items so far, and all of them the time of the one reading. */
  ghost predicate AllRecorded(env: Surroundings, tick: nat, made: seq<Row>, items: seq<NewItem>) {
    && |made| <= |items|
    && forall k :: 0 <= k < |made| ==>
         RecordsItem(made[k], items[k]) && MadeAt(env, tick, made[k], items[k])
  }

  lemma {:induction false} InsertOneRecords(env: Surroundings, tick: nat, batch: Batch, items: seq<NewItem>,
                                            validated: Validated)
    requires AllRecorded(env, tick, batch.made, items) && |batch.made| < |items|
    requires Validate(items[|batch.made|]) == Ok(validated)
    requires InsertOne(env, env.clock(tick), batch, items[|batch.made|], validated).1.None?
    ensures var next := InsertOne(env, env.clock(tick), batch, items[|batch.made|], validated).0;
            |next.made| == |batch.made| + 1 && AllRecorded(env, tick, next.made, items)
  {
    var id := MintId(env.clock(tick), env.random(batch.draws)).value;
    RowRecords(items[|batch.made|], validated, id, env.clock(tick));
  }

  lemma {:induction false} LoopRecords(env: Surroundings, tick: nat, batch: Batch, items: seq<NewItem>,
                                       validated: seq<Validated>, i: nat)
    requires i <= |items| == |validated| && |batch.made| == i && AllRecorded(env, tick, batch.made, items)
    requires forall k :: 0 <= k < |items| ==> Validate(items[k]) == Ok(validated[k])
    requires InsertLoop(env, env.clock(tick), batch, items, validated, i).1.None?
    ensures var made := InsertLoop(env, env.clock(tick), batch, items, validated, i).0.made;
            |made| == |items| && AllRecorded(env, tick, made, items)
    decreases |items| - i
  {
    if i < |items| {
      InsertOneRecords(env, tick, batch, items, validated[i]);
      LoopRecords(env, tick, InsertOne(env, env.clock(tick), batch, items[i], validated[i]).0, items, validated, i + 1);
    }
  }

  /** A successful batch appends one row for each item, in order, with the item's fields. */
  lemma {:induction false} BatchRecords(env: Surroundings, w: World, items: seq<NewItem>)
    requires IngestedMany(env, w, items).1.Ok?
    ensures var (after, r) := IngestedMany(env, w, items);
            && after.rows == w.rows + r.value && |r.value| == |items|
            && forall k :: 0 <= k < |items| ==>
                 && RecordsItem(r.value[k], items[k]) && r.value[k].supersedes == items[k].supersedes
                 && r.value[k].createdAt == env.clock(w.ticks)
  {
    var (after, r) := IngestedMany(env, w, items);
    IngestManyIsTransaction(env, w, items);
    InsertAllAppends(w.rows, r.value, 0);
    assert r.value[0..] == r.value;
    LoopRecords(env, w.ticks, Batch(w.rows, w.draws, []), items, ValidateFrom([], items, 0).value, 0);
    assert forall k :: 0 <= k < |items| ==> MadeAt(env, w.ticks, r.value[k], items[k]);
  }

  /** A scope change writes the normal form of what it was given, to that row alone. */
  lemma {:induction false} RescopeRecords(env: Surroundings, w: World, id: ItemId, scope: Option<string>)
    requires Rescoped(env, w, id, scope).1.Ok?
    ensures var (after, r) := Rescoped(env, w, id, scope);
            var k := IndexOfId(w.rows, 0, id);
            var written := match scope case None => None case Some(raw) => Some(Scope.Lower(Scope.TrimSlashes(raw)));
            && k.Some? && after.rows == w.rows[k.value := w.rows[k.value].(scope := written)]
            && r.value == after.rows[k.value] && (written.Some? ==> Scope.IsNormal(written.value))
  {
    if scope.Some? { Scope.ValidationMeaning(scope.value); }
  }

  /******* Whole tables *******/

  /** Tags in increasing order, and a scope, if any, in normal form. */
  predicate IsWellFormed(row: Row) {
    Increasing(row.tags) && (row.scope.Some? ==> Scope.IsNormal(row.scope.value))
  }

  predicate WellFormed(rows: seq<Row>) {
    forall i :: 0 <= i < |rows| ==> IsWellFormed(rows[i])
  }

  /** Other processes write through the same code, so the rows and scopes they commit are well formed too. */
  predicate TxnIsWellFormed(txn: Txn) {
    match txn
    case Inserts(batch) => WellFormed(batch)
    case Replacement(row, _) => IsWellFormed(row)
    case ScopeMove(_, scope) => scope.Some? ==> Scope.IsNormal(scope.value)
  }

  ghost predicate OthersAreWellFormed(env: Surroundings) {
    forall n, i :: 0 <= i < |env.others(n)| ==> TxnIsWellFormed(env.others(n)[i])
  }

  lemma {:induction false} ApplyKeepsForm(rows: seq<Row>, txn: Txn)
    requires WellFormed(rows) && TxnIsWellFormed(txn)
    ensures WellFormed(Apply(rows, txn))
  {
    if txn.Inserts? && InsertAll(rows, txn.batch, 0).Ok? {
      InsertAllAppends(rows, txn.batch, 0);
      assert txn.batch[0..] == txn.batch;
    }
  }

  lemma {:induction false} OthersKeepForm(rows: seq<Row>, txns: seq<Txn>, i: nat)
    requires WellFormed(rows) && i <= |txns| && forall k :: 0 <= k < |txns| ==> TxnIsWellFormed(txns[k])
    ensures WellFormed(ApplyFrom(rows, txns, i))
    decreases |txns| - i
  {
    if i < |txns| {
      ApplyKeepsForm(rows, txns[i]);
      OthersKeepForm(Apply(rows, txns[i]), txns, i + 1);
    }
  }

  lemma {:induction false} DoKeepsForm(env: Surroundings, w: World, op: Op)
    requires WellFormed(w.rows) && OthersAreWellFormed(env)
    ensures WellFormed(Do(env, w, op).rows)
  {
    match op
    case OneItem(item) =>
      if Ingested(env, w, item).1.Ok? { IngestRecords(env, w, item); } else { IngestIsTransaction(env, w, item); }
    case ManyItems(items) =>
      if IngestedMany(env, w, items).1.Ok? {
        BatchRecords(env, w, items);
      } else {
        IngestManyIsTransaction(env, w, items);
      }
    case Replacing(item, target) =>
      if Replaced(env, w, item, target).1.Ok? {
        ReplacementRecords(env, w, item, target);
      } else {
        ReplaceIsTransaction(env, w, item, target);
      }
    case Rescoping(id, scope) =>
      if Rescoped(env, w, id, scope).1.Ok? {
        RescopeRecords(env, w, id, scope);
      } else {
        RescopeIsTransaction(env, w, id, scope);
      }
    case OthersTurn => OthersKeepForm(w.rows, env.others(w.turns), 0);
    case Rebuilding(_, _) =>
    case Attaching(_) =>
  }

  /** Every table that store operations lead to has increasing tags and normal scopes throughout. */
  lemma {:induction false} RunsKeepForm(env: Surroundings, w: World, ops: seq<Op>)
    requires WellFormed(w.rows) && OthersAreWellFormed(env)
    ensures WellFormed(DoAll(env, w, ops).rows)
    decreases |ops|
  {
    if ops != [] {
      RunsKeepForm(env, w, ops[..|ops| - 1]);
      DoKeepsForm(env, DoAll(env, w, ops[..|ops| - 1]), ops[|ops| - 1]);
    }
  }

  /** So on any such table the predicate, the SQL clause and the indexed terms of a valid filter agree on every row. */
  lemma {:induction false} FiltersAgreeOnTables(env: Surroundings, w: World, ops: seq<Op>, filter: Scope.Filter, i: nat)
    requires WellFormed(w.rows) && OthersAreWellFormed(env) && Scope.IsNormal(filter.path)
    requires i < |DoAll(env, w, ops).rows|
    ensures var row := DoAll(env, w, ops).rows[i];
            && (Scope.Matches(filter, row.scope) <==> Scope.SqlAccepts(filter, row.scope))
            && (Scope.Matches(filter, row.scope) <==>
                  Scope.TermAccepts(filter, row.scope, Scope.AncestorField(row.scope)))
  {
    RunsKeepForm(env, w, ops);
    assert IsWellFormed(DoAll(env, w, ops).rows[i]);
    Scope.FiltersAgree(filter, DoAll(env, w, ops).rows[i].scope);
  }
}
