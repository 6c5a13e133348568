/**
 The `items` table: what one committed transaction may do to it, and what every transaction keeps.

 Rows are in insertion order. A transaction is what any process can commit through the store's
 write operations: a batch of inserts, an insert that takes over another row's external id, or a
 change of scope.
 */
module Table {
  import opened Wrappers
  import opened Items

  /******* Looking things up *******/

  /** Position of the first row from `i` on with an id. */
  function IndexOfId(rows: seq<Row>, i: nat, id: ItemId): (k: Option<nat>)
    requires i <= |rows|
    ensures k.Some? ==> i <= k.value < |rows| && rows[k.value].id == id
    ensures k.None? <==> forall j :: i <= j < |rows| ==> rows[j].id != id
    decreases |rows| - i
  {
    if i == |rows| then None else if rows[i].id == id then Some(i) else IndexOfId(rows, i + 1, id)
  }

  /** Position of the first row from `i` on that holds an external id. */
  function IndexOfKey(rows: seq<Row>, i: nat, key: string): (k: Option<nat>)
    requires i <= |rows|
    ensures k.Some? ==> i <= k.value < |rows| && rows[k.value].externalId == Some(key)
    ensures k.None? <==> forall j :: i <= j < |rows| ==> rows[j].externalId != Some(key)
    decreases |rows| - i
  {
    if i == |rows| then None else if rows[i].externalId == Some(key) then Some(i) else IndexOfKey(rows, i + 1, key)
  }

  predicate HasId(rows: seq<Row>, id: ItemId) {
    IndexOfId(rows, 0, id).Some?
  }

  predicate HasKey(rows: seq<Row>, key: string) {
    IndexOfKey(rows, 0, key).Some?
  }

  /******* Transactions *******/

  /** The table's checks come first, then the unique index on `external_id`, then the primary key. */
  function InsertRow(rows: seq<Row>, row: Row): Result<seq<Row>, Error> {
    if !IsStorable(row.content) then Err(Sqlite)
    else if row.externalId.Some? && HasKey(rows, row.externalId.value) then
      Err(ExternalIdConflict(row.externalId.value))
    else if HasId(rows, row.id) then Err(Sqlite)
    else Ok(rows + [row])
  }

  /** An insert whose supersedes target, if any, must exist. */
  function CheckedInsert(rows: seq<Row>, row: Row): Result<seq<Row>, Error> {
    if row.supersedes.Some? && !HasId(rows, row.supersedes.value) then Err(SupersedesNotFound(row.supersedes.value))
    else InsertRow(rows, row)
  }

  function InsertAll(rows: seq<Row>, batch: seq<Row>, i: nat): Result<seq<Row>, Error>
    requires i <= |batch|
    decreases |batch| - i
  {
    if i == |batch| then Ok(rows)
    else
      match CheckedInsert(rows, batch[i])
      case Err(e) => Err(e)
      case Ok(next) => InsertAll(next, batch, i + 1)
  }

  /** The old holder's external id is cleared first, then its successor is inserted. */
  function ReplaceRow(rows: seq<Row>, row: Row, target: ItemId): Result<seq<Row>, Error> {
    match IndexOfId(rows, 0, target)
    case None => Err(SupersedesNotFound(target))
    case Some(k) => InsertRow(rows[k := rows[k].(externalId := None)], row.(supersedes := Some(target)))
  }

  function MoveScope(rows: seq<Row>, id: ItemId, scope: Option<string>): Result<seq<Row>, Error> {
    match IndexOfId(rows, 0, id)
    case None => Err(NotFound(id))
    case Some(k) => Ok(rows[k := rows[k].(scope := scope)])
  }

  datatype Txn =
    | Inserts(batch: seq<Row>)
    | Replacement(row: Row, target: ItemId)
    | ScopeMove(id: ItemId, scope: Option<string>)

  function Commit(rows: seq<Row>, txn: Txn): Result<seq<Row>, Error> {
    match txn
    case Inserts(batch) => InsertAll(rows, batch, 0)
    case Replacement(row, target) => ReplaceRow(rows, row, target)
    case ScopeMove(id, scope) => MoveScope(rows, id, scope)
  }

  /** A transaction that fails rolls back. */
  function Apply(rows: seq<Row>, txn: Txn): seq<Row> {
    match Commit(rows, txn)
    case Err(_) => rows
    case Ok(next) => next
  }

  /** The table after transactions, oldest first. */
  function Replay(rows: seq<Row>, txns: seq<Txn>): seq<Row> {
    if txns == [] then rows else Apply(Replay(rows, txns[..|txns| - 1]), txns[|txns| - 1])
  }

  /******* What every reachable table satisfies *******/

  predicate UniqueIds(rows: seq<Row>) {
    forall i, j :: 0 <= i < j < |rows| ==> rows[i].id != rows[j].id
  }

  predicate UniqueKeys(rows: seq<Row>) {
    forall i, j :: 0 <= i < j < |rows| && rows[i].externalId.Some? ==> rows[i].externalId != rows[j].externalId
  }

  predicate InsertedBefore(rows: seq<Row>, j: nat, id: ItemId)
    requires j <= |rows|
  {
    exists i :: 0 <= i < j && rows[i].id == id
  }

  /** Whatever a row supersedes was inserted before it. */
  predicate SupersedesEarlier(rows: seq<Row>) {
    forall j :: 0 <= j < |rows| && rows[j].supersedes.Some? ==> InsertedBefore(rows, j, rows[j].supersedes.value)
  }

  predicate Valid(rows: seq<Row>) {
    UniqueIds(rows) && UniqueKeys(rows) && SupersedesEarlier(rows)
  }

  /** The same row later: only its scope may differ, and its external id may have been given up. */
  predicate SameRow(before: Row, after: Row) {
    && after == before.(scope := after.scope, externalId := after.externalId)
    && (after.externalId == before.externalId || after.externalId == None)
  }

  /** Rows are never removed, reordered or edited except as `SameRow` allows. */
  predicate Evolves(before: seq<Row>, after: seq<Row>) {
    |before| <= |after| && forall i :: 0 <= i < |before| ==> SameRow(before[i], after[i])
  }

  lemma {:induction false} EvolvesTransitive(a: seq<Row>, b: seq<Row>, c: seq<Row>)
    requires Evolves(a, b) && Evolves(b, c)
    ensures Evolves(a, c)
  {
    forall i | 0 <= i < |a| ensures SameRow(a[i], c[i]) {
      assert SameRow(a[i], b[i]) && SameRow(b[i], c[i]);
    }
  }

  lemma {:induction false} InsertKeepsValid(rows: seq<Row>, row: Row)
    requires Valid(rows) && CheckedInsert(rows, row).Ok?
    ensures Valid(rows + [row]) && Evolves(rows, rows + [row])
  {
    var next := rows + [row];
    forall j | 0 <= j < |next| && next[j].supersedes.Some?
      ensures InsertedBefore(next, j, next[j].supersedes.value)
    {
      if j < |rows| {
        var i :| 0 <= i < j && rows[i].id == rows[j].supersedes.value;
        assert next[i].id == rows[i].id;
      } else {
        var i := IndexOfId(rows, 0, row.supersedes.value).value;
        assert next[i].id == row.supersedes.value;
      }
    }
  }

  /** Giving up an external id or changing a scope keeps the table valid. */
  lemma {:induction false} EditKeepsValid(rows: seq<Row>, k: nat, row: Row)
    requires Valid(rows) && k < |rows| && SameRow(rows[k], row)
    ensures Valid(rows[k := row]) && Evolves(rows, rows[k := row])
  {
    var next := rows[k := row];
    assert forall i :: 0 <= i < |rows| ==> next[i].id == rows[i].id && next[i].supersedes == rows[i].supersedes;
    forall j | 0 <= j < |next| && next[j].supersedes.Some?
      ensures InsertedBefore(next, j, next[j].supersedes.value)
    {
      assert InsertedBefore(rows, j, rows[j].supersedes.value);
      var i :| 0 <= i < j && rows[i].id == rows[j].supersedes.value;
      assert next[i].id == rows[i].id;
    }
  }

  lemma {:induction false} InsertAllAppends(rows: seq<Row>, batch: seq<Row>, i: nat)
    requires i <= |batch| && InsertAll(rows, batch, i).Ok?
    ensures InsertAll(rows, batch, i).value == rows + batch[i..]
    decreases |batch| - i
  {
    if i < |batch| {
      InsertAllAppends(rows + [batch[i]], batch, i + 1);
      assert batch[i..] == [batch[i]] + batch[i + 1..];
    }
  }

  lemma {:induction false} InsertAllKeepsValid(rows: seq<Row>, batch: seq<Row>, i: nat)
    requires Valid(rows) && i <= |batch| && InsertAll(rows, batch, i).Ok?
    ensures var next := InsertAll(rows, batch, i).value; Valid(next) && Evolves(rows, next) && next == rows + batch[i..]
    decreases |batch| - i
  {
    if i < |batch| {
      var middle := rows + [batch[i]];
      InsertKeepsValid(rows, batch[i]);
      InsertAllKeepsValid(middle, batch, i + 1);
      EvolvesTransitive(rows, middle, InsertAll(rows, batch, i).value);
      assert batch[i..] == [batch[i]] + batch[i + 1..];
    }
  }

  lemma {:induction false} CommitKeepsValid(rows: seq<Row>, txn: Txn)
    requires Valid(rows)
    ensures Valid(Apply(rows, txn)) && Evolves(rows, Apply(rows, txn))
  {
    match txn
    case Inserts(batch) =>
      if InsertAll(rows, batch, 0).Ok? { InsertAllKeepsValid(rows, batch, 0); }
    case Replacement(row, target) =>
      if HasId(rows, target) {
        var k := IndexOfId(rows, 0, target).value;
        var cleared := rows[k := rows[k].(externalId := None)];
        EditKeepsValid(rows, k, rows[k].(externalId := None));
        if ReplaceRow(rows, row, target).Ok? {
          assert cleared[k].id == target;
          assert CheckedInsert(cleared, row.(supersedes := Some(target))).Ok?;
          InsertKeepsValid(cleared, row.(supersedes := Some(target)));
          EvolvesTransitive(rows, cleared, Apply(rows, txn));
        }
      }
    case ScopeMove(id, scope) =>
      if HasId(rows, id) {
        var k := IndexOfId(rows, 0, id).value;
        EditKeepsValid(rows, k, rows[k].(scope := scope));
      }
  }

  /**
   In every table any transactions can produce, ids and external ids are unique and every supersedes
   target exists and was inserted earlier; and at every earlier moment the table was a version of the
   final one with rows only missing from the end, differing in scopes and given-up external ids alone.
   */
  lemma {:induction false} ReachableTables(txns: seq<Txn>, k: nat)
    requires k <= |txns|
    ensures Valid(Replay([], txns)) && Evolves(Replay([], txns[..k]), Replay([], txns))
    decreases |txns|
  {
    if txns == [] {
      assert txns[..k] == [];
    } else {
      var before, last := txns[..|txns| - 1], txns[|txns| - 1];
      ReachableTables(before, |before|);
      CommitKeepsValid(Replay([], before), last);
      if k < |txns| {
        ReachableTables(before, k);
        assert before[..k] == txns[..k];
        EvolvesTransitive(Replay([], txns[..k]), Replay([], before), Replay([], txns));
      } else {
        assert txns[..k] == txns;
      }
    }
  }

  /** Which transaction may change which field of a row that is already there. */
  lemma {:induction false} FieldsChangeOnlyAsSanctioned(rows: seq<Row>, txn: Txn, i: nat)
    requires Valid(rows) && i < |rows|
    ensures |rows| <= |Apply(rows, txn)|
    ensures var after := Apply(rows, txn)[i];
            match txn
            case Inserts(_) => after == rows[i]
            case Replacement(_, target) =>
              after == rows[i] || (rows[i].id == target && after == rows[i].(externalId := None))
            case ScopeMove(id, scope) => after == if rows[i].id == id then rows[i].(scope := scope) else rows[i]
  {
    match txn
    case Inserts(batch) =>
      if InsertAll(rows, batch, 0).Ok? { InsertAllKeepsValid(rows, batch, 0); }
    case Replacement(_, _) =>
    case ScopeMove(_, _) =>
  }

  /******* External ids stay with the newest revision *******/

  /** A row that holds an external id is superseded by nothing. */
  predicate KeysAreCurrent(rows: seq<Row>) {
    forall i, j :: 0 <= i < |rows| && 0 <= j < |rows| && rows[i].externalId.Some? ==>
      rows[j].supersedes != Some(rows[i].id)
  }

  predicate SupersedesNothing(txn: Txn) {
    txn.Inserts? ==> forall i :: 0 <= i < |txn.batch| ==> txn.batch[i].supersedes.None?
  }

  /** One transaction, when inserts supersede nothing, keeps external ids on current rows. */
  lemma {:induction false} CommitKeepsKeysCurrent(rows: seq<Row>, txn: Txn)
    requires Valid(rows) && KeysAreCurrent(rows) && SupersedesNothing(txn)
    ensures KeysAreCurrent(Apply(rows, txn))
  {
    var next := Apply(rows, txn);
    if next != rows {
      match txn
      case Inserts(batch) =>
        InsertAllKeepsValid(rows, batch, 0);
        assert batch[0..] == batch;
        FreshIdsNotSuperseded(rows, next);
      case Replacement(row, target) =>
        var k := IndexOfId(rows, 0, target).value;
        var cleared := rows[k := rows[k].(externalId := None)];
        assert next == cleared + [row.(supersedes := Some(target))];
        assert forall i :: 0 <= i < |rows| && i != k ==> cleared[i].id != target;
        forall i, j | 0 <= i < |next| && 0 <= j < |next| && next[i].externalId.Some?
          ensures next[j].supersedes != Some(next[i].id)
        {
          if i == |rows| { CommitKeepsValid(rows, txn); NothingSupersedesLast(next); }
        }
      case ScopeMove(_, _) =>
    }
  }

  lemma {:induction false} NothingSupersedesLast(rows: seq<Row>)
    requires Valid(rows) && rows != []
    ensures forall j :: 0 <= j < |rows| ==> rows[j].supersedes != Some(rows[|rows| - 1].id)
  {
    forall j | 0 <= j < |rows| && rows[j].supersedes.Some?
      ensures rows[j].supersedes != Some(rows[|rows| - 1].id)
    {
      assert InsertedBefore(rows, j, rows[j].supersedes.value);
      var i :| 0 <= i < j && rows[i].id == rows[j].supersedes.value;
    }
  }

  lemma {:induction false} FreshIdsNotSuperseded(rows: seq<Row>, next: seq<Row>)
    requires Valid(next) && rows <= next && KeysAreCurrent(rows)
    requires forall j :: |rows| <= j < |next| ==> next[j].supersedes.None?
    ensures KeysAreCurrent(next)
  {
    forall i, j | 0 <= i < |next| && 0 <= j < |next| && next[i].externalId.Some?
      ensures next[j].supersedes != Some(next[i].id)
    {
      if i >= |rows| && j < |rows| && next[j].supersedes.Some? {
        assert InsertedBefore(next, j, next[j].supersedes.value);
        var h :| 0 <= h < j && next[h].id == next[j].supersedes.value;
      }
    }
  }

  /** If supersession only goes through replacements, a row that holds an external id is superseded by nothing. */
  lemma {:induction false} ReachableKeysAreCurrent(txns: seq<Txn>)
    requires forall i :: 0 <= i < |txns| ==> SupersedesNothing(txns[i])
    ensures KeysAreCurrent(Replay([], txns))
    decreases |txns|
  {
    if txns != [] {
      var before := txns[..|txns| - 1];
      ReachableKeysAreCurrent(before);
      ReachableTables(before, 0);
      CommitKeepsKeysCurrent(Replay([], before), txns[|txns| - 1]);
    }
  }
}
