/** The lexical sidecar against the store, over whole runs of store operations. */
module Agreement {
  import opened Wrappers
  import opened Items
  import opened Table
  import opened Hook
  import opened Store
  import Scope

  /**
   One operation on the store; or a rebuild of one member from a listing of the table; or other members
   attached; or a turn of the other processes.
   */
  datatype Op =
    | OneItem(item: NewItem)
    | ManyItems(items: seq<NewItem>)
    | Replacing(item: NewItem, target: ItemId)
    | Rescoping(id: ItemId, scope: Option<string>)
    | Rebuilding(member: nat, listed: seq<Row>)
    | Attaching(members: seq<Sidecar>)
    | OthersTurn

  predicate DistinctIds(rows: seq<Row>) {
    forall i, j :: 0 <= i < j < |rows| ==> rows[i].id != rows[j].id
  }

  /** An item of the table as it is, or as it was earlier. */
  predicate IsVersion(row: Row, rows: seq<Row>) {
    exists i :: 0 <= i < |rows| && SameRow(row, rows[i])
  }

  /**
   What comes of listing the ids and loading the items one after another while others commit: items of
   the table, each once, some perhaps as they were earlier and the latest perhaps missing.
   */
  predicate IsListing(listed: seq<Row>, rows: seq<Row>) {
    DistinctIds(listed) && forall k :: 0 <= k < |listed| ==> IsVersion(listed[k], rows)
  }

  predicate CanRebuild(w: World, member: nat, listed: seq<Row>) {
    w.hooks.Some? && member < |w.hooks.value| && IsListing(listed, w.rows)
  }

  function Rebuilt(env: Surroundings, w: World, member: nat, listed: seq<Row>): (World, Option<nat>)
    requires CanRebuild(w, member, listed)
  {
    var (after, count) := Reindexed(env.faults, member, w.hooks.value[member], listed);
    (w.(hooks := Some(w.hooks.value[member := after])), count)
  }

  function Do(env: Surroundings, w: World, op: Op): World {
    match op
    case OneItem(item) => Ingested(env, w, item).0
    case ManyItems(items) => IngestedMany(env, w, items).0
    case Replacing(item, target) => Replaced(env, w, item, target).0
    case Rescoping(id, scope) => Rescoped(env, w, id, scope).0
    case Rebuilding(member, listed) => if CanRebuild(w, member, listed) then Rebuilt(env, w, member, listed).0 else w
    case Attaching(members) => w.(hooks := Some(members))
    case OthersTurn => OthersCommit(env, w)
  }

  function DoAll(env: Surroundings, w: World, ops: seq<Op>): World {
    if ops == [] then w else Do(env, DoAll(env, w, ops[..|ops| - 1]), ops[|ops| - 1])
  }

  /******* Documents against rows *******/

  lemma {:induction false} DocumentsAppend(a: seq<Row>, b: seq<Row>)
    ensures Documents(a + b) == Documents(a) + Documents(b)
    decreases |b|
  {
    if b == [] {
      assert a + b == a;
    } else {
      var front, last := b[..|b| - 1], b[|b| - 1];
      assert a + b == (a + front) + [last];
      DocumentsAppend(a, front);
      DocumentsSnoc(a + front, last);
    }
  }

  lemma {:induction false} DocumentsOfOne(row: Row)
    ensures Documents([row]) == multiset{DocumentOf(row)}
  {
    DocumentsSnoc([], row);
    assert [] + [row] == [row];
  }

  lemma {:induction false} DocumentsAround(rows: seq<Row>, k: nat)
    requires k < |rows|
    ensures Documents(rows) == Documents(rows[..k]) + multiset{DocumentOf(rows[k])} + Documents(rows[k + 1..])
  {
    assert rows == rows[..k] + [rows[k]] + rows[k + 1..];
    DocumentsAppend(rows[..k] + [rows[k]], rows[k + 1..]);
    DocumentsAppend(rows[..k], [rows[k]]);
    DocumentsOfOne(rows[k]);
  }

  lemma {:induction false} DocumentsFrom(rows: seq<Row>, i: nat)
    requires i < |rows|
    ensures Documents(rows[i..]) == multiset{DocumentOf(rows[i])} + Documents(rows[i + 1..])
  {
    assert rows[i..] == [rows[i]] + rows[i + 1..];
    DocumentsAppend([rows[i]], rows[i + 1..]);
    DocumentsOfOne(rows[i]);
  }

  /** Giving up an external id is invisible to the index. */
  lemma {:induction false} DocumentsIgnoreKeys(rows: seq<Row>, k: nat)
    requires k < |rows|
    ensures Documents(rows[k := rows[k].(externalId := None)]) == Documents(rows)
  {
    var cleared := rows[k := rows[k].(externalId := None)];
    DocumentsAround(rows, k);
    DocumentsAround(cleared, k);
    assert cleared[..k] == rows[..k] && cleared[k + 1..] == rows[k + 1..];
  }

  lemma {:induction false} MultisetWithout<T>(s: seq<T>, k: nat)
    requires k < |s|
    ensures multiset(s) == multiset(s[..k] + s[k + 1..]) + multiset{s[k]}
  {
    assert s == s[..k] + [s[k]] + s[k + 1..];
  }

  lemma {:induction false} CancelOne<T>(a: multiset<T>, b: multiset<T>, x: T)
    requires a + multiset{x} == b + multiset{x}
    ensures a == b
  {
    assert a == (a + multiset{x}) - multiset{x};
    assert b == (b + multiset{x}) - multiset{x};
  }

  /** The order rows are listed in does not matter to a rebuild. */
  lemma {:induction false} DocumentsIgnoreOrder(a: seq<Row>, b: seq<Row>)
    requires multiset(a) == multiset(b)
    ensures Documents(a) == Documents(b)
    decreases |a|
  {
    assert |multiset(a)| == |a| && |multiset(b)| == |b|;
    if a != [] {
      var front, last := a[..|a| - 1], a[|a| - 1];
      MultisetWithout(a, |a| - 1);
      assert front + a[|a|..] == front;
      assert last in multiset(b);
      var k :| 0 <= k < |b| && b[k] == last;
      MultisetWithout(b, k);
      CancelOne(multiset(front), multiset(b[..k] + b[k + 1..]), last);
      DocumentsIgnoreOrder(front, b[..k] + b[k + 1..]);
      DocumentsAround(b, k);
      DocumentsAppend(b[..k], b[k + 1..]);
    }
  }

  /******* No document without its item *******/

  /** A document of some row, perhaps from before its scope was moved. */
  predicate DescribesRow(d: Document, row: Row) {
    d == DocumentOf(row.(scope := d.scope))
  }

  ghost predicate Backed(documents: multiset<Document>, rows: seq<Row>) {
    forall d :: d in documents ==> exists i :: 0 <= i < |rows| && DescribesRow(d, rows[i])
  }

  ghost predicate SidecarBacked(s: Sidecar, rows: seq<Row>) {
    Backed(s.committed, rows) && Backed(s.pending, rows) && Backed(s.visible, rows)
  }

  ghost predicate AllBacked(members: seq<Sidecar>, rows: seq<Row>) {
    forall k :: 0 <= k < |members| ==> SidecarBacked(members[k], rows)
  }

  ghost predicate NoStrays(w: World) {
    Valid(w.rows) && (w.hooks.Some? ==> AllBacked(w.hooks.value, w.rows))
  }

  lemma {:induction false} BackedLater(documents: multiset<Document>, before: seq<Row>, after: seq<Row>)
    requires Backed(documents, before) && Evolves(before, after)
    ensures Backed(documents, after)
  {
    forall d | d in documents ensures exists i :: 0 <= i < |after| && DescribesRow(d, after[i]) {
      var i :| 0 <= i < |before| && DescribesRow(d, before[i]);
      assert SameRow(before[i], after[i]) && DescribesRow(d, after[i]);
    }
  }

  lemma {:induction false} AllBackedLater(members: seq<Sidecar>, before: seq<Row>, after: seq<Row>)
    requires AllBacked(members, before) && Evolves(before, after)
    ensures AllBacked(members, after)
  {
    forall k | 0 <= k < |members| ensures SidecarBacked(members[k], after) {
      BackedLater(members[k].committed, before, after);
      BackedLater(members[k].pending, before, after);
      BackedLater(members[k].visible, before, after);
    }
  }

  lemma {:induction false} AddKeepsBacked(fault: Fault, s: Sidecar, row: Row, rows: seq<Row>)
    requires SidecarBacked(s, rows) && IsVersion(row, rows)
    ensures SidecarBacked(Add(fault, s, row).0, rows)
  {
    var i :| 0 <= i < |rows| && SameRow(row, rows[i]);
    assert DescribesRow(DocumentOf(row), rows[i]);
  }

  lemma {:induction false} MembersAreVersions(batch: seq<Row>, rows: seq<Row>)
    requires forall k :: 0 <= k < |batch| ==> batch[k] in rows
    ensures forall k :: 0 <= k < |batch| ==> IsVersion(batch[k], rows)
  {
    forall k | 0 <= k < |batch| ensures IsVersion(batch[k], rows) {
      var i :| 0 <= i < |rows| && rows[i] == batch[k];
      assert SameRow(batch[k], rows[i]);
    }
  }

  lemma {:induction false} AddFromKeepsBacked(faults: Faults, member: nat, s: Sidecar, batch: seq<Row>, i: nat,
                                              rows: seq<Row>)
    requires SidecarBacked(s, rows) && i <= |batch| && forall k :: 0 <= k < |batch| ==> IsVersion(batch[k], rows)
    ensures SidecarBacked(AddFrom(faults, member, s, batch, i).0, rows)
    decreases |batch| - i
  {
    if i < |batch| {
      AddKeepsBacked(faults(member, s.calls), s, batch[i], rows);
      AddFromKeepsBacked(faults, member, Add(faults(member, s.calls), s, batch[i]).0, batch, i + 1, rows);
    }
  }

  /** The items a call hands to the index are in the table. */
  predicate CallOf(call: Call, rows: seq<Row>) {
    match call
    case OnIngest(row) => row in rows
    case OnIngestBatch(batch) => forall k :: 0 <= k < |batch| ==> batch[k] in rows
    case Publish => true
  }

  lemma {:induction false} CallKeepsBacked(faults: Faults, members: seq<Sidecar>, call: Call, rows: seq<Row>)
    requires AllBacked(members, rows) && CallOf(call, rows)
    ensures AllBacked(CallEach(faults, members, call), rows)
  {
    forall k | 0 <= k < |members| ensures SidecarBacked(CallOne(faults, k, members[k], call).0, rows) {
      assert SidecarBacked(members[k], rows);
      match call
      case OnIngest(row) =>
        var i :| 0 <= i < |rows| && rows[i] == row;
        assert SameRow(row, rows[i]);
        AddKeepsBacked(faults(k, members[k].calls), members[k], row, rows);
      case OnIngestBatch(batch) =>
        MembersAreVersions(batch, rows);
        AddFromKeepsBacked(faults, k, members[k], batch, 0, rows);
      case Publish =>
    }
  }

  lemma {:induction false} FireHookKeepsBacked(env: Surroundings, w: World, row: Row)
    requires w.hooks.Some? ==> AllBacked(w.hooks.value, w.rows)
    requires row in w.rows
    ensures var f := FireHook(env, w, row); f.hooks.Some? ==> AllBacked(f.hooks.value, w.rows)
  {
    if w.hooks.Some? {
      CallKeepsBacked(env.faults, w.hooks.value, OnIngest(row), w.rows);
      CallKeepsBacked(env.faults, CallEach(env.faults, w.hooks.value, OnIngest(row)), Publish, w.rows);
    }
  }

  lemma {:induction false} FireBatchKeepsBacked(env: Surroundings, w: World, batch: seq<Row>)
    requires w.hooks.Some? ==> AllBacked(w.hooks.value, w.rows)
    requires forall k :: 0 <= k < |batch| ==> batch[k] in w.rows
    ensures var f := FireBatch(env, w, batch); f.hooks.Some? ==> AllBacked(f.hooks.value, w.rows)
  {
    if w.hooks.Some? {
      CallKeepsBacked(env.faults, w.hooks.value, OnIngestBatch(batch), w.rows);
      CallKeepsBacked(env.faults, CallEach(env.faults, w.hooks.value, OnIngestBatch(batch)), Publish, w.rows);
    }
  }

  /** The table part of an operation, before its hooks run. */
  lemma {:induction false} DoEvolves(env: Surroundings, w: World, op: Op)
    requires Valid(w.rows)
    ensures Valid(Do(env, w, op).rows) && Evolves(w.rows, Do(env, w, op).rows)
  {
    match op
    case OneItem(item) =>
      IngestIsTransaction(env, w, item);
      var r := Ingested(env, w, item).1;
      if r.Ok? { CommitKeepsValid(w.rows, Inserts([r.value])); }
    case ManyItems(items) =>
      IngestManyIsTransaction(env, w, items);
      var r := IngestedMany(env, w, items).1;
      if r.Ok? { CommitKeepsValid(w.rows, Inserts(r.value)); }
    case Replacing(item, target) =>
      ReplaceIsTransaction(env, w, item, target);
      var r := Replaced(env, w, item, target).1;
      if r.Ok? { CommitKeepsValid(w.rows, Replacement(r.value, target)); }
    case Rescoping(id, scope) =>
      RescopeIsTransaction(env, w, id, scope);
      var (after, r) := Rescoped(env, w, id, scope);
      if r.Ok? {
        var s :| Commit(w.rows, ScopeMove(id, s)) == Ok(after.rows);
        CommitKeepsValid(w.rows, ScopeMove(id, s));
      }
    case OthersTurn => OthersKeepValid(w.rows, env.others(w.turns), 0);
    case Rebuilding(_, _) =>
    case Attaching(_) =>
  }

  lemma {:induction false} RunStaysValid(env: Surroundings, w: World, ops: seq<Op>)
    requires Valid(w.rows)
    ensures Valid(DoAll(env, w, ops).rows)
    decreases |ops|
  {
    if ops != [] {
      RunStaysValid(env, w, ops[..|ops| - 1]);
      DoEvolves(env, DoAll(env, w, ops[..|ops| - 1]), ops[|ops| - 1]);
    }
  }

  lemma {:induction false} SingleStays(env: Surroundings, w: World, item: NewItem)
    requires NoStrays(w)
    ensures NoStrays(Ingested(env, w, item).0)
  {
    var (after, r) := Ingested(env, w, item);
    DoEvolves(env, w, OneItem(item));
    IngestIsTransaction(env, w, item);
    if r.Ok? {
      var fired := World(after.rows, after.ticks, after.draws, after.turns, after.arrivals, w.hooks);
      assert InsertAll(after.rows, [r.value], 1) == Ok(after.rows);
      assert after.rows == w.rows + [r.value];
      if w.hooks.Some? { AllBackedLater(w.hooks.value, w.rows, after.rows); }
      FireHookKeepsBacked(env, fired, r.value);
      assert after == FireHook(env, fired, r.value);
    }
  }

  lemma {:induction false} BatchStays(env: Surroundings, w: World, items: seq<NewItem>)
    requires NoStrays(w)
    ensures NoStrays(IngestedMany(env, w, items).0)
  {
    var (after, r) := IngestedMany(env, w, items);
    DoEvolves(env, w, ManyItems(items));
    IngestManyIsTransaction(env, w, items);
    if r.Ok? {
      var fired := World(after.rows, after.ticks, after.draws, after.turns, after.arrivals, w.hooks);
      InsertAllKeepsValid(w.rows, r.value, 0);
      assert r.value[0..] == r.value;
      forall k | 0 <= k < |r.value| ensures r.value[k] in after.rows {
        assert after.rows[|w.rows| + k] == r.value[k];
      }
      if w.hooks.Some? { AllBackedLater(w.hooks.value, w.rows, after.rows); }
      FireBatchKeepsBacked(env, fired, r.value);
      assert after == FireBatch(env, fired, r.value);
    }
  }

  lemma {:induction false} ReplacementStays(env: Surroundings, w: World, item: NewItem, target: ItemId)
    requires NoStrays(w)
    ensures NoStrays(Replaced(env, w, item, target).0)
  {
    var (after, r) := Replaced(env, w, item, target);
    DoEvolves(env, w, Replacing(item, target));
    if r.Ok? {
      var fired := World(after.rows, after.ticks, after.draws, after.turns, after.arrivals, w.hooks);
      assert after.rows[|w.rows|] == r.value;
      if w.hooks.Some? { AllBackedLater(w.hooks.value, w.rows, after.rows); }
      FireHookKeepsBacked(env, fired, r.value);
      assert after == FireHook(env, fired, r.value);
    }
  }

  /** What is attached holds no stray document at that moment. */
  ghost predicate FitsRows(w: World, op: Op) {
    op.Attaching? ==> AllBacked(op.members, w.rows)
  }

  lemma {:induction false} ClearingKeepsBacked(s: Sidecar, rows: seq<Row>)
    requires SidecarBacked(s, rows)
    ensures SidecarBacked(s.(pending := multiset{}, calls := s.calls + 1), rows)
    ensures SidecarBacked(s.(calls := s.calls + 1), rows)
  {
  }

  lemma {:induction false} FlushKeepsBacked(fault: Fault, s: Sidecar, rows: seq<Row>)
    requires SidecarBacked(s, rows)
    ensures SidecarBacked(Flush(fault, s).0, rows)
  {
  }

  /** Where the steps of a rebuild can leave a sidecar. */
  lemma {:induction false} ReindexedIsOneOf(faults: Faults, member: nat, s: Sidecar, rows: seq<Row>)
    ensures var cleared := s.(pending := multiset{}, calls := s.calls + 1);
            var added := AddFrom(faults, member, cleared, rows, 0).0;
            var after := Reindexed(faults, member, s, rows).0;
            || after == s.(calls := s.calls + 1)
            || after == added
            || after == Flush(faults(member, added.calls), added).0
  {
  }

  lemma {:induction false} ReindexKeepsBacked(faults: Faults, member: nat, s: Sidecar, listed: seq<Row>, rows: seq<Row>)
    requires SidecarBacked(s, rows) && forall k :: 0 <= k < |listed| ==> IsVersion(listed[k], rows)
    ensures SidecarBacked(Reindexed(faults, member, s, listed).0, rows)
  {
    var cleared := s.(pending := multiset{}, calls := s.calls + 1);
    ClearingKeepsBacked(s, rows);
    AddFromKeepsBacked(faults, member, cleared, listed, 0, rows);
    var added := AddFrom(faults, member, cleared, listed, 0).0;
    FlushKeepsBacked(faults(member, added.calls), added, rows);
    ReindexedIsOneOf(faults, member, s, listed);
  }

  lemma {:induction false} RebuildStays(env: Surroundings, w: World, member: nat, listed: seq<Row>)
    requires NoStrays(w) && CanRebuild(w, member, listed)
    ensures NoStrays(Rebuilt(env, w, member, listed).0)
  {
    ReindexKeepsBacked(env.faults, member, w.hooks.value[member], listed, w.rows);
  }

  lemma {:induction false} OpStays(env: Surroundings, w: World, op: Op)
    requires NoStrays(w) && FitsRows(w, op)
    ensures NoStrays(Do(env, w, op))
  {
    match op
    case OneItem(item) => SingleStays(env, w, item);
    case ManyItems(items) => BatchStays(env, w, items);
    case Replacing(item, target) => ReplacementStays(env, w, item, target);
    case Rescoping(_, _) =>
      DoEvolves(env, w, op);
      if w.hooks.Some? { AllBackedLater(w.hooks.value, w.rows, Do(env, w, op).rows); }
    case Rebuilding(member, listed) => if CanRebuild(w, member, listed) { RebuildStays(env, w, member, listed); }
    case Attaching(_) =>
    case OthersTurn =>
      DoEvolves(env, w, op);
      if w.hooks.Some? { AllBackedLater(w.hooks.value, w.rows, Do(env, w, op).rows); }
  }

  /** Whatever is attached in a run fits the table of that moment. */
  ghost predicate RunFits(env: Surroundings, w: World, ops: seq<Op>) {
    forall i :: 0 <= i < |ops| ==> FitsRows(DoAll(env, w, ops[..i]), ops[i])
  }

  lemma {:induction false} RunFitsFront(env: Surroundings, w: World, ops: seq<Op>)
    requires RunFits(env, w, ops) && ops != []
    ensures RunFits(env, w, ops[..|ops| - 1]) && FitsRows(DoAll(env, w, ops[..|ops| - 1]), ops[|ops| - 1])
  {
    var front := ops[..|ops| - 1];
    forall i | 0 <= i < |front| ensures FitsRows(DoAll(env, w, front[..i]), front[i]) {
      assert front[..i] == ops[..i] && front[i] == ops[i];
      assert FitsRows(DoAll(env, w, ops[..i]), ops[i]);
    }
  }

  /**
   Whatever operations and rebuilds run, whichever hook calls fail in whichever members, and whatever
   other processes commit in between, no sidecar ever holds, has pending or shows a document for an item
   that is not in the store.
   */
  lemma {:induction false} NeverAStrayDocument(env: Surroundings, w: World, ops: seq<Op>)
    requires NoStrays(w) && RunFits(env, w, ops)
    ensures NoStrays(DoAll(env, w, ops))
    decreases |ops|
  {
    if ops != [] {
      RunFitsFront(env, w, ops);
      NeverAStrayDocument(env, w, ops[..|ops| - 1]);
      OpStays(env, DoAll(env, w, ops[..|ops| - 1]), ops[|ops| - 1]);
    }
  }

  /******* At most one document per item *******/

  predicate OnePerItem(documents: multiset<Document>) {
    && (forall d :: d in documents ==> documents[d] == 1)
    && (forall d, e :: d in documents && e in documents && d.id == e.id ==> d == e)
  }

  predicate SidecarSingle(s: Sidecar) {
    OnePerItem(s.committed) && OnePerItem(s.pending) && OnePerItem(s.visible)
  }

  predicate AllSingle(members: seq<Sidecar>) {
    forall k :: 0 <= k < |members| ==> SidecarSingle(members[k])
  }

  predicate NoneFor(documents: multiset<Document>, id: ItemId) {
    forall d :: d in documents ==> d.id != id
  }

  /** A table without the item backs no document for it. */
  lemma {:induction false} BackedHasNoneFor(documents: multiset<Document>, rows: seq<Row>, id: ItemId)
    requires Backed(documents, rows) && !HasId(rows, id)
    ensures NoneFor(documents, id)
  {
    forall d | d in documents ensures d.id != id {
      var i :| 0 <= i < |rows| && DescribesRow(d, rows[i]);
    }
  }

  lemma {:induction false} AddKeepsSingle(fault: Fault, s: Sidecar, row: Row)
    requires SidecarSingle(s) && NoneFor(s.pending, row.id)
    ensures SidecarSingle(Add(fault, s, row).0)
  {
  }

  lemma {:induction false} AddFromKeepsSingle(faults: Faults, member: nat, s: Sidecar, batch: seq<Row>, i: nat)
    requires SidecarSingle(s) && i <= |batch| && DistinctIds(batch)
    requires forall k :: i <= k < |batch| ==> NoneFor(s.pending, batch[k].id)
    ensures SidecarSingle(AddFrom(faults, member, s, batch, i).0)
    decreases |batch| - i
  {
    if i < |batch| {
      var (next, ok) := Add(faults(member, s.calls), s, batch[i]);
      AddKeepsSingle(faults(member, s.calls), s, batch[i]);
      forall k | i < k < |batch| ensures NoneFor(next.pending, batch[k].id) {
        assert NoneFor(s.pending, batch[k].id);
      }
      AddFromKeepsSingle(faults, member, next, batch, i + 1);
    }
  }

  /** The calls of one write, on members that have nothing for its items yet. */
  predicate CallIsNew(call: Call, members: seq<Sidecar>) {
    match call
    case OnIngest(row) => forall k :: 0 <= k < |members| ==> NoneFor(members[k].pending, row.id)
    case OnIngestBatch(batch) =>
      && DistinctIds(batch)
      && forall k, i :: 0 <= k < |members| && 0 <= i < |batch| ==> NoneFor(members[k].pending, batch[i].id)
    case Publish => true
  }

  lemma {:induction false} CallKeepsSingle(faults: Faults, members: seq<Sidecar>, call: Call)
    requires AllSingle(members) && CallIsNew(call, members)
    ensures AllSingle(CallEach(faults, members, call))
  {
    forall k | 0 <= k < |members| ensures SidecarSingle(CallOne(faults, k, members[k], call).0) {
      assert SidecarSingle(members[k]);
      match call
      case OnIngest(row) => AddKeepsSingle(faults(k, members[k].calls), members[k], row);
      case OnIngestBatch(batch) => AddFromKeepsSingle(faults, k, members[k], batch, 0);
      case Publish =>
    }
  }

  lemma {:induction false} FireHookKeepsSingle(env: Surroundings, w: World, row: Row)
    requires w.hooks.Some? ==> AllSingle(w.hooks.value) && CallIsNew(OnIngest(row), w.hooks.value)
    ensures var f := FireHook(env, w, row); f.hooks.Some? ==> AllSingle(f.hooks.value)
  {
    if w.hooks.Some? {
      CallKeepsSingle(env.faults, w.hooks.value, OnIngest(row));
      CallKeepsSingle(env.faults, CallEach(env.faults, w.hooks.value, OnIngest(row)), Publish);
    }
  }

  lemma {:induction false} FireBatchKeepsSingle(env: Surroundings, w: World, batch: seq<Row>)
    requires w.hooks.Some? ==> AllSingle(w.hooks.value) && CallIsNew(OnIngestBatch(batch), w.hooks.value)
    ensures var f := FireBatch(env, w, batch); f.hooks.Some? ==> AllSingle(f.hooks.value)
  {
    if w.hooks.Some? {
      CallKeepsSingle(env.faults, w.hooks.value, OnIngestBatch(batch));
      CallKeepsSingle(env.faults, CallEach(env.faults, w.hooks.value, OnIngestBatch(batch)), Publish);
    }
  }

  ghost predicate Single(w: World) {
    w.hooks.Some? ==> AllSingle(w.hooks.value)
  }

  /** Backed members have nothing for rows the table does not have yet. */
  lemma {:induction false} NewRowsAreNew(members: seq<Sidecar>, rows: seq<Row>, batch: seq<Row>)
    requires AllBacked(members, rows) && UniqueIds(rows + batch)
    ensures CallIsNew(OnIngestBatch(batch), members)
    ensures |batch| == 1 ==> CallIsNew(OnIngest(batch[0]), members)
  {
    var all := rows + batch;
    forall i, j | 0 <= i < j < |batch| ensures batch[i].id != batch[j].id {
      assert all[|rows| + i].id != all[|rows| + j].id;
    }
    forall k, i | 0 <= k < |members| && 0 <= i < |batch| ensures NoneFor(members[k].pending, batch[i].id) {
      assert SidecarBacked(members[k], rows);
      forall j | 0 <= j < |rows| ensures rows[j].id != batch[i].id { assert all[j].id != all[|rows| + i].id; }
      BackedHasNoneFor(members[k].pending, rows, batch[i].id);
    }
  }

  lemma {:induction false} SingleIngest(env: Surroundings, w: World, item: NewItem)
    requires NoStrays(w) && Single(w)
    ensures Single(Ingested(env, w, item).0)
  {
    var (after, r) := Ingested(env, w, item);
    if r.Ok? {
      var fired := World(after.rows, after.ticks, after.draws, after.turns, after.arrivals, w.hooks);
      IngestIsTransaction(env, w, item);
      InsertAllAppends(w.rows, [r.value], 0);
      CommitKeepsValid(w.rows, Inserts([r.value]));
      if w.hooks.Some? { NewRowsAreNew(w.hooks.value, w.rows, [r.value]); }
      FireHookKeepsSingle(env, fired, r.value);
      assert after == FireHook(env, fired, r.value);
    }
  }

  lemma {:induction false} BatchStaysSingle(env: Surroundings, w: World, items: seq<NewItem>)
    requires NoStrays(w) && Single(w)
    ensures Single(IngestedMany(env, w, items).0)
  {
    var (after, r) := IngestedMany(env, w, items);
    IngestManyIsTransaction(env, w, items);
    if r.Ok? {
      var fired := World(after.rows, after.ticks, after.draws, after.turns, after.arrivals, w.hooks);
      InsertAllAppends(w.rows, r.value, 0);
      CommitKeepsValid(w.rows, Inserts(r.value));
      assert r.value[0..] == r.value;
      if w.hooks.Some? { NewRowsAreNew(w.hooks.value, w.rows, r.value); }
      FireBatchKeepsSingle(env, fired, r.value);
      assert after == FireBatch(env, fired, r.value);
    }
  }

  lemma {:induction false} ReplacementStaysSingle(env: Surroundings, w: World, item: NewItem, target: ItemId)
    requires NoStrays(w) && Single(w)
    ensures Single(Replaced(env, w, item, target).0)
  {
    var (after, r) := Replaced(env, w, item, target);
    if r.Ok? {
      var fired := World(after.rows, after.ticks, after.draws, after.turns, after.arrivals, w.hooks);
      ReplaceIsTransaction(env, w, item, target);
      CommitKeepsValid(w.rows, Replacement(r.value, target));
      var k := IndexOfId(w.rows, 0, target).value;
      var cleared := w.rows[k := w.rows[k].(externalId := None)];
      EditKeepsValid(w.rows, k, w.rows[k].(externalId := None));
      assert after.rows == cleared + [r.value];
      if w.hooks.Some? {
        AllBackedLater(w.hooks.value, w.rows, cleared);
        NewRowsAreNew(w.hooks.value, cleared, [r.value]);
      }
      FireHookKeepsSingle(env, fired, r.value);
      assert after == FireHook(env, fired, r.value);
    }
  }

  lemma {:induction false} RebuildStaysSingle(env: Surroundings, w: World, member: nat, listed: seq<Row>)
    requires Valid(w.rows) && Single(w) && CanRebuild(w, member, listed)
    ensures Single(Rebuilt(env, w, member, listed).0)
  {
    var s := w.hooks.value[member];
    assert SidecarSingle(s);
    AddFromKeepsSingle(env.faults, member, s.(pending := multiset{}, calls := s.calls + 1), listed, 0);
  }

  /**
   Under the same conditions, whatever fails, no sidecar ever holds, has pending or shows two documents
   with one id.
   */
  lemma {:induction false} NeverTwoDocuments(env: Surroundings, w: World, ops: seq<Op>)
    requires NoStrays(w) && RunFits(env, w, ops) && Single(w)
    requires forall i :: 0 <= i < |ops| && ops[i].Attaching? ==> AllSingle(ops[i].members)
    ensures Single(DoAll(env, w, ops))
    decreases |ops|
  {
    if ops != [] {
      var front, op := ops[..|ops| - 1], ops[|ops| - 1];
      RunFitsFront(env, w, ops);
      NeverAStrayDocument(env, w, front);
      NeverTwoDocuments(env, w, front);
      var before := DoAll(env, w, front);
      match op
      case OneItem(item) => SingleIngest(env, before, item);
      case ManyItems(items) => BatchStaysSingle(env, before, items);
      case Replacing(item, target) => ReplacementStaysSingle(env, before, item, target);
      case Rescoping(_, _) =>
      case Rebuilding(member, listed) =>
        if CanRebuild(before, member, listed) { RebuildStaysSingle(env, before, member, listed); }
      case Attaching(_) =>
      case OthersTurn =>
    }
  }

  /******* Agreement *******/

  /** Every call to member `k` from its `n`-th on goes as intended. */
  ghost predicate FineFrom(env: Surroundings, k: nat, n: nat) {
    forall m :: m >= n ==> env.faults(k, m) == Fine
  }

  /** Member `k` fails no more. */
  ghost predicate Faultless(env: Surroundings, w: World, k: nat) {
    w.hooks.Some? && k < |w.hooks.value| && FineFrom(env, k, w.hooks.value[k].calls)
  }

  /** What member `k` would publish is one document per row, and what it has published is part of that. */
  predicate Tracks(w: World, k: nat) {
    && w.hooks.Some? && k < |w.hooks.value|
    && w.hooks.value[k].pending == Documents(w.rows)
    && w.hooks.value[k].committed <= Documents(w.rows) && w.hooks.value[k].visible <= Documents(w.rows)
  }

  /** What member `k` has published, and shows to readers, is one document per row. */
  predicate Agrees(w: World, k: nat) {
    && w.hooks.Some? && k < |w.hooks.value|
    && w.hooks.value[k].committed == w.hooks.value[k].visible == w.hooks.value[k].pending == Documents(w.rows)
  }

  lemma {:induction false} AddFromFine(env: Surroundings, k: nat, s: Sidecar, rows: seq<Row>, i: nat)
    requires FineFrom(env, k, s.calls) && i <= |rows|
    ensures var (after, ok) := AddFrom(env.faults, k, s, rows, i);
            && ok && after.pending == s.pending + Documents(rows[i..]) && after.calls >= s.calls
            && after.committed == s.committed && after.visible == s.visible
    decreases |rows| - i
  {
    if i < |rows| {
      var next := Add(env.faults(k, s.calls), s, rows[i]).0;
      AddFromFine(env, k, next, rows, i + 1);
      DocumentsFrom(rows, i);
    }
  }

  /** Member `k` through `fire_hook`, from just before the row was added. */
  lemma {:induction false} FireHookTracks(env: Surroundings, w: World, row: Row, before: multiset<Document>, k: nat)
    requires Faultless(env, w, k)
    requires w.hooks.value[k].pending == before && Documents(w.rows) == before + multiset{DocumentOf(row)}
    requires w.hooks.value[k].committed <= before && w.hooks.value[k].visible <= before
    ensures Tracks(FireHook(env, w, row), k)
    ensures AllSucceed(env.faults, w.hooks.value, OnIngest(row)) ==> Agrees(FireHook(env, w, row), k)
  {
    assert env.faults(k, w.hooks.value[k].calls) == Fine;
    assert env.faults(k, w.hooks.value[k].calls + 1) == Fine;
  }

  /** A batch is committed even when another member failed on it. */
  lemma {:induction false} FireBatchTracks(env: Surroundings, w: World, made: seq<Row>, before: multiset<Document>,
                                           k: nat)
    requires Faultless(env, w, k)
    requires w.hooks.value[k].pending == before && Documents(w.rows) == before + Documents(made)
    ensures Agrees(FireBatch(env, w, made), k)
  {
    AddFromFine(env, k, w.hooks.value[k], made, 0);
    assert made[0..] == made;
    var indexed := AddFrom(env.faults, k, w.hooks.value[k], made, 0).0;
    assert env.faults(k, indexed.calls) == Fine;
  }

  lemma {:induction false} ReplaceDocuments(rows: seq<Row>, row: Row, target: ItemId)
    requires ReplaceRow(rows, row, target).Ok?
    ensures Documents(ReplaceRow(rows, row, target).value)
         == Documents(rows) + multiset{DocumentOf(row.(supersedes := Some(target)))}
  {
    var k := IndexOfId(rows, 0, target).value;
    DocumentsIgnoreKeys(rows, k);
    DocumentsSnoc(rows[k := rows[k].(externalId := None)], row.(supersedes := Some(target)));
  }

  /** The hook of a write went through in every member, so the commit ran. */
  predicate TakenByAll(env: Surroundings, w: World, op: Op) {
    match op
    case OneItem(item) =>
      var r := Ingested(env, w, item).1;
      w.hooks.Some? && r.Ok? && AllSucceed(env.faults, w.hooks.value, OnIngest(r.value))
    case ManyItems(items) => IngestedMany(env, w, items).1.Ok?
    case Replacing(item, target) =>
      var r := Replaced(env, w, item, target).1;
      w.hooks.Some? && r.Ok? && AllSucceed(env.faults, w.hooks.value, OnIngest(r.value))
    case _ => false
  }

  predicate IsWrite(op: Op) {
    op.OneItem? || op.ManyItems? || op.Replacing?
  }

  lemma {:induction false} AddFromGrows(faults: Faults, k: nat, s: Sidecar, rows: seq<Row>, i: nat)
    requires i <= |rows|
    ensures AddFrom(faults, k, s, rows, i).0.calls >= s.calls
    decreases |rows| - i
  {
    if i < |rows| { AddFromGrows(faults, k, Add(faults(k, s.calls), s, rows[i]).0, rows, i + 1); }
  }

  lemma {:induction false} CallGrows(faults: Faults, k: nat, s: Sidecar, call: Call)
    ensures CallOne(faults, k, s, call).0.calls >= s.calls
  {
    if call.OnIngestBatch? { AddFromGrows(faults, k, s, call.rows, 0); }
  }

  lemma {:induction false} FireHookGrows(env: Surroundings, w: World, row: Row, k: nat)
    requires w.hooks.Some? && k < |w.hooks.value|
    ensures var f := FireHook(env, w, row).hooks;
            f.Some? && |f.value| == |w.hooks.value| && f.value[k].calls >= w.hooks.value[k].calls
  {
    var s := w.hooks.value[k];
    CallGrows(env.faults, k, s, OnIngest(row));
    CallGrows(env.faults, k, CallOne(env.faults, k, s, OnIngest(row)).0, Publish);
  }

  lemma {:induction false} FireBatchGrows(env: Surroundings, w: World, batch: seq<Row>, k: nat)
    requires w.hooks.Some? && k < |w.hooks.value|
    ensures var f := FireBatch(env, w, batch).hooks;
            f.Some? && |f.value| == |w.hooks.value| && f.value[k].calls >= w.hooks.value[k].calls
  {
    var s := w.hooks.value[k];
    CallGrows(env.faults, k, s, OnIngestBatch(batch));
    CallGrows(env.faults, k, CallOne(env.faults, k, s, OnIngestBatch(batch)).0, Publish);
  }

  /** Calls are only ever added, and a write leaves the members in place. */
  lemma {:induction false} CallsGrow(env: Surroundings, w: World, op: Op, k: nat)
    requires IsWrite(op) && w.hooks.Some? && k < |w.hooks.value|
    ensures var after := Do(env, w, op).hooks;
            && after.Some? && |after.value| == |w.hooks.value|
            && after.value[k].calls >= w.hooks.value[k].calls
  {
    match op
    case OneItem(item) =>
      var r := Ingested(env, w, item).1;
      if r.Ok? { FireHookGrows(env, w, r.value, k); }
    case ManyItems(items) =>
      var r := IngestedMany(env, w, items).1;
      if r.Ok? { FireBatchGrows(env, w, r.value, k); }
    case Replacing(item, target) =>
      var r := Replaced(env, w, item, target).1;
      if r.Ok? { FireHookGrows(env, w, r.value, k); }
  }

  lemma {:induction false} SingleTracks(env: Surroundings, w: World, item: NewItem, k: nat)
    requires Faultless(env, w, k) && Tracks(w, k)
    ensures Tracks(Ingested(env, w, item).0, k)
    ensures TakenByAll(env, w, OneItem(item)) ==> Agrees(Ingested(env, w, item).0, k)
  {
    var (after, r) := Ingested(env, w, item);
    IngestIsTransaction(env, w, item);
    if r.Ok? {
      var fired := World(after.rows, after.ticks, after.draws, after.turns, after.arrivals, w.hooks);
      assert InsertAll(after.rows, [r.value], 1) == Ok(after.rows);
      assert after.rows == w.rows + [r.value];
      DocumentsSnoc(w.rows, r.value);
      FireHookTracks(env, fired, r.value, Documents(w.rows), k);
      assert after == FireHook(env, fired, r.value);
    }
  }

  /** The table and the hook of a successful batch. */
  lemma {:induction false} BatchFires(env: Surroundings, w: World, items: seq<NewItem>)
    requires IngestedMany(env, w, items).1.Ok? && Valid(w.rows)
    ensures var (after, r) := IngestedMany(env, w, items);
            && after == FireBatch(env, after.(hooks := w.hooks), r.value)
            && Documents(after.rows) == Documents(w.rows) + Documents(r.value)
  {
    var (after, r) := IngestedMany(env, w, items);
    IngestManyIsTransaction(env, w, items);
    InsertAllKeepsValid(w.rows, r.value, 0);
    assert r.value[0..] == r.value;
    DocumentsAppend(w.rows, r.value);
  }

  lemma {:induction false} BatchTracks(env: Surroundings, w: World, items: seq<NewItem>, k: nat)
    requires Faultless(env, w, k) && Tracks(w, k) && Valid(w.rows)
    ensures Tracks(IngestedMany(env, w, items).0, k)
    ensures TakenByAll(env, w, ManyItems(items)) ==> Agrees(IngestedMany(env, w, items).0, k)
  {
    var (after, r) := IngestedMany(env, w, items);
    if r.Ok? {
      BatchFires(env, w, items);
      var fired := World(after.rows, after.ticks, after.draws, after.turns, after.arrivals, w.hooks);
      FireBatchTracks(env, fired, r.value, Documents(w.rows), k);
    } else {
      IngestManyIsTransaction(env, w, items);
    }
  }

  /** The table and the hook of a successful replacement. */
  lemma {:induction false} ReplacedFires(env: Surroundings, w: World, item: NewItem, target: ItemId)
    requires Replaced(env, w, item, target).1.Ok?
    ensures var (after, r) := Replaced(env, w, item, target);
            && after == FireHook(env, after.(hooks := w.hooks), r.value)
            && Documents(after.rows) == Documents(w.rows) + multiset{DocumentOf(r.value)}
  {
    var (after, r) := Replaced(env, w, item, target);
    ReplaceIsTransaction(env, w, item, target);
    ReplaceDocuments(w.rows, r.value, target);
    assert r.value.(supersedes := Some(target)) == r.value;
  }

  lemma {:induction false} ReplacementTracks(env: Surroundings, w: World, item: NewItem, target: ItemId, k: nat)
    requires Faultless(env, w, k) && Tracks(w, k)
    ensures Tracks(Replaced(env, w, item, target).0, k)
    ensures TakenByAll(env, w, Replacing(item, target)) ==> Agrees(Replaced(env, w, item, target).0, k)
  {
    var (after, r) := Replaced(env, w, item, target);
    if r.Ok? {
      ReplacedFires(env, w, item, target);
      var fired := World(after.rows, after.ticks, after.draws, after.turns, after.arrivals, w.hooks);
      FireHookTracks(env, fired, r.value, Documents(w.rows), k);
    } else {
      ReplaceIsTransaction(env, w, item, target);
    }
  }

  /**
   A lexical member whose own calls do not fail keeps one pending document per row through any writes,
   however the other members fail, and publishes exactly those at every write the others took too and
   at every batch.
   */
  lemma {:induction false} WritesKeepTrack(env: Surroundings, w: World, ops: seq<Op>, k: nat)
    requires Faultless(env, w, k) && Valid(w.rows) && Tracks(w, k)
    requires forall i :: 0 <= i < |ops| ==> IsWrite(ops[i])
    ensures Valid(DoAll(env, w, ops).rows) && Tracks(DoAll(env, w, ops), k) && Faultless(env, DoAll(env, w, ops), k)
    ensures ops != [] && TakenByAll(env, DoAll(env, w, ops[..|ops| - 1]), ops[|ops| - 1]) ==>
              Agrees(DoAll(env, w, ops), k)
    decreases |ops|
  {
    if ops != [] {
      var earlier, op := ops[..|ops| - 1], ops[|ops| - 1];
      WritesKeepTrack(env, w, earlier, k);
      var before := DoAll(env, w, earlier);
      DoEvolves(env, before, op);
      CallsGrow(env, before, op, k);
      match op
      case OneItem(item) => SingleTracks(env, before, item, k);
      case ManyItems(items) => BatchTracks(env, before, items, k);
      case Replacing(item, target) => ReplacementTracks(env, before, item, target, k);
    }
  }

  /** No member fails any more. */
  ghost predicate NothingFails(env: Surroundings, w: World) {
    w.hooks.Some? && forall k :: 0 <= k < |w.hooks.value| ==> Faultless(env, w, k)
  }

  /** From where no hook call fails any more, every member agrees with the store after every write. */
  lemma {:induction false} FaultlessRunsAgree(env: Surroundings, w: World, ops: seq<Op>, k: nat)
    requires Valid(w.rows) && NothingFails(env, w) && Agrees(w, k)
    requires forall i :: 0 <= i < |ops| ==> IsWrite(ops[i])
    ensures Agrees(DoAll(env, w, ops), k) && NothingFails(env, DoAll(env, w, ops))
    decreases |ops|
  {
    if ops != [] {
      var earlier, op := ops[..|ops| - 1], ops[|ops| - 1];
      FaultlessRunsAgree(env, w, earlier, k);
      WritesKeepTrack(env, w, earlier, k);
      WritesKeepTrack(env, w, ops, k);
      var before := DoAll(env, w, earlier);
      forall j | 0 <= j < |before.hooks.value| ensures Faultless(env, DoAll(env, w, ops), j) {
        assert Faultless(env, before, j);
        CallsGrow(env, before, op, j);
      }
      CallsGrow(env, before, op, k);
      NoFaultMeansTaken(env, before, op);
      if !TakenByAll(env, before, op) {
        FailedWriteChangesNothing(env, before, op);
      }
    }
  }

  /** The operation succeeded on the table. */
  predicate Succeeded(env: Surroundings, w: World, op: Op) {
    match op
    case OneItem(item) => Ingested(env, w, item).1.Ok?
    case ManyItems(items) => IngestedMany(env, w, items).1.Ok?
    case Replacing(item, target) => Replaced(env, w, item, target).1.Ok?
    case _ => false
  }

  lemma {:induction false} NoFaultMeansTaken(env: Surroundings, w: World, op: Op)
    requires NothingFails(env, w) && IsWrite(op)
    ensures TakenByAll(env, w, op) <==> Succeeded(env, w, op)
  {
    forall k | 0 <= k < |w.hooks.value| ensures env.faults(k, w.hooks.value[k].calls) == Fine {
      assert Faultless(env, w, k);
    }
  }

  lemma {:induction false} FailedWriteChangesNothing(env: Surroundings, w: World, op: Op)
    requires IsWrite(op) && !Succeeded(env, w, op)
    ensures Do(env, w, op).rows == w.rows && Do(env, w, op).hooks == w.hooks
  {
    match op
    case OneItem(item) => IngestIsTransaction(env, w, item);
    case ManyItems(items) => IngestManyIsTransaction(env, w, items);
    case Replacing(item, target) => ReplaceIsTransaction(env, w, item, target);
  }

  /******* What agreement means for readers *******/

  /** The document shows everything of the row that can be searched for or is shown. */
  predicate Shows(d: Document, row: Row) {
    && d.id == row.id && d.content == row.content && d.source == row.source && d.supersedes == row.supersedes
    && d.tags == row.tags && d.scope == row.scope && d.createdAt == row.createdAt
    && d.ancestors == (if row.scope.None? then [] else Scope.AncestorsOf(row.scope.value))
  }

  /** When a member agrees with the store, readers find each item exactly once, with its fields. */
  lemma {:induction false} AgreementShowsEachItem(w: World, k: nat, i: nat)
    requires Valid(w.rows) && Agrees(w, k) && i < |w.rows|
    ensures var shown := w.hooks.value[k].visible;
            exists d :: shown[d] == 1 && Shows(d, w.rows[i]) && forall e :: e in shown && e.id == d.id ==> e == d
  {
    var rows, d := w.rows, DocumentOf(w.rows[i]);
    OneDocumentEach(rows, d);
    forall e | e in Documents(rows) && e.id == d.id ensures e == d {
      OneDocumentEach(rows, e);
      var j :| 0 <= j < |rows| && DocumentOf(rows[j]) == e;
      assert j == i;
    }
    assert w.hooks.value[k].visible[d] == 1 && Shows(d, rows[i]);
  }

  /** And nothing else. */
  lemma {:induction false} AgreementShowsNoMore(w: World, k: nat, d: Document)
    requires Valid(w.rows) && Agrees(w, k) && d in w.hooks.value[k].visible
    ensures exists i :: 0 <= i < |w.rows| && Shows(d, w.rows[i])
  {
    OneDocumentEach(w.rows, d);
    var i :| 0 <= i < |w.rows| && DocumentOf(w.rows[i]) == d;
    assert Shows(d, w.rows[i]);
  }

  /** The index cannot tell two rows apart exactly when they differ in external id and metadata at most. */
  lemma {:induction false} IndistinctRows(a: Row, b: Row)
    ensures Documents([a]) == Documents([b]) <==> b == a.(externalId := b.externalId, metadata := b.metadata)
  {
    DocumentsOfOne(a);
    DocumentsOfOne(b);
    if Documents([a]) == Documents([b]) { assert DocumentOf(a) in multiset{DocumentOf(b)}; }
  }

  /******* Scope moves *******/

  /** Changing one row changes the documents exactly when it changes the row's own. */
  lemma {:induction false} OneRowChanged(rows: seq<Row>, i: nat, row: Row)
    requires i < |rows|
    ensures Documents(rows[i := row]) == Documents(rows) <==> DocumentOf(row) == DocumentOf(rows[i])
  {
    var after := rows[i := row];
    DocumentsAround(rows, i);
    DocumentsAround(after, i);
    assert after[..i] == rows[..i] && after[i + 1..] == rows[i + 1..];
    OneDocumentChanged(Documents(rows[..i]) + Documents(rows[i + 1..]), DocumentOf(rows[i]), DocumentOf(row));
    var front, back := Documents(rows[..i]), Documents(rows[i + 1..]);
    assert Documents(rows) == front + back + multiset{DocumentOf(rows[i])};
    assert Documents(after) == front + back + multiset{DocumentOf(row)};
  }

  lemma {:induction false} OneDocumentChanged(rest: multiset<Document>, d: Document, e: Document)
    ensures rest + multiset{d} == rest + multiset{e} <==> d == e
  {
    assert (rest + multiset{d})[d] == rest[d] + 1;
    assert d != e ==> (rest + multiset{e})[d] == rest[d];
  }

  /**
   Moving a scope is what separates them: the index keeps the old scope's document, so it agrees
   afterwards only if the scope did not change.
   */
  lemma {:induction false} RescopingDisagrees(env: Surroundings, w: World, id: ItemId, scope: Option<string>, k: nat)
    requires Valid(w.rows) && Agrees(w, k) && Rescoped(env, w, id, scope).1.Ok?
    ensures var i := IndexOfId(w.rows, 0, id);
            && i.Some?
            && (Agrees(Rescoped(env, w, id, scope).0, k) <==>
                  NormaliseOption(scope) == Ok(w.rows[i.value].scope))
  {
    var i := IndexOfId(w.rows, 0, id).value;
    OneRowChanged(w.rows, i, Rescoped(env, w, id, scope).1.value);
  }

  /******* Rebuilding *******/

  lemma {:induction false} MembersOfListing(rows: seq<Row>, listed: seq<Row>)
    requires multiset(listed) == multiset(rows)
    ensures forall k :: 0 <= k < |listed| ==> listed[k] in rows
  {
    forall k | 0 <= k < |listed| ensures listed[k] in rows { assert listed[k] in multiset(listed); }
  }

  /** The whole table, listed in any order. */
  lemma {:induction false} WholeTableIsListing(rows: seq<Row>, listed: seq<Row>)
    requires UniqueIds(rows) && multiset(listed) == multiset(rows)
    ensures IsListing(listed, rows)
  {
    MembersOfListing(rows, listed);
    MembersAreVersions(listed, rows);
    forall i, j | 0 <= i < j < |listed| ensures listed[i].id != listed[j].id {
      if listed[i] == listed[j] {
        TwiceInMultiset(listed, i, j);
        OnceInMultiset(rows, listed[i]);
      } else {
        var a :| 0 <= a < |rows| && rows[a] == listed[i];
        var b :| 0 <= b < |rows| && rows[b] == listed[j];
        assert a < b || b < a;
      }
    }
  }

  lemma {:induction false} TwiceInMultiset<T>(s: seq<T>, i: nat, j: nat)
    requires i < j < |s| && s[i] == s[j]
    ensures multiset(s)[s[i]] >= 2
  {
    MultisetWithout(s, i);
    var rest := s[..i] + s[i + 1..];
    assert rest[j - 1] == s[j];
    assert s[j] in multiset(rest);
  }

  lemma {:induction false} OnceInMultiset(rows: seq<Row>, row: Row)
    requires UniqueIds(rows)
    ensures multiset(rows)[row] <= 1
    decreases |rows|
  {
    if rows != [] {
      var front, last := rows[..|rows| - 1], rows[|rows| - 1];
      OnceInMultiset(front, row);
      assert rows == front + [last];
      forall i | 0 <= i < |front| ensures front[i] != last { assert rows[i].id != last.id; }
      assert last !in multiset(front);
    }
  }

  /** Every item of an earlier table, each loaded at some point since. */
  lemma {:induction false} LoadedIsListing(earlier: seq<Row>, listed: seq<Row>, rows: seq<Row>)
    requires UniqueIds(earlier) && |listed| == |earlier| <= |rows|
    requires forall k :: 0 <= k < |earlier| ==> SameRow(earlier[k], listed[k]) && SameRow(listed[k], rows[k])
    ensures IsListing(listed, rows)
  {
    forall i, j | 0 <= i < j < |listed| ensures listed[i].id != listed[j].id {
      assert earlier[i].id == listed[i].id && earlier[j].id == listed[j].id;
    }
    forall k | 0 <= k < |listed| ensures IsVersion(listed[k], rows) { assert SameRow(listed[k], rows[k]); }
  }

  lemma {:induction false} RunsCompose(env: Surroundings, w: World, first: seq<Op>, second: seq<Op>)
    ensures DoAll(env, w, first + second) == DoAll(env, DoAll(env, w, first), second)
    decreases |second|
  {
    if second == [] {
      assert first + second == first;
    } else {
      var front, op := second[..|second| - 1], second[|second| - 1];
      assert (first + second)[..|first + second| - 1] == first + front;
      RunsCompose(env, w, first, front);
    }
  }

  /**
   A rebuild that reports success leaves exactly one document for each item listed, whatever the member
   held, so it agrees with the store if the listing was the whole table, in any order; and when no call
   fails any more it does report success.
   */
  lemma {:induction false} RebuildAgrees(env: Surroundings, w: World, k: nat, listed: seq<Row>)
    requires CanRebuild(w, k, listed)
    ensures var (after, count) := Rebuilt(env, w, k, listed);
            && (count.Some? ==>
                  && count == Some(|listed|) && after.hooks.value[k].committed == Documents(listed)
                  && (multiset(listed) == multiset(w.rows) ==> Agrees(after, k) && count == Some(|w.rows|)))
            && (NothingFails(env, w) ==> count.Some? && NothingFails(env, after))
  {
    ReindexedMeaning(env.faults, k, w.hooks.value[k], listed);
    if multiset(listed) == multiset(w.rows) {
      DocumentsIgnoreOrder(listed, w.rows);
      assert |multiset(listed)| == |listed| && |multiset(w.rows)| == |w.rows|;
    }
    if NothingFails(env, w) {
      var after := Rebuilt(env, w, k, listed).0;
      assert Faultless(env, w, k);
      forall j | 0 <= j < |w.hooks.value| ensures Faultless(env, after, j) { assert Faultless(env, w, j); }
    }
  }

  lemma {:induction false} RebuildInARun(env: Surroundings, w: World, run: seq<Op>, k: nat, listed: seq<Row>,
                                         writes: seq<Op>)
    requires CanRebuild(DoAll(env, w, run), k, listed)
    ensures DoAll(env, w, run + [Rebuilding(k, listed)] + writes)
         == DoAll(env, Rebuilt(env, DoAll(env, w, run), k, listed).0, writes)
  {
    assert (run + [Rebuilding(k, listed)])[..|run|] == run;
    RunsCompose(env, w, run + [Rebuilding(k, listed)], writes);
  }

  lemma {:induction false} RebuiltThenWritten(env: Surroundings, w: World, k: nat, listed: seq<Row>, writes: seq<Op>)
    requires Valid(w.rows) && CanRebuild(w, k, listed) && NothingFails(env, w)
    requires multiset(listed) == multiset(w.rows) && forall i :: 0 <= i < |writes| ==> IsWrite(writes[i])
    ensures Rebuilt(env, w, k, listed).1 == Some(|w.rows|)
    ensures Agrees(DoAll(env, Rebuilt(env, w, k, listed).0, writes), k)
  {
    RebuildAgrees(env, w, k, listed);
    FaultlessRunsAgree(env, Rebuilt(env, w, k, listed).0, writes, k);
  }

  /**
   Recovery: after any run at all, with any failures and any scopes moved, once hook calls stop failing a
   rebuild of a member from the whole table succeeds and makes it agree with the store, and it agrees
   after every write that follows.
   */
  lemma {:induction false} RebuildRepairs(env: Surroundings, w: World, run: seq<Op>, k: nat, listed: seq<Row>,
                                          writes: seq<Op>)
    requires Valid(w.rows) && NothingFails(env, DoAll(env, w, run)) && k < |DoAll(env, w, run).hooks.value|
    requires multiset(listed) == multiset(DoAll(env, w, run).rows)
    requires forall i :: 0 <= i < |writes| ==> IsWrite(writes[i])
    ensures CanRebuild(DoAll(env, w, run), k, listed)
    ensures Rebuilt(env, DoAll(env, w, run), k, listed).1 == Some(|DoAll(env, w, run).rows|)
    ensures Agrees(DoAll(env, w, run + [Rebuilding(k, listed)] + writes), k)
  {
    var broken := DoAll(env, w, run);
    RunStaysValid(env, w, run);
    WholeTableIsListing(broken.rows, listed);
    RebuiltThenWritten(env, broken, k, listed, writes);
    RebuildInARun(env, w, run, k, listed, writes);
  }
}
