/**
 Index hooks: the lexical sidecar as committed and pending documents, and the fan-out that runs
 every member of a composite hook and reports the first failure.
 */
module Hook {
  import opened Wrappers
  import opened Items
  import Scope

  /** What the lexical index stores for an item; external ids and metadata are not indexed. */
  datatype Document = Document(
    id: ItemId,
    content: string,
    source: Option<string>,
    supersedes: Option<ItemId>,
    tags: seq<string>,
    scope: Option<string>,
    ancestors: seq<string>,
    createdAt: int)

  function DocumentOf(row: Row): Document {
    Document(row.id, row.content, row.source, row.supersedes, row.tags, row.scope,
             Scope.AncestorField(row.scope), row.createdAt)
  }

  /**
   A sidecar: what is committed, what the next commit would publish, what readers see, and how many
   calls it has taken.
   */
  datatype Sidecar = Sidecar(
    committed: multiset<Document>, pending: multiset<Document>, visible: multiset<Document>, calls: nat)

  /** How a call can go: as intended, with no effect, or published but reported as failed. */
  datatype Fault = Fine | Refused | Unreported

  /** The fault of each member's each call. */
  type Faults = (nat, nat) -> Fault

  datatype Call =
    | OnIngest(row: Row)
    | OnIngestBatch(rows: seq<Row>)
    | Publish

  /** Adding one document: `on_ingest` and `on_reindex` are the same. */
  function Add(fault: Fault, s: Sidecar, row: Row): (Sidecar, bool) {
    if fault.Fine? then (s.(pending := s.pending + multiset{DocumentOf(row)}, calls := s.calls + 1), true)
    else (s.(calls := s.calls + 1), false)
  }

  /** `commit`: publish, then reload the reader; either can fail. */
  function Flush(fault: Fault, s: Sidecar): (Sidecar, bool) {
    match fault
    case Fine => (Sidecar(s.pending, s.pending, s.pending, s.calls + 1), true)
    case Refused => (s.(calls := s.calls + 1), false)
    case Unreported => (s.(committed := s.pending, calls := s.calls + 1), false)
  }

  /** The default `on_ingest_batch`: one item after another, stopping at the first failure. */
  function AddFrom(faults: Faults, member: nat, s: Sidecar, rows: seq<Row>, i: nat): (Sidecar, bool)
    requires i <= |rows|
    decreases |rows| - i
  {
    if i == |rows| then (s, true)
    else
      var (next, ok) := Add(faults(member, s.calls), s, rows[i]);
      if ok then AddFrom(faults, member, next, rows, i + 1) else (next, false)
  }

  function CallOne(faults: Faults, member: nat, s: Sidecar, call: Call): (Sidecar, bool) {
    match call
    case OnIngest(row) => Add(faults(member, s.calls), s, row)
    case OnIngestBatch(rows) => AddFrom(faults, member, s, rows, 0)
    case Publish => Flush(faults(member, s.calls), s)
  }

  /** Every member after a call; no member's failure keeps another from running. */
  function CallEach(faults: Faults, members: seq<Sidecar>, call: Call): (after: seq<Sidecar>)
    ensures |after| == |members|
    ensures forall i :: 0 <= i < |members| ==> after[i] == CallOne(faults, i, members[i], call).0
  {
    seq(|members|, i requires 0 <= i < |members| => CallOne(faults, i, members[i], call).0)
  }

  predicate AllSucceed(faults: Faults, members: seq<Sidecar>, call: Call) {
    forall i :: 0 <= i < |members| ==> CallOne(faults, i, members[i], call).1
  }

  /** `on_ingest_batch`'s loop, for one member. */
  method AddAll(faults: Faults, member: nat, s: Sidecar, rows: seq<Row>) returns (after: Sidecar, ok: bool)
    ensures (after, ok) == AddFrom(faults, member, s, rows, 0)
  {
    after, ok := s, true;
    var i := 0;
    while i < |rows|
      invariant 0 <= i <= |rows|
      invariant AddFrom(faults, member, after, rows, i) == AddFrom(faults, member, s, rows, 0)
    {
      var (next, added) := Add(faults(member, after.calls), after, rows[i]);
      after := next;
      if !added { return after, false; }
      i := i + 1;
    }
  }

  /** `run_all`: calls every member in order and remembers the first that failed. */
  method RunAll(faults: Faults, members: seq<Sidecar>, call: Call)
    returns (after: seq<Sidecar>, firstFailed: Option<nat>)
    ensures after == CallEach(faults, members, call)
    ensures firstFailed.None? <==> AllSucceed(faults, members, call)
    ensures firstFailed.Some? ==>
              && firstFailed.value < |members|
              && !CallOne(faults, firstFailed.value, members[firstFailed.value], call).1
              && forall k :: 0 <= k < firstFailed.value ==> CallOne(faults, k, members[k], call).1
  {
    after, firstFailed := members, None;
    var i := 0;
    while i < |members|
      invariant 0 <= i <= |members| && |after| == |members|
      invariant forall k :: 0 <= k < i ==> after[k] == CallOne(faults, k, members[k], call).0
      invariant forall k :: i <= k < |members| ==> after[k] == members[k]
      invariant firstFailed.None? ==> forall k :: 0 <= k < i ==> CallOne(faults, k, members[k], call).1
      invariant firstFailed.Some? ==>
          && firstFailed.value < i && !CallOne(faults, firstFailed.value, members[firstFailed.value], call).1
          && forall k :: 0 <= k < firstFailed.value ==> CallOne(faults, k, members[k], call).1
    {
      var next, ok;
      match call {
        case OnIngest(row) =>
          var (added, fine) := Add(faults(i, after[i].calls), after[i], row);
          next, ok := added, fine;
        case OnIngestBatch(rows) =>
          next, ok := AddAll(faults, i, after[i], rows);
        case Publish =>
          var (flushed, fine) := Flush(faults(i, after[i].calls), after[i]);
          next, ok := flushed, fine;
      }
      after := after[i := next];
      if !ok && firstFailed.None? {
        firstFailed := Some(i);
      }
      i := i + 1;
    }
  }

  /******* Rebuilding *******/

  /** The documents of a list of rows, one for each. */
  function Documents(rows: seq<Row>): multiset<Document> {
    if rows == [] then multiset{} else Documents(rows[..|rows| - 1]) + multiset{DocumentOf(rows[|rows| - 1])}
  }

  lemma {:induction false} DocumentsSnoc(rows: seq<Row>, row: Row)
    ensures Documents(rows + [row]) == Documents(rows) + multiset{DocumentOf(row)}
  {
    assert (rows + [row])[..|rows|] == rows;
  }

  lemma {:induction false} DocumentsOfPrefix(rows: seq<Row>, i: nat)
    requires i < |rows|
    ensures Documents(rows[..i + 1]) == Documents(rows[..i]) + multiset{DocumentOf(rows[i])}
  {
    assert rows[..i + 1] == rows[..i] + [rows[i]];
    DocumentsSnoc(rows[..i], rows[i]);
  }

  /** `reindex_from` and how many items it indexed: drop what is pending, add every item, commit once. */
  function Reindexed(faults: Faults, member: nat, s: Sidecar, rows: seq<Row>): (Sidecar, Option<nat>) {
    if !faults(member, s.calls).Fine? then (s.(calls := s.calls + 1), None)
    else
      var (added, ok) := AddFrom(faults, member, s.(pending := multiset{}, calls := s.calls + 1), rows, 0);
      if !ok then (added, None)
      else
        var (flushed, fine) := Flush(faults(member, added.calls), added);
        (flushed, if fine then Some(|rows|) else None)
  }

  lemma {:induction false} AddFromMeaning(faults: Faults, member: nat, s: Sidecar, rows: seq<Row>, i: nat)
    requires i <= |rows| && s.pending == Documents(rows[..i])
    ensures var (after, ok) := AddFrom(faults, member, s, rows, i);
            && after.committed == s.committed && after.visible == s.visible && after.calls >= s.calls
            && (ok ==> after.pending == Documents(rows))
            && ((forall n :: n >= s.calls ==> faults(member, n).Fine?) ==> ok)
    decreases |rows| - i
  {
    if i == |rows| {
      assert rows[..i] == rows;
    } else {
      var (next, ok) := Add(faults(member, s.calls), s, rows[i]);
      if ok {
        DocumentsOfPrefix(rows, i);
        AddFromMeaning(faults, member, next, rows, i + 1);
      }
    }
  }

  /**
   Rebuilding from any sidecar whatever: success means that what is committed, and what readers see, is
   exactly one document per item given; a failure publishes either nothing or all of it; without faults
   it succeeds.
   */
  lemma {:induction false} ReindexedMeaning(faults: Faults, member: nat, s: Sidecar, rows: seq<Row>)
    ensures var (after, count) := Reindexed(faults, member, s, rows);
            && (count.Some? ==>
                  count.value == |rows| && after.committed == after.visible == after.pending == Documents(rows))
            && (count.None? ==> after.committed == s.committed || after.committed == Documents(rows))
            && ((forall n :: n >= s.calls ==> faults(member, n).Fine?) ==> count.Some?)
            && after.calls >= s.calls
  {
    assert rows[..0] == [];
    var cleared := s.(pending := multiset{}, calls := s.calls + 1);
    AddFromMeaning(faults, member, cleared, rows, 0);
  }

  /** The lexical index: the sidecar behind its writer and reader. */
  class LexicalIndex {
    var sidecar: Sidecar
    const number: nat
    const faults: Faults

    constructor (sidecar: Sidecar, number: nat, faults: Faults)
      ensures this.sidecar == sidecar && this.number == number && this.faults == faults
    {
      this.sidecar, this.number, this.faults := sidecar, number, faults;
    }

    /** `on_reindex`, which is `on_ingest`. */
    method OnReindex(row: Row) returns (ok: bool)
      modifies this
      ensures (sidecar, ok) == Add(faults(number, old(sidecar.calls)), old(sidecar), row)
    {
      var (next, fine) := Add(faults(number, sidecar.calls), sidecar, row);
      sidecar, ok := next, fine;
    }

    /** Success publishes what was pending to everyone; a failure shows readers nothing new, published or not. */
    method CommitAndReload() returns (ok: bool)
      modifies this
      ensures (sidecar, ok) == Flush(faults(number, old(sidecar.calls)), old(sidecar))
      ensures sidecar.pending == old(sidecar.pending)
      ensures ok ==> sidecar.committed == sidecar.visible == old(sidecar.pending)
      ensures !ok ==>
                && sidecar.visible == old(sidecar.visible)
                && (sidecar.committed == old(sidecar.committed) || sidecar.committed == old(sidecar.pending))
    {
      var (next, fine) := Flush(faults(number, sidecar.calls), sidecar);
      sidecar, ok := next, fine;
    }

    /** The indexing loop of `reindex_from`. */
    method ReindexEach(rows: seq<Row>) returns (ok: bool)
      modifies this
      ensures (sidecar, ok) == AddFrom(faults, number, old(sidecar), rows, 0)
    {
      ghost var outcome := AddFrom(faults, number, sidecar, rows, 0);
      var i := 0;
      while i < |rows|
        invariant 0 <= i <= |rows|
        invariant AddFrom(faults, number, sidecar, rows, i) == outcome
      {
        ok := OnReindex(rows[i]);
        if !ok { return; }
        i := i + 1;
      }
      ok := true;
    }

    /** `reindex_from`. */
    method ReindexFrom(rows: seq<Row>) returns (count: Option<nat>)
      modifies this
      ensures (sidecar, count) == Reindexed(faults, number, old(sidecar), rows)
      ensures count.Some? ==>
                count.value == |rows|
                && sidecar.committed == sidecar.visible == sidecar.pending == Documents(rows)
      ensures count.None? ==> sidecar.committed == old(sidecar.committed) || sidecar.committed == Documents(rows)
    {
      ReindexedMeaning(faults, number, sidecar, rows);
      if !faults(number, sidecar.calls).Fine? {
        sidecar := sidecar.(calls := sidecar.calls + 1);
        return None;
      }
      sidecar := sidecar.(pending := multiset{}, calls := sidecar.calls + 1);
      var ok := ReindexEach(rows);
      if !ok { return None; }
      ok := CommitAndReload();
      return if ok then Some(|rows|) else None;
    }
  }

  /** Each id has exactly one document when ids do not repeat, and that document is its row's. */
  lemma {:induction false} OneDocumentEach(rows: seq<Row>, d: Document)
    requires forall i, j :: 0 <= i < j < |rows| ==> rows[i].id != rows[j].id
    ensures Documents(rows)[d] == if exists i :: 0 <= i < |rows| && DocumentOf(rows[i]) == d then 1 else 0
    decreases |rows|
  {
    if rows != [] {
      var front, last := rows[..|rows| - 1], rows[|rows| - 1];
      OneDocumentEach(front, d);
      assert forall i :: 0 <= i < |front| ==> front[i] == rows[i];
    }
  }

  /** A document of a normal scope carries the scope and every path it lies under as ancestor terms. */
  lemma {:induction false} DocumentScopeTerms(row: Row, path: string)
    requires row.scope.Some? ==> Scope.IsNormal(row.scope.value)
    ensures DocumentOf(row).scope == row.scope
    ensures path in DocumentOf(row).ancestors <==> row.scope.Some? && Scope.Under(path, row.scope.value)
  {
    if row.scope.Some? { Scope.AncestorsMeaning(row.scope.value, path); }
  }
}
