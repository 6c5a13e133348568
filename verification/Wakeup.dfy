/**
 The wake-up context: the newest items of a project's scopes, rendered under a byte budget.

 `recent` asks the database for the newest items by the stored text of `created_at`; `build` merges
 several such lists by the time itself.
 */
module Wakeup {
  import opened Wrappers
  import opened Items
  import opened Text
  import Scope
  import Table
  import Time

  /** The stored text of `created_at`. */
  function CreatedText(row: Row): string {
    if Time.InRange(row.createdAt) then Time.Display(row.createdAt) else ""
  }

  predicate AllInRange(rows: seq<Row>) {
    forall i :: 0 <= i < |rows| ==> Time.InRange(rows[i].createdAt)
  }

  predicate Wanted(filters: seq<Scope.Filter>, row: Row) {
    exists i :: 0 <= i < |filters| && Scope.SqlAccepts(filters[i], row.scope)
  }

  /******* Sorting *******/

  type Newer = (Row, Row) -> bool

  ghost predicate IsTotalPreorder(newer: Newer) {
    && (forall a, b :: newer(a, b) || newer(b, a))
    && (forall a, b, c :: newer(a, b) && newer(b, c) ==> newer(a, c))
  }

  predicate Sorted(list: seq<Row>, newer: Newer) {
    forall i, j :: 0 <= i < j < |list| ==> newer(list[i], list[j])
  }

  predicate NoRepeats(list: seq<Row>) {
    forall i, j :: 0 <= i < j < |list| ==> list[i] != list[j]
  }

  /** After the rows at least as new: equal rows keep their order. */
  function Place(list: seq<Row>, row: Row, newer: Newer): seq<Row> {
    if list == [] then [row]
    else if newer(list[0], row) then [list[0]] + Place(list[1..], row, newer)
    else [row] + list
  }

  lemma {:induction false} DistinctParts(list: seq<Row>)
    requires NoRepeats(list) && list != []
    ensures list[0] !in list[1..] && NoRepeats(list[1..])
    ensures list[|list| - 1] !in list[..|list| - 1] && NoRepeats(list[..|list| - 1])
  {
  }

  lemma {:induction false} DistinctWithFirst(row: Row, list: seq<Row>)
    requires NoRepeats(list) && row !in list
    ensures NoRepeats([row] + list)
  {
  }

  lemma {:induction false} DistinctWithLast(list: seq<Row>, row: Row)
    requires NoRepeats(list) && row !in list
    ensures NoRepeats(list + [row])
  {
  }

  lemma {:induction false} PlaceMembers(list: seq<Row>, row: Row, newer: Newer)
    ensures |Place(list, row, newer)| == |list| + 1
    ensures forall r :: r in Place(list, row, newer) <==> r in list || r == row
  {
    if list != [] && newer(list[0], row) {
      PlaceMembers(list[1..], row, newer);
      assert list == [list[0]] + list[1..];
    }
  }

  lemma {:induction false} PlaceStaysDistinct(list: seq<Row>, row: Row, newer: Newer)
    requires NoRepeats(list) && row !in list
    ensures NoRepeats(Place(list, row, newer))
  {
    if list == [] {
    } else if newer(list[0], row) {
      DistinctParts(list);
      PlaceMembers(list[1..], row, newer);
      assert list == [list[0]] + list[1..];
      PlaceStaysDistinct(list[1..], row, newer);
      DistinctWithFirst(list[0], Place(list[1..], row, newer));
    } else {
      DistinctWithFirst(row, list);
    }
  }

  lemma {:induction false} PlaceStaysSorted(list: seq<Row>, row: Row, newer: Newer)
    requires IsTotalPreorder(newer) && Sorted(list, newer)
    ensures Sorted(Place(list, row, newer), newer)
  {
    if list != [] {
      var first, rest := list[0], list[1..];
      if newer(first, row) {
        PlaceStaysSorted(rest, row, newer);
        PlaceMembers(rest, row, newer);
        var placed := Place(rest, row, newer);
        forall j | 0 <= j < |placed| ensures newer(first, placed[j]) {
          assert placed[j] in placed;
          if placed[j] in rest {
            var i :| 0 <= i < |rest| && rest[i] == placed[j];
            assert list[i + 1] == rest[i];
          }
        }
      } else {
        forall j | 0 <= j < |list| ensures newer(row, list[j]) {
          assert j > 0 ==> newer(first, list[j]);
        }
      }
    }
  }

  lemma {:induction false} NotYet(list: seq<Row>, i: nat)
    requires NoRepeats(list) && i < |list|
    ensures list[i] !in list[..i]
  {
  }

  method SortBy(list: seq<Row>, newer: Newer) returns (sorted: seq<Row>)
    requires IsTotalPreorder(newer)
    ensures Sorted(sorted, newer) && |sorted| == |list| && forall r :: r in sorted <==> r in list
    ensures NoRepeats(list) ==> NoRepeats(sorted)
  {
    sorted := [];
    var i := 0;
    while i < |list|
      invariant 0 <= i <= |list| == |sorted| + |list| - i
      invariant Sorted(sorted, newer) && forall r :: r in sorted <==> r in list[..i]
      invariant NoRepeats(list) ==> NoRepeats(sorted)
    {
      PlaceStaysSorted(sorted, list[i], newer);
      PlaceMembers(sorted, list[i], newer);
      if NoRepeats(list) {
        NotYet(list, i);
        PlaceStaysDistinct(sorted, list[i], newer);
      }
      sorted := Place(sorted, list[i], newer);
      i := i + 1;
    }
  }

  predicate TextNewer(a: Row, b: Row) {
    !Less(CreatedText(a), CreatedText(b))
  }

  predicate TimeNewer(a: Row, b: Row) {
    a.createdAt >= b.createdAt
  }

  lemma {:induction false} TextNewerIsTotal()
    ensures IsTotalPreorder(TextNewer)
  {
    forall a, b ensures TextNewer(a, b) || TextNewer(b, a) { LessTotal(CreatedText(a), CreatedText(b)); }
    forall a, b, c | TextNewer(a, b) && TextNewer(b, c) ensures TextNewer(a, c) {
      TextNewerTransitive(CreatedText(a), CreatedText(b), CreatedText(c));
    }
  }

  lemma {:induction false} TextNewerTransitive(a: string, b: string, c: string)
    requires !Less(a, b) && !Less(b, c)
    ensures !Less(a, c)
  {
    LessTotal(a, b);
    LessTotal(b, c);
    LessTotal(a, c);
    if Less(c, b) && Less(b, a) { LessTransitive(c, b, a); }
  }

  /******* The database query *******/

  /** What `ORDER BY created_at DESC LIMIT` may return; rows with equal text come in any order. */
  ghost predicate IsRecent(rows: seq<Row>, filter: Scope.Filter, limit: nat, found: seq<Row>) {
    && NoRepeats(found) && |found| <= limit && Sorted(found, TextNewer)
    && (forall r :: r in found ==> r in rows && Scope.SqlAccepts(filter, r.scope))
    && (forall r :: r in rows && Scope.SqlAccepts(filter, r.scope) && r !in found ==>
          |found| == limit && forall s :: s in found ==> TextNewer(s, r))
  }

  function Accepted(rows: seq<Row>, filter: Scope.Filter): (accepted: seq<Row>)
    ensures forall r :: r in accepted <==> r in rows && Scope.SqlAccepts(filter, r.scope)
    ensures NoRepeats(rows) ==> NoRepeats(accepted)
  {
    if rows == [] then []
    else
      Accepted(rows[..|rows| - 1], filter)
      + (if Scope.SqlAccepts(filter, rows[|rows| - 1].scope) then [rows[|rows| - 1]] else [])
  }

  method Recent(rows: seq<Row>, filter: Scope.Filter, limit: nat) returns (found: seq<Row>)
    requires NoRepeats(rows)
    ensures IsRecent(rows, filter, limit, found)
  {
    if limit == 0 { return []; }
    TextNewerIsTotal();
    var sorted := SortBy(Accepted(rows, filter), TextNewer);
    if |sorted| <= limit { return sorted; }
    found := sorted[..limit];
    forall r | r in sorted && r !in found ensures forall s :: s in found ==> TextNewer(s, r) {
      CutOff(sorted, TextNewer, limit, r);
    }
  }

  /** What a cut leaves out is no newer than what it keeps. */
  lemma {:induction false} CutOff(sorted: seq<Row>, newer: Newer, limit: nat, r: Row)
    requires Sorted(sorted, newer) && limit <= |sorted| && r in sorted && r !in sorted[..limit]
    ensures forall s :: s in sorted[..limit] ==> newer(s, r)
  {
    var j :| 0 <= j < |sorted| && sorted[j] == r;
    assert j >= limit;
  }

  /** The rows any of the filters accepts. */
  function WantedRows(rows: seq<Row>, filters: seq<Scope.Filter>): (wanted: seq<Row>)
    ensures forall r :: r in wanted <==> r in rows && Wanted(filters, r)
    ensures NoRepeats(rows) ==> NoRepeats(wanted)
  {
    if rows == [] then []
    else
      WantedRows(rows[..|rows| - 1], filters)
      + (if Wanted(filters, rows[|rows| - 1]) then [rows[|rows| - 1]] else [])
  }

  /** `count_scoped_any`. */
  function CountScopedAny(rows: seq<Row>, filters: seq<Scope.Filter>): nat {
    if filters == [] then 0 else |WantedRows(rows, filters)|
  }

  /******* Building *******/

  /** One list per filter, end to end. */
  function Flatten(lists: seq<seq<Row>>): seq<Row> {
    if lists == [] then [] else Flatten(lists[..|lists| - 1]) + lists[|lists| - 1]
  }

  lemma {:induction false} FlattenMembers(lists: seq<seq<Row>>, r: Row)
    ensures r in Flatten(lists) <==> exists i :: 0 <= i < |lists| && r in lists[i]
  {
    if lists != [] {
      var front := lists[..|lists| - 1];
      FlattenMembers(front, r);
      assert forall i :: 0 <= i < |front| ==> front[i] == lists[i];
    }
  }

  /** `retain` with a set of the ids seen so far. */
  method KeepFirst(list: seq<Row>) returns (kept: seq<Row>)
    requires Sorted(list, TimeNewer)
    requires forall r, s :: r in list && s in list && r.id == s.id ==> r == s
    ensures Sorted(kept, TimeNewer) && NoRepeats(kept) && forall r :: r in kept <==> r in list
  {
    kept := [];
    var seen: set<ItemId> := {};
    var i := 0;
    while i < |list|
      invariant 0 <= i <= |list|
      invariant Sorted(kept, TimeNewer) && NoRepeats(kept)
      invariant forall r :: r in kept <==> r in list[..i]
      invariant forall id :: id in seen <==> exists j :: 0 <= j < i && list[j].id == id
    {
      forall r | r in kept ensures TimeNewer(r, list[i]) {
        var j :| 0 <= j < i && list[j] == r;
      }
      if list[i].id !in seen {
        seen := seen + {list[i].id};
        DistinctWithLast(kept, list[i]);
        kept := kept + [list[i]];
      }
      i := i + 1;
    }
  }

  function Reverse(list: seq<Row>): (reversed: seq<Row>)
    ensures |reversed| == |list| && forall i :: 0 <= i < |list| ==> reversed[i] == list[|list| - 1 - i]
  {
    if list == [] then [] else [list[|list| - 1]] + Reverse(list[..|list| - 1])
  }

  /** The blocks before they are put in chronological order. */
  function Cut(merged: seq<Row>, limit: nat): (cut: seq<Row>)
    ensures cut <= merged && (|cut| == limit || cut == merged) && |cut| <= limit
  {
    if |merged| <= limit then merged else merged[..limit]
  }

  datatype Wakeup = Wakeup(blocks: seq<Row>, total: nat, scopes: seq<string>, shown: nat)

  function Names(filters: seq<Scope.Filter>): (names: seq<string>)
    ensures |names| == |filters| && forall i :: 0 <= i < |filters| ==> names[i] == filters[i].path
  {
    seq(|filters|, i requires 0 <= i < |filters| => filters[i].path)
  }

  /** What `build` did: which rows each query found, and the merged list it cut. */
  ghost predicate IsBuilt(rows: seq<Row>, filters: seq<Scope.Filter>, limit: nat, found: seq<seq<Row>>,
                          merged: seq<Row>, blocks: seq<Row>)
  {
    && |found| == |filters| && (forall i :: 0 <= i < |filters| ==> IsRecent(rows, filters[i], limit, found[i]))
    && Sorted(merged, TimeNewer) && NoRepeats(merged)
    && (forall r :: r in merged <==> exists i :: 0 <= i < |found| && r in found[i])
    && blocks == Reverse(Cut(merged, limit))
  }

  /** `recent` for each filter in turn. */
  method Collect(rows: seq<Row>, filters: seq<Scope.Filter>, limit: nat)
    returns (items: seq<Row>, ghost found: seq<seq<Row>>)
    requires NoRepeats(rows)
    ensures |found| == |filters| && items == Flatten(found)
    ensures forall i :: 0 <= i < |filters| ==> IsRecent(rows, filters[i], limit, found[i])
  {
    items, found := [], [];
    var i := 0;
    while i < |filters|
      invariant 0 <= i <= |filters| && |found| == i && items == Flatten(found)
      invariant forall k :: 0 <= k < i ==> IsRecent(rows, filters[k], limit, found[k])
    {
      var more := Recent(rows, filters[i], limit);
      items := items + more;
      assert (found + [more])[..i] == found;
      found := found + [more];
      i := i + 1;
    }
  }

  /** The lists of all filters, merged by time, cut and put in chronological order. */
  method Merge(items: seq<Row>, limit: nat) returns (blocks: seq<Row>, ghost merged: seq<Row>)
    requires forall r, s :: r in items && s in items && r.id == s.id ==> r == s
    ensures Sorted(merged, TimeNewer) && NoRepeats(merged) && forall r :: r in merged <==> r in items
    ensures blocks == Reverse(Cut(merged, limit))
  {
    var sorted := SortBy(items, TimeNewer);
    var kept := KeepFirst(sorted);
    merged := kept;
    if |kept| > limit { kept := kept[..limit]; }
    blocks := Reverse(kept);
  }

  method Build(rows: seq<Row>, filters: seq<Scope.Filter>, limit: nat)
    returns (w: Wakeup, ghost found: seq<seq<Row>>, ghost merged: seq<Row>)
    requires Table.UniqueIds(rows)
    ensures IsBuilt(rows, filters, limit, found, merged, w.blocks)
    ensures w.total == CountScopedAny(rows, filters) && w.scopes == Names(filters) && w.shown == |w.blocks|
  {
    var items, blocks;
    IdsMakeRowsDistinct(rows);
    items, found := Collect(rows, filters, limit);
    FoundMembers(rows, filters, limit, found);
    blocks, merged := Merge(items, limit);
    w := Wakeup(blocks, CountScopedAny(rows, filters), Names(filters), |blocks|);
  }

  lemma {:induction false} FoundMembers(rows: seq<Row>, filters: seq<Scope.Filter>, limit: nat, found: seq<seq<Row>>)
    requires Table.UniqueIds(rows) && |found| == |filters|
    requires forall i :: 0 <= i < |filters| ==> IsRecent(rows, filters[i], limit, found[i])
    ensures forall r :: r in Flatten(found) <==> exists i :: 0 <= i < |found| && r in found[i]
    ensures forall r :: r in Flatten(found) ==> r in rows && Wanted(filters, r)
    ensures forall r, s :: r in Flatten(found) && s in Flatten(found) && r.id == s.id ==> r == s
  {
    forall r ensures r in Flatten(found) <==> exists i :: 0 <= i < |found| && r in found[i] {
      FlattenMembers(found, r);
    }
    forall r | r in Flatten(found) ensures r in rows && Wanted(filters, r) {
      var i :| 0 <= i < |found| && r in found[i];
      assert IsRecent(rows, filters[i], limit, found[i]);
    }
  }

  /******* How many are shown *******/

  function Elements(list: seq<Row>): set<Row> {
    set r | r in list
  }

  lemma {:induction false} DistinctCount(list: seq<Row>)
    requires NoRepeats(list)
    ensures |Elements(list)| == |list|
    decreases |list|
  {
    if list != [] {
      var front, last := list[..|list| - 1], list[|list| - 1];
      DistinctParts(list);
      DistinctCount(front);
      assert list == front + [last];
      assert Elements(list) == Elements(front) + {last};
    }
  }

  lemma {:induction false} SubsetCount(small: set<Row>, large: set<Row>)
    requires small <= large
    ensures |small| <= |large|
    ensures small != large ==> |small| < |large|
  {
    var rest := large - small;
    assert large == small + rest && small !! rest;
    assert |large| == |small| + |rest|;
  }

  lemma {:induction false} FewerElements(small: seq<Row>, large: seq<Row>)
    requires NoRepeats(small) && NoRepeats(large) && forall r :: r in small ==> r in large
    ensures |small| <= |large|
    ensures (exists r :: r in large && r !in small) ==> |small| < |large|
    ensures |small| == |large| ==> forall r :: r in large ==> r in small
  {
    DistinctCount(small);
    DistinctCount(large);
    SubsetCount(Elements(small), Elements(large));
    if r :| r in large && r !in small { assert r in Elements(large) && r !in Elements(small); }
    if |small| == |large| {
      forall r | r in large ensures r in small { assert r in Elements(large); }
    }
  }

  lemma {:induction false} IdsMakeRowsDistinct(rows: seq<Row>)
    requires Table.UniqueIds(rows)
    ensures NoRepeats(rows)
  {
    forall i, j | 0 <= i < j < |rows| ensures rows[i] != rows[j] { assert rows[i].id != rows[j].id; }
  }

  lemma {:induction false} MergedMembers(rows: seq<Row>, filters: seq<Scope.Filter>, limit: nat, found: seq<seq<Row>>,
                                         merged: seq<Row>, blocks: seq<Row>)
    requires Table.UniqueIds(rows) && IsBuilt(rows, filters, limit, found, merged, blocks)
    ensures forall r :: r in merged ==> r in rows && Wanted(filters, r)
    ensures |merged| <= |WantedRows(rows, filters)|
    ensures |merged| < limit ==> |merged| == |WantedRows(rows, filters)|
  {
    var wanted := WantedRows(rows, filters);
    IdsMakeRowsDistinct(rows);
    forall r | r in merged ensures r in wanted {
      var i :| 0 <= i < |found| && r in found[i];
      assert IsRecent(rows, filters[i], limit, found[i]);
    }
    FewerElements(merged, wanted);
    if |merged| < limit {
      forall r | r in wanted ensures r in merged {
        var i :| 0 <= i < |filters| && Scope.SqlAccepts(filters[i], r.scope);
        assert IsRecent(rows, filters[i], limit, found[i]);
        FewerElements(found[i], merged);
      }
      FewerElements(wanted, merged);
    }
  }

  lemma {:induction false} ReversedAt(merged: seq<Row>, limit: nat, i: nat)
    requires i < |Reverse(Cut(merged, limit))|
    ensures var blocks := Reverse(Cut(merged, limit));
            |blocks| <= |merged| && blocks[i] == merged[|blocks| - 1 - i] && blocks[i] in merged
  {
  }

  lemma {:induction false} OldestFirst(rows: seq<Row>, merged: seq<Row>, limit: nat, i: nat, j: nat)
    requires Table.UniqueIds(rows) && Sorted(merged, TimeNewer) && NoRepeats(merged)
    requires forall r :: r in merged ==> r in rows
    requires i < j < |Reverse(Cut(merged, limit))|
    ensures var blocks := Reverse(Cut(merged, limit));
            blocks[i].id != blocks[j].id && blocks[i].createdAt <= blocks[j].createdAt
  {
    var blocks := Reverse(Cut(merged, limit));
    ReversedAt(merged, limit, i);
    ReversedAt(merged, limit, j);
    assert TimeNewer(merged[|blocks| - 1 - j], merged[|blocks| - 1 - i]);
    DifferentIds(rows, blocks[i], blocks[j]);
  }

  lemma {:induction false} DifferentIds(rows: seq<Row>, r: Row, s: Row)
    requires Table.UniqueIds(rows) && r in rows && s in rows && r != s
    ensures r.id != s.id
  {
    var i :| 0 <= i < |rows| && rows[i] == r;
    var j :| 0 <= j < |rows| && rows[j] == s;
  }

  /** Distinct wanted items, oldest first, as many as there are up to the limit. */
  lemma {:induction false} ShowsAsManyAsAsked(rows: seq<Row>, filters: seq<Scope.Filter>, limit: nat,
                                              found: seq<seq<Row>>, merged: seq<Row>, blocks: seq<Row>)
    requires Table.UniqueIds(rows) && IsBuilt(rows, filters, limit, found, merged, blocks)
    ensures |blocks| == if limit < CountScopedAny(rows, filters) then limit else CountScopedAny(rows, filters)
    ensures forall i, j :: 0 <= i < j < |blocks| ==>
              blocks[i].id != blocks[j].id && blocks[i].createdAt <= blocks[j].createdAt
    ensures forall i :: 0 <= i < |blocks| ==> blocks[i] in rows && Wanted(filters, blocks[i])
  {
    MergedMembers(rows, filters, limit, found, merged, blocks);
    NoFiltersNoRows(rows, filters);
    forall i | 0 <= i < |blocks| ensures blocks[i] in rows && Wanted(filters, blocks[i]) {
      ReversedAt(merged, limit, i);
    }
    forall i, j | 0 <= i < j < |blocks|
      ensures blocks[i].id != blocks[j].id && blocks[i].createdAt <= blocks[j].createdAt
    {
      OldestFirst(rows, merged, limit, i, j);
    }
  }

  lemma {:induction false} NoFiltersNoRows(rows: seq<Row>, filters: seq<Scope.Filter>)
    ensures CountScopedAny(rows, filters) == |WantedRows(rows, filters)|
  {
    if filters == [] { EmptyOrMember(WantedRows(rows, filters)); }
  }

  lemma {:induction false} EmptyOrMember(list: seq<Row>)
    ensures list == [] || list[0] in list
  {
  }

  /******* Which are shown *******/

  /** A coarsening of time that the stored text respects: text at least as late means time at least as late. */
  ghost predicate TextRespects(rank: int -> int, rows: seq<Row>) {
    forall r, s :: r in rows && s in rows && TextNewer(s, r) ==> rank(r.createdAt) <= rank(s.createdAt)
  }

  /** The text is only ever compared among the rows of one filter. */
  ghost predicate TextsRespect(rank: int -> int, rows: seq<Row>, filters: seq<Scope.Filter>) {
    && (forall x, y :: x <= y ==> rank(x) <= rank(y))
    && forall i :: 0 <= i < |filters| ==> TextRespects(rank, Accepted(rows, filters[i]))
  }

  /** Of a full query result and a cut of the same length, one that is not the other has something it lacks. */
  lemma {:induction false} SomethingLeftOut(found: seq<Row>, cut: seq<Row>, s: Row) returns (r: Row)
    requires NoRepeats(found) && NoRepeats(cut) && |found| >= |cut| && s in cut && s !in found
    ensures r in found && r !in cut
  {
    if forall x :: x in found ==> x in cut { FewerElements(found, cut); }
    r :| r in found && r !in cut;
  }

  /** An item a query left out, against one that made the cut. */
  lemma {:induction false} LeftOutByQuery(rows: seq<Row>, filter: Scope.Filter, limit: nat, found: seq<Row>,
                                          merged: seq<Row>, rank: int -> int, omitted: Row, shown: Row)
    requires IsRecent(rows, filter, limit, found) && TextRespects(rank, Accepted(rows, filter))
    requires forall x, y :: x <= y ==> rank(x) <= rank(y)
    requires Sorted(merged, TimeNewer) && NoRepeats(merged) && forall r :: r in found ==> r in merged
    requires omitted in rows && Scope.SqlAccepts(filter, omitted.scope) && omitted !in found
    requires shown in Cut(merged, limit)
    ensures rank(omitted.createdAt) <= rank(shown.createdAt)
  {
    if shown !in found {
      var cut := Cut(merged, limit);
      var r := SomethingLeftOut(found, cut, shown);
      CutOff(merged, TimeNewer, |cut|, r);
    }
  }

  lemma {:induction false} CutIsNewest(rows: seq<Row>, filters: seq<Scope.Filter>, limit: nat,
                                       found: seq<seq<Row>>, merged: seq<Row>, blocks: seq<Row>,
                                       rank: int -> int, omitted: Row, shown: Row)
    requires Table.UniqueIds(rows) && IsBuilt(rows, filters, limit, found, merged, blocks)
    requires TextsRespect(rank, rows, filters)
    requires omitted in rows && Wanted(filters, omitted) && omitted !in Cut(merged, limit)
    requires shown in Cut(merged, limit)
    ensures rank(omitted.createdAt) <= rank(shown.createdAt)
  {
    if omitted in merged {
      CutOff(merged, TimeNewer, |Cut(merged, limit)|, omitted);
    } else {
      var i :| 0 <= i < |filters| && Scope.SqlAccepts(filters[i], omitted.scope);
      assert IsRecent(rows, filters[i], limit, found[i]) && TextRespects(rank, Accepted(rows, filters[i]));
      LeftOutByQuery(rows, filters[i], limit, found[i], merged, rank, omitted, shown);
    }
  }

  lemma {:induction false} BlocksAreTheCut(rows: seq<Row>, filters: seq<Scope.Filter>, limit: nat, found: seq<seq<Row>>,
                                           merged: seq<Row>, blocks: seq<Row>, r: Row)
    requires IsBuilt(rows, filters, limit, found, merged, blocks)
    ensures r in blocks <==> r in Cut(merged, limit)
  {
    var cut := Cut(merged, limit);
    if r in cut {
      var i :| 0 <= i < |cut| && cut[i] == r;
      assert blocks[|cut| - 1 - i] == r;
    }
    if r in blocks {
      var i :| 0 <= i < |blocks| && blocks[i] == r;
      assert cut[|cut| - 1 - i] == r;
    }
  }

  /** Whatever rounding of time the stored text respects, no omitted item is newer by it than one shown. */
  lemma {:induction false} ShownAreNewestBy(rows: seq<Row>, filters: seq<Scope.Filter>, limit: nat,
                                            found: seq<seq<Row>>, merged: seq<Row>, blocks: seq<Row>, rank: int -> int)
    requires Table.UniqueIds(rows) && IsBuilt(rows, filters, limit, found, merged, blocks)
    requires TextsRespect(rank, rows, filters)
    ensures forall o, s :: o in rows && Wanted(filters, o) && o !in blocks && s in blocks ==>
              rank(o.createdAt) <= rank(s.createdAt)
  {
    forall o, s | o in rows && Wanted(filters, o) && o !in blocks && s in blocks
      ensures rank(o.createdAt) <= rank(s.createdAt)
    {
      BlocksAreTheCut(rows, filters, limit, found, merged, blocks, o);
      BlocksAreTheCut(rows, filters, limit, found, merged, blocks, s);
      CutIsNewest(rows, filters, limit, found, merged, blocks, rank, o, s);
    }
  }

  /** No omitted item is newer than one shown. */
  predicate Newest(rows: seq<Row>, filters: seq<Scope.Filter>, blocks: seq<Row>) {
    forall o, s :: o in rows && Wanted(filters, o) && o !in blocks && s in blocks ==> o.createdAt <= s.createdAt
  }

  /** Always: no omitted item lies in a later second than one shown. */
  lemma {:induction false} ShownAreNewestToTheSecond(rows: seq<Row>, filters: seq<Scope.Filter>, limit: nat,
                                                     found: seq<seq<Row>>, merged: seq<Row>, blocks: seq<Row>)
    requires Table.UniqueIds(rows) && AllInRange(rows) && IsBuilt(rows, filters, limit, found, merged, blocks)
    ensures forall o, s :: o in rows && Wanted(filters, o) && o !in blocks && s in blocks ==>
              Time.SecondOf(o.createdAt) <= Time.SecondOf(s.createdAt)
  {
    var second := (t: int) => Time.SecondOf(t);
    forall i | 0 <= i < |filters| ensures TextRespects(second, Accepted(rows, filters[i])) {
      SecondsRespectText(Accepted(rows, filters[i]), second);
    }
    ShownAreNewestBy(rows, filters, limit, found, merged, blocks, second);
    forall o, s | o in rows && Wanted(filters, o) && o !in blocks && s in blocks
      ensures Time.SecondOf(o.createdAt) <= Time.SecondOf(s.createdAt)
    {
      assert second(o.createdAt) <= second(s.createdAt);
    }
  }

  lemma {:induction false} SecondsRespectText(rows: seq<Row>, second: int -> int)
    requires forall r :: r in rows ==> Time.InRange(r.createdAt)
    requires forall t :: second(t) == Time.SecondOf(t)
    ensures TextRespects(second, rows)
  {
    forall r, s | r in rows && s in rows && TextNewer(s, r) ensures second(r.createdAt) <= second(s.createdAt) {
      Time.DisplayOrdersSeconds(s.createdAt, r.createdAt);
    }
  }

  /** No two items of one second have trimmed fractions of which the earlier begins the later. */
  predicate FractionsSort(rows: seq<Row>) {
    forall r, s :: r in rows && s in rows ==> !Time.Missorts(r.createdAt, s.createdAt)
  }

  lemma {:induction false} SortedTextIsSortedTime(r: Row, s: Row)
    requires Time.InRange(r.createdAt) && Time.InRange(s.createdAt) && !Time.Missorts(s.createdAt, r.createdAt)
    ensures TextNewer(s, r) ==> r.createdAt <= s.createdAt
  {
    if s.createdAt < r.createdAt { Time.WhereDisplayOrderFails(s.createdAt, r.createdAt); }
  }

  lemma {:induction false} SortedFractionsRespectText(rows: seq<Row>, instant: int -> int)
    requires FractionsSort(rows) && forall r :: r in rows ==> Time.InRange(r.createdAt)
    requires forall t :: instant(t) == t
    ensures TextRespects(instant, rows)
  {
    forall r, s | r in rows && s in rows && TextNewer(s, r) ensures instant(r.createdAt) <= instant(s.createdAt) {
      SortedTextIsSortedTime(r, s);
    }
  }

  /** When stored text order is time order among the rows of each filter, the shown items are the newest. */
  lemma {:induction false} ShownAreNewest(rows: seq<Row>, filters: seq<Scope.Filter>, limit: nat, found: seq<seq<Row>>,
                                          merged: seq<Row>, blocks: seq<Row>)
    requires Table.UniqueIds(rows) && AllInRange(rows) && IsBuilt(rows, filters, limit, found, merged, blocks)
    requires forall i :: 0 <= i < |filters| ==> FractionsSort(Accepted(rows, filters[i]))
    ensures Newest(rows, filters, blocks)
  {
    var instant := (t: int) => t;
    forall i | 0 <= i < |filters| ensures TextRespects(instant, Accepted(rows, filters[i])) {
      SortedFractionsRespectText(Accepted(rows, filters[i]), instant);
    }
    ShownAreNewestBy(rows, filters, limit, found, merged, blocks, instant);
    forall o, s | o in rows && Wanted(filters, o) && o !in blocks && s in blocks ensures o.createdAt <= s.createdAt {
      assert instant(o.createdAt) <= instant(s.createdAt);
    }
  }

  /******* And when they are not *******/

  lemma {:induction false} Arrange(list: seq<Row>, newer: Newer) returns (sorted: seq<Row>)
    requires IsTotalPreorder(newer) && NoRepeats(list)
    ensures Sorted(sorted, newer) && NoRepeats(sorted) && |sorted| == |list| && forall r :: r in sorted <==> r in list
  {
    if list == [] {
      sorted := [];
    } else {
      var front, last := list[..|list| - 1], list[|list| - 1];
      DistinctParts(list);
      var rest := Arrange(front, newer);
      PlaceStaysSorted(rest, last, newer);
      PlaceMembers(rest, last, newer);
      PlaceStaysDistinct(rest, last, newer);
      sorted := Place(rest, last, newer);
      assert list == front + [last];
    }
  }

  /** Every result the queries may give, for every limit, shows the newest. */
  ghost predicate AlwaysNewest(rows: seq<Row>, filter: Scope.Filter) {
    forall limit, found, merged, blocks :: IsBuilt(rows, [filter], limit, found, merged, blocks) ==>
      Newest(rows, [filter], blocks)
  }

  /** A cut of the accepted rows, latest text first, is something the query may return. */
  lemma {:induction false} CutIsRecent(rows: seq<Row>, filter: Scope.Filter, sorted: seq<Row>, limit: nat)
    requires Sorted(sorted, TextNewer) && NoRepeats(sorted) && limit <= |sorted|
    requires forall r :: r in sorted <==> r in Accepted(rows, filter)
    ensures IsRecent(rows, filter, limit, sorted[..limit])
  {
    var found := sorted[..limit];
    assert forall r :: r in found ==> r in sorted;
    forall r | r in rows && Scope.SqlAccepts(filter, r.scope) && r !in found
      ensures forall s :: s in found ==> TextNewer(s, r)
    {
      CutOff(sorted, TextNewer, limit, r);
    }
  }

  /** From what the query returned, a built wake-up of exactly that. */
  lemma {:induction false} BuiltFrom(rows: seq<Row>, filter: Scope.Filter, limit: nat, found: seq<Row>)
    returns (merged: seq<Row>, blocks: seq<Row>)
    requires IsRecent(rows, filter, limit, found)
    ensures IsBuilt(rows, [filter], limit, [found], merged, blocks)
    ensures forall r :: r in blocks <==> r in found
  {
    assert IsTotalPreorder(TimeNewer);
    merged := Arrange(found, TimeNewer);
    blocks := Reverse(Cut(merged, limit));
    assert [found][0] == found && [filter][0] == filter;
    forall r ensures r in merged <==> exists i :: 0 <= i < |[found]| && r in [found][i] {
      assert r in found <==> r in [found][0];
    }
    forall r ensures r in blocks <==> r in found {
      BlocksAreTheCut(rows, [filter], limit, [found], merged, blocks, r);
    }
  }

  /** Two rows whose text missorts: some limit shows the older and omits the newer. */
  lemma {:induction false} MissortIsShown(rows: seq<Row>, filter: Scope.Filter, a: Row, b: Row)
    requires NoRepeats(rows) && AllInRange(rows) && a in Accepted(rows, filter) && b in Accepted(rows, filter)
    requires Time.Missorts(a.createdAt, b.createdAt)
    ensures !AlwaysNewest(rows, filter)
  {
    TextNewerIsTotal();
    var sorted := Arrange(Accepted(rows, filter), TextNewer);
    MissortedText(a, b);
    var limit := CutBetween(sorted, TextNewer, a, b);
    CutIsRecent(rows, filter, sorted, limit);
    OlderIsShown(rows, filter, limit, sorted[..limit], a, b);
  }

  /** A cut just after a row leaves out every row it is strictly newer than. */
  lemma {:induction false} CutBetween(sorted: seq<Row>, newer: Newer, a: Row, b: Row) returns (limit: nat)
    requires Sorted(sorted, newer) && NoRepeats(sorted) && a in sorted && b in sorted && a != b && !newer(b, a)
    ensures limit <= |sorted| && a in sorted[..limit] && b !in sorted[..limit]
  {
    var p :| 0 <= p < |sorted| && sorted[p] == a;
    limit := p + 1;
    assert sorted[..limit][p] == a;
    forall i | 0 <= i < limit ensures sorted[i] != b {
      if i < p { assert newer(sorted[i], a); }
    }
  }

  /** An answer of the query that holds the older row and not the newer. */
  lemma {:induction false} OlderIsShown(rows: seq<Row>, filter: Scope.Filter, limit: nat, found: seq<Row>, a: Row,
                                        b: Row)
    requires IsRecent(rows, filter, limit, found) && a in found && b !in found
    requires b in rows && Scope.SqlAccepts(filter, b.scope) && a.createdAt < b.createdAt
    ensures !AlwaysNewest(rows, filter)
  {
    var merged, blocks := BuiltFrom(rows, filter, limit, found);
    assert [filter][0] == filter && Wanted([filter], b);
    assert !Newest(rows, [filter], blocks);
  }

  lemma {:induction false} MissortedText(a: Row, b: Row)
    requires Time.InRange(a.createdAt) && Time.InRange(b.createdAt) && Time.Missorts(a.createdAt, b.createdAt)
    ensures TextNewer(a, b) && !TextNewer(b, a)
  {
    Time.WhereDisplayOrderFails(a.createdAt, b.createdAt);
    TextsDiffer(a.createdAt, b.createdAt);
    LessTotal(CreatedText(a), CreatedText(b));
  }

  /**
   For one filter over any table: all limits, and all answers the query may give, show the newest items
   exactly when no two items the filter accepts missort.
   */
  lemma {:induction false} WhenShownAreNewest(rows: seq<Row>, filter: Scope.Filter)
    requires Table.UniqueIds(rows) && AllInRange(rows)
    ensures AlwaysNewest(rows, filter) <==> FractionsSort(Accepted(rows, filter))
  {
    if FractionsSort(Accepted(rows, filter)) {
      forall limit, found, merged, blocks | IsBuilt(rows, [filter], limit, found, merged, blocks)
        ensures Newest(rows, [filter], blocks)
      {
        ShownAreNewest(rows, [filter], limit, found, merged, blocks);
      }
    } else {
      IdsMakeRowsDistinct(rows);
      var a, b :| a in Accepted(rows, filter) && b in Accepted(rows, filter) && Time.Missorts(a.createdAt, b.createdAt);
      MissortIsShown(rows, filter, a, b);
    }
  }

  /** That condition is needed: of two wanted items, a wake-up of one shows the later exactly when their text sorts. */
  lemma {:induction false} OneOfTwo(a: Row, b: Row, filter: Scope.Filter, found: seq<seq<Row>>, merged: seq<Row>,
                                    blocks: seq<Row>)
    requires a.id != b.id && AllInRange([a, b]) && a.createdAt < b.createdAt
    requires Scope.SqlAccepts(filter, a.scope) && Scope.SqlAccepts(filter, b.scope)
    requires IsBuilt([a, b], [filter], 1, found, merged, blocks)
    ensures blocks == [b] <==> FractionsSort([a, b])
    ensures blocks == [a] || blocks == [b]
  {
    assert IsRecent([a, b], [filter][0], 1, found[0]);
    TopOfTwo(a, b, filter, found[0]);
    SingleFound([a, b], filter, found, merged, blocks);
    PairSorts(a, b);
    Time.WhereDisplayOrderFails(a.createdAt, b.createdAt);
  }

  /** The one row the database returns of two. */
  lemma {:induction false} TopOfTwo(a: Row, b: Row, filter: Scope.Filter, found: seq<Row>)
    requires a != b && AllInRange([a, b]) && a.createdAt < b.createdAt
    requires Scope.SqlAccepts(filter, a.scope) && Scope.SqlAccepts(filter, b.scope)
    requires IsRecent([a, b], filter, 1, found)
    ensures found == if Less(CreatedText(a), CreatedText(b)) then [b] else [a]
  {
    var rows := [a, b];
    assert a in rows && b in rows;
    EmptyOrMember(found);
    TextsDiffer(a.createdAt, b.createdAt);
    LessTotal(CreatedText(a), CreatedText(b));
  }

  lemma {:induction false} PairSorts(a: Row, b: Row)
    requires a.createdAt < b.createdAt
    ensures FractionsSort([a, b]) <==> !Time.Missorts(a.createdAt, b.createdAt)
  {
    assert a in [a, b] && b in [a, b];
    assert forall r :: r in [a, b] ==> r == a || r == b;
  }

  lemma {:induction false} TextsDiffer(a: int, b: int)
    requires Time.InRange(a) && Time.InRange(b) && a != b
    ensures Time.Display(a) != Time.Display(b)
  {
    Time.ParseUndoesRendering(a);
    Time.ParseUndoesRendering(b);
  }

  lemma {:induction false} SingleFound(rows: seq<Row>, filter: Scope.Filter, found: seq<seq<Row>>, merged: seq<Row>,
                                       blocks: seq<Row>)
    requires IsBuilt(rows, [filter], 1, found, merged, blocks) && |found[0]| == 1
    ensures blocks == found[0]
  {
    assert IsRecent(rows, [filter][0], 1, found[0]);
    var r := found[0][0];
    assert found[0] == [r];
    forall x ensures x in merged <==> x == r {
      assert x in found[0] <==> x == r;
    }
    OnlyMember(merged, r);
  }

  lemma {:induction false} OnlyMember(list: seq<Row>, r: Row)
    requires NoRepeats(list) && forall x :: x in list <==> x == r
    ensures list == [r]
  {
    FewerElements(list, [r]);
    FewerElements([r], list);
    assert list[0] in list;
  }

  /******* Rendering *******/

  /** How an adapter prints a list of blocks. */
  type Adapter = seq<Row> -> string

  function HeaderFor(w: Wakeup, kept: nat): string {
    "# Singularmem wake-up \U{2014} " + Join(w.scopes, ", ") + " \U{2014} " + Decimal(w.total)
    + " items, showing last " + Decimal(kept) + "\n"
  }

  /** The header and the blocks from the `i`-th on; with no block left, the header alone. */
  function Page(w: Wakeup, adapter: Adapter, i: nat): string
    requires i <= |w.blocks|
  {
    HeaderFor(w, |w.blocks| - i) + (if i == |w.blocks| then "" else adapter(w.blocks[i..]))
  }

  predicate Fits(w: Wakeup, adapter: Adapter, maxBytes: nat, i: nat)
    requires i <= |w.blocks|
  {
    i == |w.blocks| || Bytes(Page(w, adapter, i)) <= maxBytes
  }

  /** `render`: the longest suffix of blocks whose page fits the budget; the header always stays. */
  method Render(w: Wakeup, adapter: Adapter, maxBytes: nat) returns (out: string, ghost dropped: nat)
    ensures dropped <= |w.blocks| && Fits(w, adapter, maxBytes, dropped) && out == Page(w, adapter, dropped)
    ensures forall i :: 0 <= i < dropped ==> !Fits(w, adapter, maxBytes, i)
  {
    var blocks := w.blocks;
    dropped := 0;
    while true
      invariant dropped <= |w.blocks| && blocks == w.blocks[dropped..]
      invariant forall i :: 0 <= i < dropped ==> !Fits(w, adapter, maxBytes, i)
      decreases |blocks|
    {
      var head := HeaderFor(w, |blocks|);
      if blocks == [] {
        assert head == head + "";
        return head, dropped;
      }
      out := head + adapter(blocks);
      if Bytes(out) <= maxBytes { return; }
      blocks := blocks[1..];
      dropped := dropped + 1;
    }
  }
}
