/** Walking supersedes links: back to the original, and forward to the latest revision. */
module Revisions {
  import opened Wrappers
  import opened Items
  import opened Table

  /******* Backwards *******/

  /** The rows from the one at `i` back to the original, newest first. */
  function HistoryFrom(rows: seq<Row>, i: nat): seq<Row>
    requires Valid(rows) && i < |rows|
  {
    if rows[i].supersedes.None? then [rows[i]]
    else
      EarlierIndex(rows, i);
      [rows[i]] + HistoryFrom(rows, IndexOfId(rows, 0, rows[i].supersedes.value).value)
  }

  lemma {:induction false} EarlierIndex(rows: seq<Row>, j: nat)
    requires Valid(rows) && j < |rows| && rows[j].supersedes.Some?
    ensures var k := IndexOfId(rows, 0, rows[j].supersedes.value); k.Some? && k.value < j
  {
    assert InsertedBefore(rows, j, rows[j].supersedes.value);
    var i :| 0 <= i < j && rows[i].id == rows[j].supersedes.value;
  }

  function History(rows: seq<Row>, id: ItemId): Result<seq<Row>, Error>
    requires Valid(rows)
  {
    match IndexOfId(rows, 0, id)
    case None => Err(NotFound(id))
    case Some(i) => Ok(HistoryFrom(rows, i))
  }

  /**
   The table as each read of a walk finds it: other processes commit between the reads, but rows only
   evolve.
   */
  type Tables = nat -> seq<Row>

  predicate GrowsAt(tables: Tables, n: nat) {
    Evolves(tables(n), tables(n + 1))
  }

  ghost predicate Growing(tables: Tables) {
    (forall n: nat :: Valid(tables(n))) && forall n: nat :: GrowsAt(tables, n)
  }

  lemma {:induction false} GrowsFrom(tables: Tables, m: nat, n: nat)
    requires Growing(tables) && m <= n
    ensures Evolves(tables(m), tables(n))
    decreases n
  {
    if m < n {
      GrowsFrom(tables, m, n - 1);
      assert GrowsAt(tables, n - 1);
      EvolvesTransitive(tables(m), tables(n - 1), tables(n));
    }
  }

  /** A row stays where it is. */
  lemma {:induction false} PositionsStay(before: seq<Row>, after: seq<Row>, i: nat)
    requires Valid(after) && Evolves(before, after) && i < |before|
    ensures IndexOfId(after, 0, before[i].id) == Some(i) && SameRow(before[i], after[i])
  {
    assert SameRow(before[i], after[i]);
    var k := IndexOfId(after, 0, before[i].id).value;
    assert after[k].id == after[i].id;
  }

  /** Read `k` of a walk found the history's `k`-th row, as it was by then. */
  predicate ReadAcross(tables: Tables, history: seq<Row>, read: seq<Row>) {
    |read| <= |history| && forall k :: 0 <= k < |read| ==> SameRow(history[k], read[k]) && read[k] in tables(k)
  }

  /** So far a walk has read a front part of the history, and stands at position `at` of the first table. */
  ghost predicate OnTrack(tables: Tables, whole: seq<Row>, read: seq<Row>, at: nat)
    requires Growing(tables)
  {
    && at < |tables(0)| && read != [] && SameRow(tables(0)[at], read[|read| - 1])
    && ReadAcross(tables, whole, read) && whole[|read| - 1..] == HistoryFrom(tables(0), at)
  }

  lemma {:induction false} StepBack(tables: Tables, whole: seq<Row>, read: seq<Row>, at: nat)
    returns (earlier: nat, row: Row)
    requires Growing(tables) && OnTrack(tables, whole, read, at) && tables(0)[at].supersedes.Some?
    ensures earlier < at && OnTrack(tables, whole, read + [row], earlier)
    ensures var k := IndexOfId(tables(|read|), 0, tables(0)[at].supersedes.value);
            k.Some? && tables(|read|)[k.value] == row
  {
    var rows := tables(0);
    EarlierIndex(rows, at);
    earlier := IndexOfId(rows, 0, rows[at].supersedes.value).value;
    GrowsFrom(tables, 0, |read|);
    PositionsStay(rows, tables(|read|), earlier);
    row := tables(|read|)[earlier];
    assert whole[|read| - 1..][1..] == HistoryFrom(rows, earlier);
    assert whole[|read|..] == HistoryFrom(rows, earlier);
    assert whole[|read|] == rows[earlier];
  }

  /**
   `revision_history`, one read for each item. Whatever other processes commit in between, it ends, meets
   no missing item, and gives the history that the first read's table had.
   */
  method RevisionHistory(tables: Tables, id: ItemId) returns (r: Result<seq<Row>, Error>)
    requires Growing(tables)
    ensures History(tables(0), id).Err? ==> r == Err(NotFound(id))
    ensures History(tables(0), id).Ok? ==>
              r.Ok? && |r.value| == |History(tables(0), id).value|
              && ReadAcross(tables, History(tables(0), id).value, r.value)
  {
    var found := IndexOfId(tables(0), 0, id);
    if found.None? { return Err(NotFound(id)); }
    var cursor := tables(0)[found.value];
    var history := [cursor];
    ghost var at: nat, whole := found.value, HistoryFrom(tables(0), found.value);
    while cursor.supersedes.Some?
      invariant OnTrack(tables, whole, history, at) && history[|history| - 1] == cursor
      decreases at
    {
      ghost var earlier, row := StepBack(tables, whole, history, at);
      cursor := tables(|history|)[IndexOfId(tables(|history|), 0, cursor.supersedes.value).value];
      history := history + [cursor];
      at := earlier;
    }
    return Ok(history);
  }

  /******* Forwards *******/

  /** Ids of the rows from `i` on that supersede `id`. */
  function SuccessorsFrom(rows: seq<Row>, i: nat, id: ItemId): seq<ItemId>
    requires i <= |rows|
    decreases |rows| - i
  {
    if i == |rows| then []
    else (if rows[i].supersedes == Some(id) then [rows[i].id] else []) + SuccessorsFrom(rows, i + 1, id)
  }

  function Successors(rows: seq<Row>, id: ItemId): seq<ItemId> {
    SuccessorsFrom(rows, 0, id)
  }

  lemma {:induction false} SuccessorsMeaning(rows: seq<Row>, i: nat, id: ItemId)
    requires i <= |rows|
    ensures forall x :: x in SuccessorsFrom(rows, i, id) <==>
              exists j :: i <= j < |rows| && rows[j].supersedes == Some(id) && rows[j].id == x
    decreases |rows| - i
  {
    if i < |rows| { SuccessorsMeaning(rows, i + 1, id); }
  }

  /** A successor comes later in the table than what it supersedes. */
  lemma {:induction false} SuccessorIsLater(rows: seq<Row>, i: nat, next: ItemId)
    requires Valid(rows) && i < |rows| && next in Successors(rows, rows[i].id)
    ensures var k := IndexOfId(rows, 0, next); k.Some? && i < k.value && rows[k.value].supersedes == Some(rows[i].id)
  {
    SuccessorsMeaning(rows, 0, rows[i].id);
    var j :| 0 <= j < |rows| && rows[j].supersedes == Some(rows[i].id) && rows[j].id == next;
    EarlierIndex(rows, j);
    var k := IndexOfId(rows, 0, next).value;
    assert rows[k].id == rows[j].id;
  }

  function LatestFrom(rows: seq<Row>, i: nat): Result<Row, Error>
    requires Valid(rows) && i < |rows|
    decreases |rows| - i
  {
    var next := Successors(rows, rows[i].id);
    if next == [] then Ok(rows[i])
    else if |next| > 1 then Err(AmbiguousLatest(next))
    else
      SuccessorIsLater(rows, i, next[0]);
      LatestFrom(rows, IndexOfId(rows, 0, next[0]).value)
  }

  function Latest(rows: seq<Row>, id: ItemId): Result<Row, Error>
    requires Valid(rows)
  {
    match IndexOfId(rows, 0, id)
    case None => Err(NotFound(id))
    case Some(i) => LatestFrom(rows, i)
  }

  /** From read `settled` on nobody else commits. */
  ghost predicate SettledBy(tables: Tables, settled: nat) {
    forall n: nat :: n >= settled ==> tables(n) == tables(settled)
  }

  lemma {:induction false} NeverLonger(tables: Tables, settled: nat, n: nat)
    requires Growing(tables) && SettledBy(tables, settled)
    ensures |tables(n)| <= |tables(settled)|
  {
    if n < settled { GrowsFrom(tables, n, settled); }
  }

  /** The row at `i` and its one successor `k`, at the next read and any later one. */
  lemma {:induction false} StepAhead(tables: Tables, n: nat, i: nat, m: nat)
    requires Growing(tables) && i < |tables(n)| && n <= m && |Successors(tables(n), tables(n)[i].id)| == 1
    ensures var next := Successors(tables(n), tables(n)[i].id)[0];
            var k := IndexOfId(tables(n), 0, next);
            && k.Some? && i < k.value < |tables(m)| && tables(m)[k.value].id == next
            && IndexOfId(tables(m), 0, next) == k && IndexOfId(tables(m), 0, tables(n)[i].id) == Some(i)
            && tables(m)[k.value].supersedes == Some(tables(m)[i].id) && tables(m)[i].id == tables(n)[i].id
  {
    var next := Successors(tables(n), tables(n)[i].id)[0];
    SuccessorIsLater(tables(n), i, next);
    GrowsFrom(tables, n, m);
    PositionsStay(tables(n), tables(m), i);
    PositionsStay(tables(n), tables(m), IndexOfId(tables(n), 0, next).value);
  }

  /** The forward walk from read `n` on, at the item in position `i`. */
  function LatestAcross(tables: Tables, ghost settled: nat, n: nat, i: nat): Result<Row, Error>
    requires Growing(tables) && SettledBy(tables, settled) && i < |tables(n)|
    decreases |tables(settled)| - i
  {
    var next := Successors(tables(n), tables(n)[i].id);
    if next == [] then
      assert GrowsAt(tables, n);
      Ok(tables(n + 1)[i])
    else if |next| > 1 then Err(AmbiguousLatest(next))
    else
      StepAhead(tables, n, i, n + 1);
      NeverLonger(tables, settled, n + 1);
      LatestAcross(tables, settled, n + 1, IndexOfId(tables(n + 1), 0, next[0]).value)
  }

  /**
   `latest_revision`, one query for each step: other processes may commit between them, and as long as
   they stop at some point the loop ends, because every successor was inserted later.
   */
  method LatestRevision(tables: Tables, ghost settled: nat, id: ItemId) returns (r: Result<Row, Error>)
    requires Growing(tables) && SettledBy(tables, settled)
    ensures !HasId(tables(0), id) ==> r == Err(NotFound(id))
    ensures HasId(tables(0), id) ==>
              HasId(tables(1), id) && r == LatestAcross(tables, settled, 1, IndexOfId(tables(1), 0, id).value)
  {
    var found := IndexOfId(tables(0), 0, id);
    if found.None? { return Err(NotFound(id)); }
    assert GrowsAt(tables, 0);
    PositionsStay(tables(0), tables(1), found.value);
    var current, n := id, 1;
    ghost var i := found.value;
    while true
      invariant n > 0 && i < |tables(n)| && tables(n)[i].id == current
      invariant LatestAcross(tables, settled, n, i) == LatestAcross(tables, settled, 1, found.value)
      decreases |tables(settled)| - i
    {
      NeverLonger(tables, settled, n);
      var next := Successors(tables(n), current);
      if next == [] {
        assert GrowsAt(tables, n);
        PositionsStay(tables(n), tables(n + 1), i);
        return Ok(tables(n + 1)[IndexOfId(tables(n + 1), 0, current).value]);
      } else if |next| == 1 {
        StepAhead(tables, n, i, n + 1);
        i := IndexOfId(tables(n + 1), 0, next[0]).value;
        current, n := next[0], n + 1;
        NeverLonger(tables, settled, n);
      } else {
        return Err(AmbiguousLatest(next));
      }
    }
  }

  /******* What the two walks have to do with each other *******/

  /** A history never repeats an item, goes strictly back in insertion order, and ends at an original. */
  lemma {:induction false} HistoryDescends(rows: seq<Row>, i: nat)
    requires Valid(rows) && i < |rows|
    ensures var h := HistoryFrom(rows, i);
            && h[0] == rows[i] && h[|h| - 1].supersedes == None
            && (forall k :: 0 <= k < |h| ==> HasId(rows, h[k].id) && IndexOfId(rows, 0, h[k].id).value <= i)
            && (forall k :: 0 <= k < |h| - 1 ==> h[k].supersedes == Some(h[k + 1].id))
            && (forall k, m :: 0 <= k < m < |h| ==> h[k].id != h[m].id)
  {
    if rows[i].supersedes.Some? {
      EarlierIndex(rows, i);
      var previous := IndexOfId(rows, 0, rows[i].supersedes.value).value;
      HistoryDescends(rows, previous);
      var h, rest := HistoryFrom(rows, i), HistoryFrom(rows, previous);
      assert forall k :: 1 <= k < |h| ==> h[k] == rest[k - 1];
      assert rows[IndexOfId(rows, 0, rows[i].id).value].id == rows[i].id;
    } else {
      assert rows[IndexOfId(rows, 0, rows[i].id).value].id == rows[i].id;
    }
  }

  predicate IsSuffix<T(==)>(suffix: seq<T>, whole: seq<T>) {
    |suffix| <= |whole| && whole[|whole| - |suffix|..] == suffix
  }

  /** Going forward never leaves the history behind. */
  lemma {:induction false} LatestExtendsHistory(rows: seq<Row>, i: nat)
    requires Valid(rows) && i < |rows| && LatestFrom(rows, i).Ok?
    ensures var head := LatestFrom(rows, i).value;
            && HasId(rows, head.id) && rows[IndexOfId(rows, 0, head.id).value] == head
            && Successors(rows, head.id) == []
            && IsSuffix(HistoryFrom(rows, i), HistoryFrom(rows, IndexOfId(rows, 0, head.id).value))
    decreases |rows| - i
  {
    var next := Successors(rows, rows[i].id);
    assert rows[IndexOfId(rows, 0, rows[i].id).value].id == rows[i].id;
    if next != [] {
      SuccessorIsLater(rows, i, next[0]);
      var k := IndexOfId(rows, 0, next[0]).value;
      LatestExtendsHistory(rows, k);
      assert IndexOfId(rows, 0, rows[k].supersedes.value).value == i;
      var whole := HistoryFrom(rows, IndexOfId(rows, 0, LatestFrom(rows, i).value.id).value);
      assert HistoryFrom(rows, k)[1..] == HistoryFrom(rows, i);
      SuffixOfSuffix(HistoryFrom(rows, i), HistoryFrom(rows, k), whole);
    }
  }

  lemma {:induction false} SuffixOfSuffix<T>(a: seq<T>, b: seq<T>, c: seq<T>)
    requires b != [] && b[1..] == a && IsSuffix(b, c)
    ensures IsSuffix(a, c)
  {
    assert c[|c| - |a|..] == c[|c| - |b|..][1..];
  }

  lemma {:induction false} NoSuccessors(rows: seq<Row>, id: ItemId)
    requires Successors(rows, id) == []
    ensures forall j :: 0 <= j < |rows| ==> rows[j].supersedes != Some(id)
  {
    SuccessorsMeaning(rows, 0, id);
    forall j | 0 <= j < |rows| ensures rows[j].supersedes != Some(id) {
      assert rows[j].id !in Successors(rows, id);
    }
  }

  lemma {:induction false} SuffixStarts<T>(suffix: seq<T>, whole: seq<T>)
    requires IsSuffix(suffix, whole) && suffix != []
    ensures whole[|whole| - |suffix|] == suffix[0]
  {
  }

  /**
   When a latest revision is found, nothing supersedes it, the starting item is in its history, and
   the starting item's own history is the tail of it.
   */
  lemma {:induction false} LatestMeaning(rows: seq<Row>, id: ItemId)
    requires Valid(rows) && Latest(rows, id).Ok?
    ensures var head := Latest(rows, id).value;
            && (forall j :: 0 <= j < |rows| ==> rows[j].supersedes != Some(head.id))
            && History(rows, head.id).Ok? && History(rows, id).Ok?
            && History(rows, head.id).value[0] == head
            && IsSuffix(History(rows, id).value, History(rows, head.id).value)
            && exists k :: 0 <= k < |History(rows, head.id).value| && History(rows, head.id).value[k].id == id
  {
    var i := IndexOfId(rows, 0, id).value;
    LatestExtendsHistory(rows, i);
    var head := Latest(rows, id).value;
    NoSuccessors(rows, head.id);
    SuffixStarts(History(rows, id).value, History(rows, head.id).value);
  }

  /** The items the forward walk meets, the starting one first. */
  function Walk(rows: seq<Row>, i: nat): seq<Row>
    requires Valid(rows) && i < |rows|
    decreases |rows| - i
  {
    var next := Successors(rows, rows[i].id);
    if |next| != 1 then [rows[i]]
    else
      SuccessorIsLater(rows, i, next[0]);
      [rows[i]] + Walk(rows, IndexOfId(rows, 0, next[0]).value)
  }

  predicate Forks(rows: seq<Row>, walk: seq<Row>) {
    exists k :: 0 <= k < |walk| && |Successors(rows, walk[k].id)| >= 2
  }

  lemma {:induction false} ForksStep(rows: seq<Row>, first: Row, rest: seq<Row>)
    ensures Forks(rows, [first] + rest) <==> |Successors(rows, first.id)| >= 2 || Forks(rows, rest)
  {
    var walk := [first] + rest;
    assert walk[0] == first;
    if k :| 0 <= k < |rest| && |Successors(rows, rest[k].id)| >= 2 { assert walk[k + 1] == rest[k]; }
    assert forall k :: 1 <= k < |walk| ==> walk[k] == rest[k - 1];
  }

  /** The latest revision is ambiguous exactly when the walk meets an item with two or more successors. */
  lemma {:induction false} AmbiguityMeaning(rows: seq<Row>, i: nat)
    requires Valid(rows) && i < |rows|
    ensures LatestFrom(rows, i).Err? <==> Forks(rows, Walk(rows, i))
    ensures LatestFrom(rows, i).Err? ==> LatestFrom(rows, i).error.AmbiguousLatest?
    decreases |rows| - i
  {
    var next := Successors(rows, rows[i].id);
    if |next| == 1 {
      SuccessorIsLater(rows, i, next[0]);
      var k := IndexOfId(rows, 0, next[0]).value;
      AmbiguityMeaning(rows, k);
      ForksStep(rows, rows[i], Walk(rows, k));
    } else {
      ForksStep(rows, rows[i], []);
      assert [rows[i]] + [] == [rows[i]];
    }
  }

  /** Neither walk finds an item that is not there, and nothing else is reported as not found. */
  lemma {:induction false} UnknownItems(rows: seq<Row>, id: ItemId, other: ItemId)
    requires Valid(rows)
    ensures History(rows, id) == Err(NotFound(other)) <==> other == id && forall row :: row in rows ==> row.id != id
    ensures History(rows, id).Err? ==> History(rows, id).error.NotFound?
    ensures Latest(rows, id) == Err(NotFound(other)) <==> other == id && forall row :: row in rows ==> row.id != id
  {
    match IndexOfId(rows, 0, id)
    case None =>
    case Some(i) =>
      AmbiguityMeaning(rows, i);
      assert rows[i] in rows;
  }

  /******* The forward walk while others commit *******/

  /** At read `m`, the item in position `i` is in the history of the one in position `k`. */
  ghost predicate LeadsTo(tables: Tables, m: nat, i: nat, k: nat)
    requires Growing(tables)
  {
    && i < |tables(m)| && k < |tables(m)|
    && IsSuffix(HistoryFrom(tables(m), i), HistoryFrom(tables(m), k))
  }

  /** What a forward walk may return: a head, or a fork, that it met at read `m` in position `k`. */
  ghost predicate MetAt(tables: Tables, m: nat, k: nat, r: Result<Row, Error>)
    requires Growing(tables) && k < |tables(m)|
  {
    var next := Successors(tables(m), tables(m)[k].id);
    match r
    case Ok(head) => next == [] && SameRow(tables(m)[k], head)
    case Err(e) => |next| >= 2 && e == AmbiguousLatest(next)
  }

  lemma {:induction false} LeadsFurther(tables: Tables, n: nat, i: nat, j: nat, m: nat, k: nat)
    requires Growing(tables) && i < |tables(n)| && n <= m && |Successors(tables(n), tables(n)[i].id)| == 1
    requires IndexOfId(tables(n), 0, Successors(tables(n), tables(n)[i].id)[0]) == Some(j)
    requires LeadsTo(tables, m, j, k)
    ensures LeadsTo(tables, m, i, k)
  {
    StepAhead(tables, n, i, m);
    var whole := HistoryFrom(tables(m), k);
    assert HistoryFrom(tables(m), j)[1..] == HistoryFrom(tables(m), i);
    SuffixOfSuffix(HistoryFrom(tables(m), i), HistoryFrom(tables(m), j), whole);
  }

  /**
   Whatever is committed meanwhile: the item a forward walk ends at, the latest one or the one that forks,
   had that standing at some read, and the starting item was in its history then.
   */
  lemma {:induction false} LatestAcrossMeaning(tables: Tables, settled: nat, n: nat, i: nat)
    requires Growing(tables) && SettledBy(tables, settled) && i < |tables(n)|
    ensures exists m: nat, k: nat :: m >= n && LeadsTo(tables, m, i, k)
                                  && MetAt(tables, m, k, LatestAcross(tables, settled, n, i))
    decreases |tables(settled)| - i
  {
    var next := Successors(tables(n), tables(n)[i].id);
    if |next| == 1 {
      StepAhead(tables, n, i, n + 1);
      NeverLonger(tables, settled, n + 1);
      var j := IndexOfId(tables(n), 0, next[0]).value;
      LatestAcrossMeaning(tables, settled, n + 1, j);
      var m: nat, k: nat :| m >= n + 1 && LeadsTo(tables, m, j, k)
                            && MetAt(tables, m, k, LatestAcross(tables, settled, n + 1, j));
      LeadsFurther(tables, n, i, j, m, k);
      assert LatestAcross(tables, settled, n, i) == LatestAcross(tables, settled, n + 1, j);
    } else {
      assert GrowsAt(tables, n);
      assert LeadsTo(tables, n, i, i);
      assert MetAt(tables, n, i, LatestAcross(tables, settled, n, i));
    }
  }

  /** When nobody commits meanwhile the walk is the one over the table it started on. */
  lemma {:induction false} LatestAlone(tables: Tables, settled: nat, n: nat, i: nat)
    requires Growing(tables) && (forall m :: tables(m) == tables(0)) && i < |tables(n)|
    ensures LatestAcross(tables, settled, n, i) == LatestFrom(tables(0), i)
    decreases |tables(settled)| - i
  {
    var next := Successors(tables(0), tables(0)[i].id);
    if |next| == 1 {
      SuccessorIsLater(tables(0), i, next[0]);
      LatestAlone(tables, settled, n + 1, IndexOfId(tables(0), 0, next[0]).value);
    }
  }
}
