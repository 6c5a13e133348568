/** Reciprocal rank fusion of a lexical and a semantic ranking, with scores as real numbers. */
module Fusion {
  import opened Wrappers
  import opened Items
  import Scope

  datatype Scored = Scored(id: ItemId, score: real)

  /******* Scores *******/

  /** What rank `rank`, counted from 1, is worth. */
  function Reciprocal(k: nat, rank: nat): real
    requires rank > 0
  {
    1.0 / (k + rank) as real
  }

  /** What a list adds to an id's score: every occurrence counts. */
  function Contribution(list: seq<ItemId>, k: nat, id: ItemId): real {
    if list == [] then 0.0
    else
      Contribution(list[..|list| - 1], k, id)
      + (if list[|list| - 1] == id then Reciprocal(k, |list|) else 0.0)
  }

  function Score(lexical: seq<ItemId>, semantic: seq<ItemId>, k: nat, id: ItemId): real {
    Contribution(lexical, k, id) + Contribution(semantic, k, id)
  }

  /** Higher scores first; between equal scores, lower ids first. */
  predicate Precedes(a: Scored, b: Scored) {
    a.score > b.score || (a.score == b.score && a.id < b.id)
  }

  predicate Ordered(list: seq<Scored>) {
    forall i, j :: 0 <= i < j < |list| ==> Precedes(list[i], list[j])
  }

  /** Each id of either list once, with its score, in order. */
  ghost predicate IsFusion(lexical: seq<ItemId>, semantic: seq<ItemId>, k: nat, fused: seq<Scored>) {
    && Ordered(fused)
    && forall s :: s in fused <==> (s.id in lexical || s.id in semantic) && s.score == Score(lexical, semantic, k, s.id)
  }

  /******* The algorithm *******/

  /** One of the two scoring loops. */
  method AddRanks(scores: map<ItemId, real>, list: seq<ItemId>, k: nat) returns (added: map<ItemId, real>)
    ensures forall id :: id in added <==> id in scores || id in list
    ensures forall id :: id in added ==>
              added[id] == (if id in scores then scores[id] else 0.0) + Contribution(list, k, id)
  {
    added := scores;
    var rank0 := 0;
    assert list[..0] == [];
    while rank0 < |list|
      invariant 0 <= rank0 <= |list|
      invariant forall id :: id in added <==> id in scores || id in list[..rank0]
      invariant forall id :: id in added ==>
          added[id] == (if id in scores then scores[id] else 0.0) + Contribution(list[..rank0], k, id)
      invariant forall id :: id !in added ==> Contribution(list[..rank0], k, id) == 0.0
    {
      var id := list[rank0];
      assert list[..rank0 + 1] == list[..rank0] + [id];
      assert list[..rank0 + 1][..rank0] == list[..rank0];
      added := added[id := (if id in added then added[id] else 0.0) + 1.0 / (k + (rank0 + 1)) as real];
      rank0 := rank0 + 1;
    }
    assert list[..|list|] == list;
  }

  /** The entries of the score map, in whatever order the map yields them. */
  method Entries(scores: map<ItemId, real>) returns (entries: seq<Scored>)
    ensures forall i, j :: 0 <= i < j < |entries| ==> entries[i].id != entries[j].id
    ensures forall s :: s in entries <==> s.id in scores && scores[s.id] == s.score
  {
    entries := [];
    var left := scores.Keys;
    while left != {}
      invariant left <= scores.Keys
      invariant forall i, j :: 0 <= i < j < |entries| ==> entries[i].id != entries[j].id
      invariant forall s :: s in entries <==> s.id in scores && s.id !in left && scores[s.id] == s.score
      decreases |left|
    {
      var id :| id in left;
      entries := entries + [Scored(id, scores[id])];
      left := left - {id};
    }
  }

  /** An entry put in its place in an ordered list. */
  function Place(ordered: seq<Scored>, s: Scored): seq<Scored> {
    if ordered == [] then [s]
    else if Precedes(ordered[0], s) then [ordered[0]] + Place(ordered[1..], s)
    else [s] + ordered
  }

  lemma {:induction false} PlaceMeaning(ordered: seq<Scored>, s: Scored)
    requires Ordered(ordered) && forall x :: x in ordered ==> x.id != s.id
    ensures Ordered(Place(ordered, s))
    ensures forall x :: x in Place(ordered, s) <==> x in ordered || x == s
  {
    if ordered != [] {
      var first, rest := ordered[0], ordered[1..];
      assert ordered == [first] + rest;
      if Precedes(first, s) {
        PlaceMeaning(rest, s);
        var placed := Place(rest, s);
        forall j | 0 <= j < |placed| ensures Precedes(first, placed[j]) {
          assert placed[j] in placed;
          if placed[j] in rest {
            var i :| 0 <= i < |rest| && rest[i] == placed[j];
            assert ordered[i + 1] == rest[i];
          }
        }
      } else {
        assert first in ordered;
        forall j | 0 <= j < |ordered| ensures Precedes(s, ordered[j]) {
          assert j > 0 ==> Precedes(ordered[0], ordered[j]);
        }
      }
    }
  }

  /** `sort_by` on entries with distinct ids. */
  method SortByScore(entries: seq<Scored>) returns (sorted: seq<Scored>)
    requires forall i, j :: 0 <= i < j < |entries| ==> entries[i].id != entries[j].id
    ensures Ordered(sorted) && forall s :: s in sorted <==> s in entries
  {
    sorted := [];
    var i := 0;
    while i < |entries|
      invariant 0 <= i <= |entries|
      invariant Ordered(sorted) && forall s :: s in sorted <==> s in entries[..i]
    {
      PlaceMeaning(sorted, entries[i]);
      sorted := Place(sorted, entries[i]);
      i := i + 1;
    }
  }

  method RrfFuse(lexical: seq<ItemId>, semantic: seq<ItemId>, k: nat) returns (fused: seq<Scored>)
    ensures IsFusion(lexical, semantic, k, fused)
  {
    var scores := AddRanks(map[], lexical, k);
    scores := AddRanks(scores, semantic, k);
    AbsentAddsNothing(lexical, k);
    var entries := Entries(scores);
    fused := SortByScore(entries);
  }

  lemma {:induction false} AbsentAddsNothing(list: seq<ItemId>, k: nat)
    ensures forall id :: id !in list ==> Contribution(list, k, id) == 0.0
  {
    if list != [] { AbsentAddsNothing(list[..|list| - 1], k); }
  }

  /******* The result is determined *******/

  lemma {:induction false} HeadFirst(list: seq<Scored>, x: Scored)
    requires Ordered(list) && x in list
    ensures x == list[0] || Precedes(list[0], x)
  {
    var i :| 0 <= i < |list| && list[i] == x;
  }

  lemma {:induction false} HeadIsMember(list: seq<Scored>)
    ensures list != [] ==> list[0] in list
  {
  }

  lemma {:induction false} TailMembers(list: seq<Scored>)
    requires Ordered(list) && list != []
    ensures forall s :: s in list[1..] <==> s in list && s != list[0]
  {
    var tail := list[1..];
    forall s | s in tail ensures s != list[0] {
      var i :| 0 <= i < |tail| && tail[i] == s;
      assert Precedes(list[0], list[i + 1]);
    }
    assert list == [list[0]] + tail;
  }

  lemma {:induction false} SameElementsSameOrder(a: seq<Scored>, b: seq<Scored>)
    requires Ordered(a) && Ordered(b) && forall s :: s in a <==> s in b
    ensures a == b
  {
    HeadIsMember(a);
    HeadIsMember(b);
    if a != [] {
      HeadFirst(a, b[0]);
      HeadFirst(b, a[0]);
      TailMembers(a);
      TailMembers(b);
      SameElementsSameOrder(a[1..], b[1..]);
    }
  }

  /**
   There is one fusion of two lists: neither the order in which the score map is read out nor which
   list is called lexical makes a difference.
   */
  lemma {:induction false} FusionIsUnique(lexical: seq<ItemId>, semantic: seq<ItemId>, k: nat, a: seq<Scored>,
                                          b: seq<Scored>)
    requires IsFusion(lexical, semantic, k, a)
    requires IsFusion(lexical, semantic, k, b) || IsFusion(semantic, lexical, k, b)
    ensures a == b
    ensures forall i, j :: 0 <= i < j < |a| ==> a[i].id != a[j].id
  {
    SameElementsSameOrder(a, b);
    forall i, j | 0 <= i < j < |a| ensures a[i].id != a[j].id {
      assert a[i] in a && a[j] in a && Precedes(a[i], a[j]);
    }
  }

  /******* Lists without repeats *******/

  predicate RepeatFree(list: seq<ItemId>) {
    forall i, j :: 0 <= i < j < |list| ==> list[i] != list[j]
  }

  /** The rank map: the last position of an id, counted from 1. */
  function RankIn(list: seq<ItemId>, id: ItemId): (rank: Option<nat>)
    ensures rank.Some? ==> 0 < rank.value <= |list| && list[rank.value - 1] == id
    ensures rank.None? <==> id !in list
  {
    if list == [] then None
    else if list[|list| - 1] == id then Some(|list|)
    else RankIn(list[..|list| - 1], id)
  }

  function Worth(k: nat, rank: Option<nat>): real
    requires rank.Some? ==> rank.value > 0
  {
    match rank
    case None => 0.0
    case Some(r) => Reciprocal(k, r)
  }

  lemma {:induction false} ContributionIsWorth(list: seq<ItemId>, k: nat, id: ItemId)
    requires RepeatFree(list)
    ensures Contribution(list, k, id) == Worth(k, RankIn(list, id))
  {
    if list != [] {
      var front := list[..|list| - 1];
      ContributionIsWorth(front, k, id);
      if list[|list| - 1] == id {
        assert id !in front;
      }
    }
  }

  lemma {:induction false} ReciprocalFalls(k: nat, better: nat, worse: nat)
    requires 0 < better < worse
    ensures Reciprocal(k, better) > Reciprocal(k, worse) > 0.0
  {
    var a, b := (k + better) as real, (k + worse) as real;
    assert (1.0 / a) * a == 1.0 && (1.0 / b) * b == 1.0;
    assert 1.0 / a - 1.0 / b == (b - a) / (a * b);
  }

  /** `a` precedes `b` in a list; an absent id comes after all others. */
  predicate Ahead(list: seq<ItemId>, a: ItemId, b: ItemId) {
    RankIn(list, a).Some? && (RankIn(list, b).None? || RankIn(list, a).value < RankIn(list, b).value)
  }

  predicate NotBehind(list: seq<ItemId>, a: ItemId, b: ItemId) {
    Ahead(list, a, b) || (a !in list && b !in list)
  }

  lemma {:induction false} AheadIsWorthMore(list: seq<ItemId>, k: nat, a: ItemId, b: ItemId)
    requires RepeatFree(list) && NotBehind(list, a, b)
    ensures Contribution(list, k, a) >= Contribution(list, k, b)
    ensures Ahead(list, a, b) ==> Contribution(list, k, a) > Contribution(list, k, b)
  {
    ContributionIsWorth(list, k, a);
    ContributionIsWorth(list, k, b);
    if Ahead(list, a, b) && RankIn(list, b).Some? {
      ReciprocalFalls(k, RankIn(list, a).value, RankIn(list, b).value);
    } else if Ahead(list, a, b) {
      ReciprocalFalls(k, RankIn(list, a).value, RankIn(list, a).value + 1);
    }
  }

  /** An id ahead of another in one list, and not behind it in the other, is ahead in the fusion. */
  lemma {:induction false} FusionRespectsAgreement(lexical: seq<ItemId>, semantic: seq<ItemId>, k: nat,
                                                   fused: seq<Scored>, i: nat, j: nat)
    requires RepeatFree(lexical) && RepeatFree(semantic) && IsFusion(lexical, semantic, k, fused)
    requires i < |fused| && j < |fused|
    requires NotBehind(lexical, fused[i].id, fused[j].id) && NotBehind(semantic, fused[i].id, fused[j].id)
    requires Ahead(lexical, fused[i].id, fused[j].id) || Ahead(semantic, fused[i].id, fused[j].id)
    ensures i < j
  {
    AheadIsWorthMore(lexical, k, fused[i].id, fused[j].id);
    AheadIsWorthMore(semantic, k, fused[i].id, fused[j].id);
    assert fused[i] in fused && fused[j] in fused;
  }

  lemma {:induction false} ContributionBound(list: seq<ItemId>, k: nat, id: ItemId)
    requires RepeatFree(list)
    ensures 0.0 <= Contribution(list, k, id) <= Reciprocal(k, 1)
    ensures Contribution(list, k, id) == Reciprocal(k, 1) <==> list != [] && list[0] == id
  {
    ContributionIsWorth(list, k, id);
    ReciprocalFalls(k, 1, 2);
    match RankIn(list, id)
    case None =>
    case Some(rank) =>
      if rank > 1 {
        ReciprocalFalls(k, 1, rank);
        assert list[0] != list[rank - 1];
      }
  }

  /** No score exceeds `2 / (k + 1)`, and only an id that is first in both lists reaches it. */
  lemma {:induction false} ScoreBound(lexical: seq<ItemId>, semantic: seq<ItemId>, k: nat, id: ItemId)
    requires RepeatFree(lexical) && RepeatFree(semantic)
    ensures 0.0 <= Score(lexical, semantic, k, id) <= 2.0 / (k + 1) as real
    ensures Score(lexical, semantic, k, id) == 2.0 / (k + 1) as real <==>
            lexical != [] && semantic != [] && lexical[0] == semantic[0] == id
  {
    ContributionBound(lexical, k, id);
    ContributionBound(semantic, k, id);
    assert 2.0 / (k + 1) as real == Reciprocal(k, 1) + Reciprocal(k, 1);
  }

  /******* Hybrid search *******/

  datatype LexicalHit = LexicalHit(id: ItemId, snippet: Option<string>)

  datatype HybridHit = HybridHit(
    id: ItemId,
    score: real,
    lexicalRank: Option<nat>,
    semanticRank: Option<nat>,
    snippet: Option<string>)

  datatype Error = ScopeLookupMissing | RankerFailed

  /** The scope of each item, as the store tells it. */
  type Lookup = ItemId -> Option<string>

  datatype Options = Options(limit: nat, fetchMultiplier: nat, rrfK: nat, scope: Option<Scope.Filter>)

  /** The rankers: what each returns for a number of candidates; they can fail. */
  datatype Rankers = Rankers(
    lexical: nat -> Result<seq<LexicalHit>, Error>,
    semantic: nat -> Result<seq<ItemId>, Error>)

  function Ids(hits: seq<LexicalHit>): (ids: seq<ItemId>)
    ensures |ids| == |hits| && forall i :: 0 <= i < |hits| ==> ids[i] == hits[i].id
  {
    seq(|hits|, i requires 0 <= i < |hits| => hits[i].id)
  }

  /** The snippet map: the last hit with an id decides. */
  function SnippetIn(hits: seq<LexicalHit>, id: ItemId): Option<string> {
    if hits == [] then None
    else if hits[|hits| - 1].id == id then hits[|hits| - 1].snippet
    else SnippetIn(hits[..|hits| - 1], id)
  }

  /** The ids in scope, in order. */
  function InScope(ids: seq<ItemId>, filter: Scope.Filter, lookup: Lookup): (kept: seq<ItemId>)
    ensures forall id :: id in kept <==> id in ids && Scope.Matches(filter, lookup(id))
  {
    if ids == [] then []
    else
      InScope(ids[..|ids| - 1], filter, lookup)
      + (if Scope.Matches(filter, lookup(ids[|ids| - 1])) then [ids[|ids| - 1]] else [])
  }

  function ScopeFilterHits(ids: seq<ItemId>, filter: Option<Scope.Filter>,
                           lookup: Option<Lookup>): Result<seq<ItemId>, Error> {
    match (filter, lookup)
    case (None, _) => Ok(ids)
    case (Some(_), None) => Err(ScopeLookupMissing)
    case (Some(f), Some(l)) => Ok(InScope(ids, f, l))
  }

  function Take<T>(s: seq<T>, n: nat): seq<T> {
    if |s| <= n then s else s[..n]
  }

  function HitOf(lexical: seq<LexicalHit>, semantic: seq<ItemId>, s: Scored): HybridHit {
    HybridHit(s.id, s.score, RankIn(Ids(lexical), s.id), RankIn(semantic, s.id), SnippetIn(lexical, s.id))
  }

  function FetchCount(opts: Options): nat {
    if opts.limit * opts.fetchMultiplier == 0 then 1 else opts.limit * opts.fetchMultiplier
  }

  /** The two rankings a hybrid search fuses. */
  function Rankings(rankers: Rankers, lookup: Option<Lookup>, opts: Options): Result<(seq<LexicalHit>, seq<ItemId>),
                    Error> {
    var n := FetchCount(opts);
    if opts.scope.Some? && lookup.None? then Err(ScopeLookupMissing)
    else
      match rankers.lexical(n)
      case Err(e) => Err(e)
      case Ok(lexical) =>
        match rankers.semantic(if opts.scope.Some? then n * 2 else n)
        case Err(e) => Err(e)
        case Ok(candidates) =>
          match ScopeFilterHits(candidates, opts.scope, lookup)
          case Err(e) => Err(e)
          case Ok(kept) => Ok((lexical, Take(kept, n)))
  }

  method SearchHybrid(rankers: Rankers, lookup: Option<Lookup>, opts: Options)
    returns (r: Result<(seq<HybridHit>, nat), Error>)
    ensures Rankings(rankers, lookup, opts).Err? ==> r == Err(Rankings(rankers, lookup, opts).error)
    ensures Rankings(rankers, lookup, opts).Ok? ==>
              var (lexical, semantic) := Rankings(rankers, lookup, opts).value;
              && r.Ok?
              && exists fused :: IsFusion(Ids(lexical), semantic, opts.rrfK, fused)
                   && AreHits(lexical, semantic, opts.limit, fused, r.value.0)
                   && r.value.1 == |fused|
  {
    var n := FetchCount(opts);
    if opts.scope.Some? && lookup.None? { return Err(ScopeLookupMissing); }
    var lexical := rankers.lexical(n);
    if lexical.Err? { return Err(lexical.error); }
    var candidates := rankers.semantic(if opts.scope.Some? then n * 2 else n);
    if candidates.Err? { return Err(candidates.error); }
    var kept := ScopeFilterHits(candidates.value, opts.scope, lookup);
    if kept.Err? { return Err(ScopeLookupMissing); }
    var semantic := Take(kept.value, n);
    var fused := RrfFuse(Ids(lexical.value), semantic, opts.rrfK);
    var shown := Take(fused, opts.limit);
    var hits := seq(|shown|, i requires 0 <= i < |shown| => HitOf(lexical.value, semantic, shown[i]));
    assert AreHits(lexical.value, semantic, opts.limit, fused, hits);
    return Ok((hits, |fused|));
  }

  /** The first `limit` fused ids, each with its ranks and snippet attached again. */
  predicate AreHits(lexical: seq<LexicalHit>, semantic: seq<ItemId>, limit: nat, fused: seq<Scored>,
                    hits: seq<HybridHit>) {
    && |hits| == |Take(fused, limit)|
    && forall i :: 0 <= i < |hits| ==> hits[i] == HitOf(lexical, semantic, fused[i])
  }

  /** Each hit's score is the sum of the reciprocals of the ranks it reports, and it reports at least one. */
  lemma {:induction false} HitScoresAreTheirRanks(lexical: seq<LexicalHit>, semantic: seq<ItemId>, k: nat, limit: nat,
                                                  fused: seq<Scored>, hits: seq<HybridHit>, i: nat)
    requires RepeatFree(Ids(lexical)) && RepeatFree(semantic)
    requires IsFusion(Ids(lexical), semantic, k, fused) && AreHits(lexical, semantic, limit, fused, hits) && i < |hits|
    ensures hits[i].lexicalRank.Some? || hits[i].semanticRank.Some?
    ensures hits[i].score == Worth(k, hits[i].lexicalRank) + Worth(k, hits[i].semanticRank)
    ensures hits[i].lexicalRank.Some? ==>
              lexical[hits[i].lexicalRank.value - 1] == LexicalHit(hits[i].id, hits[i].snippet)
    ensures hits[i].lexicalRank.None? ==> hits[i].snippet == None
    ensures hits[i].semanticRank.Some? ==> semantic[hits[i].semanticRank.value - 1] == hits[i].id
  {
    assert fused[i] in fused;
    ContributionIsWorth(Ids(lexical), k, fused[i].id);
    ContributionIsWorth(semantic, k, fused[i].id);
    SnippetFollowsRank(lexical, fused[i].id);
  }

  lemma {:induction false} SnippetFollowsRank(lexical: seq<LexicalHit>, id: ItemId)
    ensures var rank := RankIn(Ids(lexical), id);
            SnippetIn(lexical, id) == if rank.None? then None else lexical[rank.value - 1].snippet
  {
    if lexical != [] {
      var front := lexical[..|lexical| - 1];
      SnippetFollowsRank(front, id);
      assert Ids(lexical)[..|lexical| - 1] == Ids(front);
    }
  }
}
