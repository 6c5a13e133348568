/** The numbers and orders of a hybrid search, written out. */
module FusionLaws {
  import opened Wrappers
  import opened Items
  import opened Fusion
  import Scope

  /******* Scores *******/

  /** Every occurrence counts: an id at position `|front|` adds one over `k` plus its rank from 1. */
  lemma {:induction false} EachOccurrenceCounts(front: seq<ItemId>, last: ItemId, k: nat, id: ItemId)
    ensures Contribution([], k, id) == 0.0
    ensures Contribution(front + [last], k, id)
         == Contribution(front, k, id) + (if last == id then 1.0 / (k + |front| + 1) as real else 0.0)
  {
    var list := front + [last];
    assert list[..|list| - 1] == front && list[|list| - 1] == last;
  }

  /** A fused list falls in score, and ids of one score rise. */
  lemma {:induction false} FusedOrder(lexical: seq<ItemId>, semantic: seq<ItemId>, k: nat, fused: seq<Scored>, i: nat,
                                      j: nat)
    requires IsFusion(lexical, semantic, k, fused) && i < j < |fused|
    ensures fused[i].score >= fused[j].score
    ensures fused[i].score == fused[j].score ==> fused[i].id < fused[j].id
  {
    assert Precedes(fused[i], fused[j]);
  }

  /** The score of a hit is the reciprocals of the ranks it reports, summed. */
  lemma {:induction false} HitScore(lexical: seq<LexicalHit>, semantic: seq<ItemId>, k: nat, limit: nat,
                                    fused: seq<Scored>, hits: seq<HybridHit>, i: nat)
    requires RepeatFree(Ids(lexical)) && RepeatFree(semantic)
    requires IsFusion(Ids(lexical), semantic, k, fused) && AreHits(lexical, semantic, limit, fused, hits) && i < |hits|
    ensures match (hits[i].lexicalRank, hits[i].semanticRank)
            case (Some(a), Some(b)) => a > 0 && b > 0 && hits[i].score == 1.0 / (k + a) as real + 1.0 / (k + b) as real
            case (Some(a), None) => a > 0 && hits[i].score == 1.0 / (k + a) as real
            case (None, Some(b)) => b > 0 && hits[i].score == 1.0 / (k + b) as real
            case (None, None) => false
  {
    HitScoresAreTheirRanks(lexical, semantic, k, limit, fused, hits, i);
    assert hits[i] == HitOf(lexical, semantic, fused[i]);
  }

  /** With repeats the rank reported is the last one. */
  lemma {:induction false} RankMeaning(list: seq<ItemId>, id: ItemId, rank: nat)
    ensures RankIn(list, id) == Some(rank) <==>
              0 < rank <= |list| && list[rank - 1] == id && id !in list[rank..]
  {
    if list != [] && list[|list| - 1] != id {
      var front := list[..|list| - 1];
      RankMeaning(front, id, rank);
      if 0 < rank < |list| { assert list[rank..] == front[rank..] + [list[|list| - 1]]; }
    } else if 0 < rank < |list| {
      assert list[rank..][|list| - 1 - rank] == id;
    }
  }

  /******* What is asked of the rankers *******/

  /** A filter keeps the order, and every occurrence, of the ids whose scope it accepts. */
  lemma {:induction false} InScopeKeepsOrder(a: seq<ItemId>, id: ItemId, b: seq<ItemId>, filter: Scope.Filter,
                                             lookup: Lookup)
    ensures InScope([], filter, lookup) == []
    ensures InScope(a + [id] + b, filter, lookup)
         == InScope(a, filter, lookup) + (if Scope.Matches(filter, lookup(id)) then [id] else [])
            + InScope(b, filter, lookup)
    decreases |b|
  {
    var whole := a + [id] + b;
    if b == [] {
      assert whole[..|whole| - 1] == a && whole[|whole| - 1] == id;
    } else {
      var front, last := b[..|b| - 1], b[|b| - 1];
      assert whole[..|whole| - 1] == a + [id] + front && whole[|whole| - 1] == last;
      InScopeKeepsOrder(a, id, front, filter, lookup);
    }
  }

  /** How many candidates are wanted: the limit times the multiplier, and never none. */
  predicate IsWanted(opts: Options, n: nat) {
    n == opts.limit * opts.fetchMultiplier || (n == 1 && (opts.limit == 0 || opts.fetchMultiplier == 0))
  }

  lemma {:induction false} OneNumberIsWanted(opts: Options, n: nat)
    requires n > 0
    ensures IsWanted(opts, n) <==> n == FetchCount(opts)
  {
    ZeroFactors(opts.limit, opts.fetchMultiplier);
  }

  lemma {:induction false} ZeroFactors(a: nat, b: nat)
    ensures a * b == 0 <==> a == 0 || b == 0
  {
    if a > 0 && b > 0 { assert a * b >= b by { assert (a - 1) * b >= 0; } }
  }

  /** What the semantic ranker returned, without what the filter rejects. */
  function Kept(candidates: seq<ItemId>, filter: Option<Scope.Filter>, lookup: Lookup): seq<ItemId> {
    if filter.None? then candidates else InScope(candidates, filter.value, lookup)
  }

  /** The answers of the two rankers for `n` and `m` candidates. */
  predicate Answered(rankers: Rankers, n: nat, m: nat, lexical: seq<LexicalHit>, candidates: seq<ItemId>) {
    rankers.lexical(n) == Ok(lexical) && rankers.semantic(m) == Ok(candidates)
  }

  /**
   A search that can look scopes up asks both rankers for the number wanted, the semantic one for twice
   that if there is a filter, whose survivors are then cut to that number.
   */
  lemma {:induction false} RankingsMeaning(rankers: Rankers, lookup: Lookup, opts: Options, n: nat,
                                           lexical: seq<LexicalHit>, candidates: seq<ItemId>)
    requires n > 0 && IsWanted(opts, n)
    requires Answered(rankers, n, if opts.scope.Some? then 2 * n else n, lexical, candidates)
    ensures var kept := Kept(candidates, opts.scope, lookup);
            Rankings(rankers, Some(lookup), opts) == Ok((lexical, if |kept| <= n then kept else kept[..n]))
    ensures opts.scope.None? ==> Rankings(rankers, None, opts) == Rankings(rankers, Some(lookup), opts)
  {
    OneNumberIsWanted(opts, n);
  }

  /** A search fails for want of a scope lookup before either ranker is asked, and else with the first failure. */
  lemma {:induction false} WhenSearchFails(rankers: Rankers, lookup: Option<Lookup>, opts: Options, n: nat,
                                           e: Fusion.Error)
    requires n > 0 && IsWanted(opts, n)
    ensures Rankings(rankers, lookup, opts) == Err(e) <==>
              if opts.scope.Some? && lookup.None? then e == Fusion.ScopeLookupMissing
              else rankers.lexical(n) == Err(e)
                   || (rankers.lexical(n).Ok? && rankers.semantic(if opts.scope.Some? then 2 * n else n) == Err(e))
  {
    OneNumberIsWanted(opts, n);
  }
}
