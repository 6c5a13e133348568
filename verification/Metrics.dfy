/** Recall at k and mean reciprocal rank over the questions of a benchmark run, with real numbers. */
module Metrics {
  import opened Wrappers

  datatype Mode = Lexical | Semantic | Hybrid

  /** One evaluated question; `hits` lists the sessions each mode returned, best first. */
  datatype Question = Question(
    kind: string,
    abstention: bool,
    failed: bool,
    evidence: seq<string>,
    hits: map<Mode, seq<string>>,
    queryMicros: map<Mode, nat>)

  /******* Ranks *******/

  /** `first_hit_rank`: where the first evidence session is, counted from 1. */
  function FirstHitRank(hits: seq<string>, evidence: seq<string>): (rank: Option<nat>)
    ensures rank.Some? ==>
              && 0 < rank.value <= |hits| && hits[rank.value - 1] in evidence
              && forall i :: 0 <= i < rank.value - 1 ==> hits[i] !in evidence
    ensures rank.None? ==> forall i :: 0 <= i < |hits| ==> hits[i] !in evidence
  {
    if hits == [] then None
    else if hits[0] in evidence then Some(1)
    else
      match FirstHitRank(hits[1..], evidence)
      case None => None
      case Some(rank) => Some(rank + 1)
  }

  /******* Accumulators *******/

  datatype Tally = Tally(hitAt: map<nat, nat>, rrSum: real, n: nat, queryMicros: nat)

  /** `Acc::new`. */
  function Zero(ks: seq<nat>): Tally {
    Tally(map k | k in ks :: 0, 0.0, 0, 0)
  }

  predicate IsHit(rank: Option<nat>, k: nat) {
    rank.Some? && rank.value <= k
  }

  function ReciprocalRank(rank: Option<nat>): real {
    if rank.Some? && rank.value > 0 then 1.0 / rank.value as real else 0.0
  }

  /** What adding a question does to a tally. */
  function Added(t: Tally, rank: Option<nat>, micros: nat): Tally {
    Tally(map k | k in t.hitAt :: t.hitAt[k] + (if IsHit(rank, k) then 1 else 0),
          t.rrSum + ReciprocalRank(rank), t.n + 1, t.queryMicros + micros)
  }

  /** `Acc`, an accumulator whose counters `add` updates in place. */
  class Acc {
    var hitAt: map<nat, nat>
    var rrSum: real
    var n: nat
    var queryMicros: nat

    function Value(): Tally
      reads this
    {
      Tally(hitAt, rrSum, n, queryMicros)
    }

    constructor (t: Tally)
      ensures Value() == t
    {
      hitAt, rrSum, n, queryMicros := t.hitAt, t.rrSum, t.n, t.queryMicros;
    }

    method Add(rank: Option<nat>, micros: nat)
      requires rank.Some? ==> rank.value > 0
      modifies this
      ensures Value() == Added(old(Value()), rank, micros)
    {
      n := n + 1;
      queryMicros := queryMicros + micros;
      if rank.Some? {
        rrSum := rrSum + 1.0 / rank.value as real;
        var left := hitAt.Keys;
        while left != {}
          invariant left <= hitAt.Keys == old(hitAt).Keys
          invariant n == old(n) + 1 && queryMicros == old(queryMicros) + micros
          invariant rrSum == old(rrSum) + ReciprocalRank(rank)
          invariant forall k :: k in hitAt ==>
              hitAt[k] == old(hitAt)[k] + (if IsHit(rank, k) && k !in left then 1 else 0)
          decreases |left|
        {
          var k :| k in left;
          if rank.value <= k { hitAt := hitAt[k := hitAt[k] + 1]; }
          left := left - {k};
        }
      }
      assert hitAt == Added(old(Value()), rank, micros).hitAt;
    }
  }

  datatype ModeMetrics = ModeMetrics(recall: map<nat, real>, mrr: real, n: nat, queriesPerSecond: real)

  /** `Acc::finish`. */
  function Finish(t: Tally): ModeMetrics
    requires t.n > 0
  {
    ModeMetrics(map k | k in t.hitAt :: t.hitAt[k] as real / t.n as real, t.rrSum / t.n as real, t.n,
                if t.queryMicros == 0 then 0.0 else t.n as real / (t.queryMicros as real / 1_000_000.0))
  }

  /******* What a run adds up to *******/

  predicate Counts(q: Question, mode: Mode, kind: Option<string>) {
    !q.failed && !q.abstention && mode in q.hits && (kind.Some? ==> q.kind == kind.value)
  }

  function Micros(q: Question, mode: Mode): nat {
    if mode in q.queryMicros then q.queryMicros[mode] else 0
  }

  /** A mode's tally over the questions of one kind, or of every kind. */
  function TallyOver(questions: seq<Question>, ks: seq<nat>, mode: Mode, kind: Option<string>): Tally {
    if questions == [] then Zero(ks)
    else
      var before := TallyOver(questions[..|questions| - 1], ks, mode, kind);
      var q := questions[|questions| - 1];
      if Counts(q, mode, kind) then Added(before, FirstHitRank(q.hits[mode], q.evidence), Micros(q, mode)) else before
  }

  function Failures(questions: seq<Question>): nat {
    if questions == [] then 0
    else Failures(questions[..|questions| - 1]) + (if questions[|questions| - 1].failed then 1 else 0)
  }

  function Abstentions(questions: seq<Question>): nat {
    if questions == [] then 0
    else
      Abstentions(questions[..|questions| - 1])
      + (if !questions[|questions| - 1].failed && questions[|questions| - 1].abstention then 1 else 0)
  }

  type Key = (string, Mode)

  datatype Summary = Summary(
    overall: map<Mode, ModeMetrics>, byType: map<Key, ModeMetrics>, abstentions: nat, failures: nat)

  function Entry<K>(tallies: map<K, Tally>, key: K, ks: seq<nat>): Tally {
    if key in tallies then tallies[key] else Zero(ks)
  }

  /** The overall tallies after some questions; a mode that has been asked nothing has no entry. */
  ghost predicate OverallIs(overall: map<Mode, Tally>, questions: seq<Question>, ks: seq<nat>) {
    forall m ::
      && Entry(overall, m, ks) == TallyOver(questions, ks, m, None)
      && (m in overall <==> TallyOver(questions, ks, m, None).n > 0)
  }

  ghost predicate ByTypeIs(byType: map<Key, Tally>, questions: seq<Question>, ks: seq<nat>) {
    forall t, m :: Entry(byType, (t, m), ks) == TallyOver(questions, ks, m, Some(t))
                   && ((t, m) in byType <==> TallyOver(questions, ks, m, Some(t)).n > 0)
  }

  /** One question's result in one mode, into a map of accumulators. */
  method AddEntry<K(==)>(tallies: map<K, Tally>, key: K, ks: seq<nat>, rank: Option<nat>, micros: nat)
    returns (after: map<K, Tally>)
    requires rank.Some? ==> rank.value > 0
    ensures after == tallies[key := Added(Entry(tallies, key, ks), rank, micros)]
  {
    var acc := new Acc(Entry(tallies, key, ks));
    acc.Add(rank, micros);
    after := tallies[key := acc.Value()];
  }

  /** A tally after a scored question, which may not have been asked in the mode. */
  function Bumped(t: Tally, q: Question, mode: Mode): Tally {
    if mode in q.hits then Added(t, FirstHitRank(q.hits[mode], q.evidence), Micros(q, mode)) else t
  }

  predicate SameEntry<K>(before: map<K, Tally>, after: map<K, Tally>, key: K) {
    (key in after <==> key in before) && (key in before ==> after[key] == before[key])
  }

  /** The entry of a mode the question was asked in has taken it in; any other entry is as before. */
  predicate Stepped<K>(before: map<K, Tally>, after: map<K, Tally>, key: K, q: Question, ks: seq<nat>, m: Mode) {
    Entry(after, key, ks) == Bumped(Entry(before, key, ks), q, m) && (key in after <==> key in before || m in q.hits)
  }

  predicate Progress<K>(before: map<K, Tally>, after: map<K, Tally>, key: K, q: Question, ks: seq<nat>, m: Mode,
                        left: set<Mode>) {
    if m in left then SameEntry(before, after, key) else Stepped(before, after, key, q, ks, m)
  }

  lemma {:induction false} Advance<K>(before: map<K, Tally>, mid: map<K, Tally>, after: map<K, Tally>, key: K, m: Mode,
                                      q: Question, ks: seq<nat>, left: set<Mode>, mode: Mode, target: K)
    requires mode in left && mode in q.hits && (key == target <==> m == mode)
    requires Progress(before, mid, key, q, ks, m, left)
    requires after
          == mid[target := Added(Entry(mid, target, ks), FirstHitRank(q.hits[mode], q.evidence), Micros(q, mode))]
    ensures Progress(before, after, key, q, ks, m, left - {mode})
  {
  }

  /** One scored question, mode by mode. */
  method AddQuestion(overall: map<Mode, Tally>, byType: map<Key, Tally>, q: Question, ks: seq<nat>)
    returns (overall': map<Mode, Tally>, byType': map<Key, Tally>)
    ensures forall m :: Stepped(overall, overall', m, q, ks, m)
    ensures forall m :: Stepped(byType, byType', (q.kind, m), q, ks, m)
    ensures forall t, m :: t != q.kind ==> SameEntry(byType, byType', (t, m))
  {
    overall', byType' := overall, byType;
    var left := q.hits.Keys;
    while left != {}
      invariant left <= q.hits.Keys
      invariant forall m :: Progress(overall, overall', m, q, ks, m, left)
      invariant forall m :: Progress(byType, byType', (q.kind, m), q, ks, m, left)
      invariant forall t, m :: t != q.kind ==> SameEntry(byType, byType', (t, m))
      decreases |left|
    {
      var mode :| mode in left;
      var rank := FirstHitRank(q.hits[mode], q.evidence);
      var moreOverall := AddEntry(overall', mode, ks, rank, Micros(q, mode));
      var moreByType := AddEntry(byType', (q.kind, mode), ks, rank, Micros(q, mode));
      forall m
        ensures Progress(overall, moreOverall, m, q, ks, m, left - {mode})
        ensures Progress(byType, moreByType, (q.kind, m), q, ks, m, left - {mode})
      {
        Advance(overall, overall', moreOverall, m, m, q, ks, left, mode, mode);
        Advance(byType, byType', moreByType, (q.kind, m), m, q, ks, left, mode, (q.kind, mode));
      }
      overall', byType', left := moreOverall, moreByType, left - {mode};
    }
    forall m
      ensures Stepped(overall, overall', m, q, ks, m)
      ensures Stepped(byType, byType', (q.kind, m), q, ks, m)
    {
      assert Progress(overall, overall', m, q, ks, m, left) && Progress(byType, byType', (q.kind, m), q, ks, m, left);
    }
  }

  /** `summarise`. */
  method Tallied(questions: seq<Question>, ks: seq<nat>)
    returns (overall: map<Mode, Tally>, byType: map<Key, Tally>, abstentions: nat, failures: nat)
    ensures OverallIs(overall, questions, ks) && ByTypeIs(byType, questions, ks)
    ensures abstentions == Abstentions(questions) && failures == Failures(questions)
  {
    overall, byType, abstentions, failures := map[], map[], 0, 0;
    var i := 0;
    while i < |questions|
      invariant 0 <= i <= |questions|
      invariant OverallIs(overall, questions[..i], ks) && ByTypeIs(byType, questions[..i], ks)
      invariant abstentions == Abstentions(questions[..i]) && failures == Failures(questions[..i])
    {
      var q := questions[i];
      ghost var next := questions[..i + 1];
      assert next[..i] == questions[..i] && next[i] == q;
      if q.failed {
        failures := failures + 1;
        UncountedKeeps(overall, byType, next, ks);
      } else if q.abstention {
        abstentions := abstentions + 1;
        UncountedKeeps(overall, byType, next, ks);
      } else {
        var overall', byType' := AddQuestion(overall, byType, q, ks);
        CountedSteps(overall, byType, overall', byType', next, ks);
        overall, byType := overall', byType';
      }
      i := i + 1;
    }
    assert questions[..|questions|] == questions;
  }

  lemma {:induction false} UncountedKeeps(overall: map<Mode, Tally>, byType: map<Key, Tally>, questions: seq<Question>,
                                          ks: seq<nat>)
    requires questions != [] && (questions[|questions| - 1].failed || questions[|questions| - 1].abstention)
    requires OverallIs(overall, questions[..|questions| - 1], ks) && ByTypeIs(byType, questions[..|questions| - 1], ks)
    ensures OverallIs(overall, questions, ks) && ByTypeIs(byType, questions, ks)
  {
    var before := questions[..|questions| - 1];
    assert forall m :: TallyOver(questions, ks, m, None) == TallyOver(before, ks, m, None);
    assert forall t, m :: TallyOver(questions, ks, m, Some(t)) == TallyOver(before, ks, m, Some(t));
  }

  lemma {:induction false} CountedSteps(overall: map<Mode, Tally>, byType: map<Key, Tally>, overall': map<Mode, Tally>,
                                        byType': map<Key, Tally>, questions: seq<Question>, ks: seq<nat>)
    requires questions != [] && !questions[|questions| - 1].failed && !questions[|questions| - 1].abstention
    requires OverallIs(overall, questions[..|questions| - 1], ks) && ByTypeIs(byType, questions[..|questions| - 1], ks)
    requires var q := questions[|questions| - 1];
             && (forall m :: Stepped(overall, overall', m, q, ks, m))
             && (forall m :: Stepped(byType, byType', (q.kind, m), q, ks, m))
             && (forall t, m :: t != q.kind ==> SameEntry(byType, byType', (t, m)))
    ensures OverallIs(overall', questions, ks) && ByTypeIs(byType', questions, ks)
  {
    var q, before := questions[|questions| - 1], questions[..|questions| - 1];
    forall m
      ensures Entry(overall', m, ks) == TallyOver(questions, ks, m, None)
      ensures m in overall' <==> TallyOver(questions, ks, m, None).n > 0
    {
      assert Stepped(overall, overall', m, q, ks, m);
      assert TallyOver(questions, ks, m, None) == Bumped(TallyOver(before, ks, m, None), q, m);
    }
    forall t, m
      ensures Entry(byType', (t, m), ks) == TallyOver(questions, ks, m, Some(t))
      ensures (t, m) in byType' <==> TallyOver(questions, ks, m, Some(t)).n > 0
    {
      if t == q.kind {
        assert Stepped(byType, byType', (t, m), q, ks, m);
        assert TallyOver(questions, ks, m, Some(t)) == Bumped(TallyOver(before, ks, m, Some(t)), q, m);
      } else {
        assert SameEntry(byType, byType', (t, m));
        assert TallyOver(questions, ks, m, Some(t)) == TallyOver(before, ks, m, Some(t));
      }
    }
  }

  method Summarise(questions: seq<Question>, ks: seq<nat>) returns (s: Summary)
    ensures forall m :: m in s.overall <==> TallyOver(questions, ks, m, None).n > 0
    ensures forall m :: m in s.overall ==> s.overall[m] == Finish(TallyOver(questions, ks, m, None))
    ensures forall t, m :: (t, m) in s.byType <==> TallyOver(questions, ks, m, Some(t)).n > 0
    ensures forall t, m :: (t, m) in s.byType ==> s.byType[(t, m)] == Finish(TallyOver(questions, ks, m, Some(t)))
    ensures s.abstentions == Abstentions(questions) && s.failures == Failures(questions)
  {
    var overall, byType, abstentions, failures := Tallied(questions, ks);
    assert forall m :: m in overall ==> overall[m] == Entry(overall, m, ks);
    assert forall t, m :: (t, m) in byType ==> byType[(t, m)] == Entry(byType, (t, m), ks);
    assert forall key :: key in byType ==> key == (key.0, key.1);
    s := Summary(map m | m in overall :: Finish(overall[m]), map key | key in byType :: Finish(byType[key]),
                 abstentions, failures);
  }

  /******* The whole is the sum of its kinds *******/

  /** Two tallies over the same cut-offs, added up. */
  function Plus(a: Tally, b: Tally): Tally {
    Tally(map k | k in a.hitAt && k in b.hitAt :: a.hitAt[k] + b.hitAt[k],
          a.rrSum + b.rrSum, a.n + b.n, a.queryMicros + b.queryMicros)
  }

  function SumOver(questions: seq<Question>, ks: seq<nat>, mode: Mode, kinds: seq<string>): Tally {
    if kinds == [] then Zero(ks)
    else
      var front, last := kinds[..|kinds| - 1], kinds[|kinds| - 1];
      Plus(SumOver(questions, ks, mode, front), TallyOver(questions, ks, mode, Some(last)))
  }

  predicate Distinct(kinds: seq<string>) {
    forall i, j :: 0 <= i < j < |kinds| ==> kinds[i] != kinds[j]
  }

  lemma {:induction false} TallyKeys(questions: seq<Question>, ks: seq<nat>, mode: Mode, kind: Option<string>)
    ensures forall k :: k in TallyOver(questions, ks, mode, kind).hitAt <==> k in ks
  {
    if questions != [] { TallyKeys(questions[..|questions| - 1], ks, mode, kind); }
  }

  lemma {:induction false} SumKeys(questions: seq<Question>, ks: seq<nat>, mode: Mode, kinds: seq<string>)
    ensures forall k :: k in SumOver(questions, ks, mode, kinds).hitAt <==> k in ks
  {
    if kinds != [] {
      SumKeys(questions, ks, mode, kinds[..|kinds| - 1]);
      TallyKeys(questions, ks, mode, Some(kinds[|kinds| - 1]));
    }
  }

  lemma {:induction false} SumOfNothing(ks: seq<nat>, mode: Mode, kinds: seq<string>)
    ensures SumOver([], ks, mode, kinds) == Zero(ks)
  {
    if kinds != [] {
      SumOfNothing(ks, mode, kinds[..|kinds| - 1]);
      assert SumOver([], ks, mode, kinds).hitAt == Zero(ks).hitAt;
    }
  }

  lemma {:induction false} AddedPlus(a: Tally, b: Tally, rank: Option<nat>, micros: nat)
    requires a.hitAt.Keys == b.hitAt.Keys
    ensures Added(Plus(a, b), rank, micros) == Plus(Added(a, rank, micros), b) == Plus(a, Added(b, rank, micros))
  {
    assert Added(Plus(a, b), rank, micros).hitAt == Plus(Added(a, rank, micros), b).hitAt;
    assert Added(Plus(a, b), rank, micros).hitAt == Plus(a, Added(b, rank, micros)).hitAt;
  }

  function WithQuestion(t: Tally, q: Question, mode: Mode, kinds: seq<string>): Tally {
    if Counts(q, mode, None) && q.kind in kinds then Added(t, FirstHitRank(q.hits[mode], q.evidence), Micros(q, mode))
    else t
  }

  /** One more question changes the sum over the kinds as it changes the tally of its own kind. */
  lemma {:induction false} SumStep(questions: seq<Question>, ks: seq<nat>, mode: Mode, kinds: seq<string>)
    requires questions != [] && Distinct(kinds)
    ensures SumOver(questions, ks, mode, kinds)
         == WithQuestion(SumOver(questions[..|questions| - 1], ks, mode, kinds),
                         questions[|questions| - 1], mode, kinds)
    decreases |kinds|
  {
    if kinds != [] {
      var q, earlier := questions[|questions| - 1], questions[..|questions| - 1];
      var front, last := kinds[..|kinds| - 1], kinds[|kinds| - 1];
      SumStep(questions, ks, mode, front);
      assert kinds == front + [last];
      assert last !in front;
      if Counts(q, mode, None) {
        SumKeys(earlier, ks, mode, front);
        TallyKeys(earlier, ks, mode, Some(last));
        AddedPlus(SumOver(earlier, ks, mode, front), TallyOver(earlier, ks, mode, Some(last)),
                  FirstHitRank(q.hits[mode], q.evidence), Micros(q, mode));
      }
    }
  }

  /**
   In every mode the overall counts, hits, reciprocal ranks and times are the sums of those by kind,
   for any listing of the kinds, each once, that misses none.
   */
  lemma {:induction false} OverallIsSumOfKinds(questions: seq<Question>, ks: seq<nat>, mode: Mode, kinds: seq<string>)
    requires Distinct(kinds) && forall i :: 0 <= i < |questions| ==> questions[i].kind in kinds
    ensures TallyOver(questions, ks, mode, None) == SumOver(questions, ks, mode, kinds)
  {
    if questions == [] {
      SumOfNothing(ks, mode, kinds);
    } else {
      OverallIsSumOfKinds(questions[..|questions| - 1], ks, mode, kinds);
      SumStep(questions, ks, mode, kinds);
    }
  }

  /** Every question is a failure, an abstention, or was scored. */
  lemma {:induction false} EveryQuestionIsCounted(questions: seq<Question>, ks: seq<nat>, mode: Mode)
    requires forall i :: 0 <= i < |questions| && !questions[i].failed && !questions[i].abstention ==>
               mode in questions[i].hits
    ensures Failures(questions) + Abstentions(questions) + TallyOver(questions, ks, mode, None).n == |questions|
  {
    if questions != [] { EveryQuestionIsCounted(questions[..|questions| - 1], ks, mode); }
  }

  /******* Recall and mean reciprocal rank *******/

  lemma {:induction false} HitsGrow(questions: seq<Question>, ks: seq<nat>, mode: Mode, kind: Option<string>, j: nat,
                                    k: nat)
    requires j in ks && k in ks && j <= k
    ensures var t := TallyOver(questions, ks, mode, kind);
            j in t.hitAt && k in t.hitAt && t.hitAt[j] <= t.hitAt[k] <= t.n
  {
    if questions != [] { HitsGrow(questions[..|questions| - 1], ks, mode, kind, j, k); }
  }

  lemma {:induction false} DivideMonotone(a: real, b: real, n: real)
    requires a <= b && n > 0.0
    ensures a / n <= b / n
  {
    assert b / n - a / n == (b - a) / n;
  }

  lemma {:induction false} QuotientsGrow(a: real, b: real, n: real)
    requires 0.0 <= a <= b <= n && n > 0.0
    ensures 0.0 <= a / n <= b / n <= 1.0
  {
    DivideMonotone(0.0, a, n);
    DivideMonotone(a, b, n);
    DivideMonotone(b, n, n);
    assert n / n == 1.0 && 0.0 / n == 0.0;
  }

  /** Recall at a larger cut-off is no smaller, and at most 1. */
  lemma {:induction false} RecallIsMonotone(questions: seq<Question>, ks: seq<nat>, mode: Mode, kind: Option<string>,
                                            j: nat, k: nat)
    requires j in ks && k in ks && j <= k && TallyOver(questions, ks, mode, kind).n > 0
    ensures var m := Finish(TallyOver(questions, ks, mode, kind));
            j in m.recall && k in m.recall && 0.0 <= m.recall[j] <= m.recall[k] <= 1.0
  {
    var t := TallyOver(questions, ks, mode, kind);
    HitsGrow(questions, ks, mode, kind, j, k);
    QuotientsGrow(t.hitAt[j] as real, t.hitAt[k] as real, t.n as real);
  }

  lemma {:induction false} ReciprocalsFall(a: nat, b: nat)
    requires 0 < a <= b
    ensures 0.0 < 1.0 / b as real <= 1.0 / a as real <= 1.0
  {
    var x, y := a as real, b as real;
    assert 1.0 / x - 1.0 / y == (y - x) / (x * y);
    assert 1.0 - 1.0 / x == (x - 1.0) / x;
  }

  /** One question: a hit is worth at least `1 / k`, a miss at most `1 / (k + 1)`. */
  lemma {:induction false} OneQuestionBounds(rank: Option<nat>, k: nat)
    requires k >= 1 && (rank.Some? ==> rank.value > 0)
    ensures var hit := if IsHit(rank, k) then 1.0 else 0.0;
            hit / k as real <= ReciprocalRank(rank) <= hit + (1.0 - hit) / (k + 1) as real
  {
    ReciprocalsFall(1, k + 1);
    if rank.Some? {
      ReciprocalsFall(1, rank.value);
      if rank.value <= k { ReciprocalsFall(rank.value, k); } else { ReciprocalsFall(k + 1, rank.value); }
    }
  }

  lemma {:induction false} SplitDivision(a: real, b: real, n: real)
    requires n > 0.0
    ensures (a + b) / n == a / n + b / n
  {
  }

  lemma {:induction false} TallyBounds(questions: seq<Question>, ks: seq<nat>, mode: Mode, kind: Option<string>, k: nat)
    requires k in ks && k >= 1
    ensures var t := TallyOver(questions, ks, mode, kind);
            && k in t.hitAt
            && var hits := t.hitAt[k] as real;
               hits / k as real <= t.rrSum <= hits + (t.n as real - hits) / (k + 1) as real
  {
    if questions != [] {
      var before := questions[..|questions| - 1];
      var q, t := questions[|questions| - 1], TallyOver(before, ks, mode, kind);
      TallyBounds(before, ks, mode, kind, k);
      if Counts(q, mode, kind) {
        var rank := FirstHitRank(q.hits[mode], q.evidence);
        var hit := if IsHit(rank, k) then 1.0 else 0.0;
        OneQuestionBounds(rank, k);
        SplitDivision(t.hitAt[k] as real, hit, k as real);
        SplitDivision(t.n as real - t.hitAt[k] as real, 1.0 - hit, (k + 1) as real);
      }
    }
  }

  lemma {:induction false} SwapDivisions(a: real, x: real, y: real)
    requires x > 0.0 && y > 0.0
    ensures a / x / y == a / y / x
  {
    var p, q := a / x / y, a / y / x;
    assert p * y == a / x && q * x == a / y;
    TimesBoth(p, y, x, a);
    TimesBoth(q, x, y, a);
    assert (p - q) * (x * y) == 0.0;
  }

  lemma {:induction false} TimesBoth(p: real, y: real, x: real, a: real)
    requires x > 0.0 && p * y == a / x
    ensures p * (x * y) == a
  {
    assert (p * y) * x == a / x * x;
  }

  lemma {:induction false} RescaleBelow(hits: real, sum: real, n: real, k: real)
    requires n > 0.0 && k > 0.0 && hits / k <= sum
    ensures hits / n / k <= sum / n
  {
    DivideMonotone(hits / k, sum, n);
    SwapDivisions(hits, k, n);
  }

  lemma {:induction false} Complement(hits: real, n: real)
    requires n > 0.0
    ensures (n - hits) / n == 1.0 - hits / n
  {
    SplitDivision(n - hits, hits, n);
    assert n / n == 1.0;
  }

  lemma {:induction false} RescaleAbove(hits: real, sum: real, n: real, k: real)
    requires n > 0.0 && k > 0.0 && sum <= hits + (n - hits) / k
    ensures sum / n <= hits / n + (1.0 - hits / n) / k
  {
    DivideMonotone(sum, hits + (n - hits) / k, n);
    SplitDivision(hits, (n - hits) / k, n);
    SwapDivisions(n - hits, k, n);
    Complement(hits, n);
  }

  /** For every cut-off of at least 1, recall bounds the mean reciprocal rank from both sides. */
  lemma {:induction false} RecallBoundsMrr(questions: seq<Question>, ks: seq<nat>, mode: Mode, kind: Option<string>,
                                           k: nat)
    requires k in ks && k >= 1 && TallyOver(questions, ks, mode, kind).n > 0
    ensures var m := Finish(TallyOver(questions, ks, mode, kind));
            && k in m.recall
            && m.recall[k] / k as real <= m.mrr <= m.recall[k] + (1.0 - m.recall[k]) / (k + 1) as real
  {
    var t := TallyOver(questions, ks, mode, kind);
    TallyBounds(questions, ks, mode, kind, k);
    RescaleBelow(t.hitAt[k] as real, t.rrSum, t.n as real, k as real);
    RescaleAbove(t.hitAt[k] as real, t.rrSum, t.n as real, (k + 1) as real);
  }
}
