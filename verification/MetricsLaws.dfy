/** The figures of a benchmark run, counted off its questions. */
module MetricsLaws {
  import opened Wrappers
  import opened Metrics

  /** A question of the kind asked for that was answered in the mode and has an answer to be found. */
  ghost predicate IsScored(q: Question, mode: Mode, kind: Option<string>) {
    mode in q.hits && q.failed == false && q.abstention == false && (kind == None || kind == Some(q.kind))
  }

  ghost function Scored(questions: seq<Question>, mode: Mode, kind: Option<string>): set<nat> {
    set i: nat | i < |questions| && IsScored(questions[i], mode, kind)
  }

  /** One of the first `k` hits is a session that holds evidence. */
  ghost predicate FoundBy(q: Question, mode: Mode, k: nat)
    requires mode in q.hits
  {
    exists p :: 0 <= p < |q.hits[mode]| && p < k && q.hits[mode][p] in q.evidence
  }

  ghost function Found(questions: seq<Question>, mode: Mode, kind: Option<string>, k: nat): set<nat> {
    set i: nat | i < |questions| && IsScored(questions[i], mode, kind) && FoundBy(questions[i], mode, k)
  }

  lemma {:induction false} HitIsFound(q: Question, mode: Mode, k: nat)
    requires mode in q.hits
    ensures IsHit(FirstHitRank(q.hits[mode], q.evidence), k) <==> FoundBy(q, mode, k)
  {
    var rank := FirstHitRank(q.hits[mode], q.evidence);
    if IsHit(rank, k) { assert q.hits[mode][rank.value - 1] in q.evidence; }
  }

  /** A set of positions in a list grows by its last position, or stays. */
  lemma {:induction false} WithLast(before: set<nat>, after: set<nat>, n: nat, last: bool)
    requires forall i :: i in before ==> i < n
    requires forall i :: i in after <==> i in before || (i == n && last)
    ensures |after| == |before| + if last then 1 else 0
  {
    assert after == if last then before + {n} else before;
  }

  lemma {:induction false} LastScored(questions: seq<Question>, mode: Mode, kind: Option<string>, k: nat)
    requires questions != []
    ensures var n, q := |questions| - 1, questions[|questions| - 1];
            && |Scored(questions, mode, kind)|
               == |Scored(questions[..n], mode, kind)| + (if IsScored(q, mode, kind) then 1 else 0)
            && |Found(questions, mode, kind, k)|
               == |Found(questions[..n], mode, kind, k)|
                  + (if IsScored(q, mode, kind) && FoundBy(q, mode, k) then 1 else 0)
  {
    var n, q := |questions| - 1, questions[|questions| - 1];
    WithLast(Scored(questions[..n], mode, kind), Scored(questions, mode, kind), n, IsScored(q, mode, kind));
    WithLast(Found(questions[..n], mode, kind, k), Found(questions, mode, kind, k), n,
             IsScored(q, mode, kind) && FoundBy(q, mode, k));
  }

  /** A tally counts the scored questions, and for each cut-off those with evidence among the first hits. */
  lemma {:induction false} TallyMeaning(questions: seq<Question>, ks: seq<nat>, mode: Mode, kind: Option<string>,
                                        k: nat)
    requires k in ks
    ensures var t := TallyOver(questions, ks, mode, kind);
            && t.n == |Scored(questions, mode, kind)|
            && t.hitAt.Keys == (set c | c in ks) && t.hitAt[k] == |Found(questions, mode, kind, k)|
  {
    if questions != [] {
      var q := questions[|questions| - 1];
      TallyMeaning(questions[..|questions| - 1], ks, mode, kind, k);
      LastScored(questions, mode, kind, k);
      if mode in q.hits { HitIsFound(q, mode, k); }
    }
  }

  ghost predicate IsFirstEvidence(q: Question, mode: Mode, p: nat)
    requires mode in q.hits
  {
    && p < |q.hits[mode]| && q.hits[mode][p] in q.evidence
    && forall i :: 0 <= i < p ==> q.hits[mode][i] !in q.evidence
  }

  /** What the last question adds: the reciprocal of the first position with evidence, and its time. */
  lemma {:induction false} LastQuestionAdds(front: seq<Question>, q: Question, ks: seq<nat>, mode: Mode,
                                            kind: Option<string>)
    requires IsScored(q, mode, kind)
    ensures var before, after := TallyOver(front, ks, mode, kind), TallyOver(front + [q], ks, mode, kind);
            && (forall p :: IsFirstEvidence(q, mode, p) ==> after.rrSum == before.rrSum + 1.0 / (p + 1) as real)
            && ((forall p :: 0 <= p < |q.hits[mode]| ==> q.hits[mode][p] !in q.evidence) ==>
                  after.rrSum == before.rrSum)
            && after.queryMicros == before.queryMicros + if mode in q.queryMicros then q.queryMicros[mode] else 0
  {
    assert (front + [q])[..|front|] == front;
  }

  /**
   What a summary says of a mode, over all questions or one kind: how many were scored, the share of them
   with evidence among the first `k` hits, the mean reciprocal rank, and questions per second.
   */
  lemma {:induction false} FiguresMeaning(questions: seq<Question>, ks: seq<nat>, mode: Mode, kind: Option<string>,
                                          k: nat)
    requires k in ks && Scored(questions, mode, kind) != {}
    ensures TallyOver(questions, ks, mode, kind).n > 0
    ensures var t := TallyOver(questions, ks, mode, kind);
            var figures, scored := Finish(t), |Scored(questions, mode, kind)| as real;
            && figures.n as real == scored
            && figures.recall.Keys == (set c | c in ks)
            && figures.recall[k] * scored == |Found(questions, mode, kind, k)| as real
            && figures.mrr * scored == t.rrSum
            && (if t.queryMicros == 0 then figures.queriesPerSecond == 0.0
                else figures.queriesPerSecond * (t.queryMicros as real / 1_000_000.0) == scored)
  {
    TallyMeaning(questions, ks, mode, kind, k);
    SomethingCounts(Scored(questions, mode, kind));
    FinishMeaning(TallyOver(questions, ks, mode, kind), k);
  }

  lemma {:induction false} SomethingCounts(s: set<nat>)
    requires s != {}
    ensures |s| > 0
  {
  }

  lemma {:induction false} FinishMeaning(t: Tally, k: nat)
    requires t.n > 0 && k in t.hitAt
    ensures var figures := Finish(t);
            && figures.n == t.n && figures.recall.Keys == t.hitAt.Keys
            && figures.recall[k] * t.n as real == t.hitAt[k] as real && figures.mrr * t.n as real == t.rrSum
            && (if t.queryMicros == 0 then figures.queriesPerSecond == 0.0
                else figures.queriesPerSecond * (t.queryMicros as real / 1_000_000.0) == t.n as real)
  {
    var n, micros := t.n as real, t.queryMicros as real / 1_000_000.0;
    Quotient(t.hitAt[k] as real, n);
    Quotient(t.rrSum, n);
    if t.queryMicros > 0 { Quotient(n, micros); }
    assert Finish(t).recall[k] == t.hitAt[k] as real / n;
  }

  lemma {:induction false} Quotient(a: real, b: real)
    requires b > 0.0
    ensures a / b * b == a
  {
  }
}
