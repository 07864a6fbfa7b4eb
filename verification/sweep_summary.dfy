/**
 * How the threshold sweep's counts relate to the per-race fairness summary: when
 * every record of a race has a score, its TP+FN rows count exactly the summary's
 * "Yes" records and its FP+TN rows its "No" records, at every threshold.
 */
module SweepSummary {
  import opened Records
  import Fairness
  import Sweep

  /** A race's scored records with a Re-offense value are all its records with that value, when none of them lacks a score. */
  lemma {:induction false} ScoredIsAll(recs: seq<Record>, g: string, v: string)
    requires forall r :: r in recs && r.race == g ==> r.riskScore.Some?
    ensures Sweep.ScoredWith(recs, g, v) == Fairness.CountReoffense(recs, g, v)
  {
    if recs != [] {
      assert recs[0] in recs;
      ScoredIsAll(recs[1..], g, v);
    }
  }

  /** The sweep splits each race's summary: TP+FN is its "Yes" count and FP+TN its "No" count, at every threshold. */
  lemma {:induction false} SweepSplitsSummary(recs: seq<Record>, g: string, t: int)
    requires forall r :: r in recs && r.race == g ==> r.riskScore.Some?
    ensures var s := Fairness.Summarize(recs, g);
      && Sweep.Tally(recs, Sweep.SweepKey(g, t, Sweep.TP)) + Sweep.Tally(recs, Sweep.SweepKey(g, t, Sweep.FN)) == s.yes
      && Sweep.Tally(recs, Sweep.SweepKey(g, t, Sweep.FP)) + Sweep.Tally(recs, Sweep.SweepKey(g, t, Sweep.TN)) == s.no
  {
    Sweep.ConditionPartition(recs, g, t);
    ScoredIsAll(recs, g, CONDITION_POSITIVE);
    ScoredIsAll(recs, g, CONDITION_NEGATIVE);
  }
}
