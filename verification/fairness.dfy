/**
 * Group-level fairness rates of the judges' bail decisions, per race:
 * a per-race summary of the ground truth (records with a recognised Re-offense
 * label, how many "Yes", how many "No"), joined onto the cross-tabulation of
 * (Race, Judge Decision) against Re-offense, with a False Positive Rate on the
 * "Denied" rows and a False Negative Rate on the "Granted" rows. Rates are exact
 * fractions; division by zero and missing join partners are explicit.
 */
module Fairness {
  import opened Wrappers
  import opened Records
  import opened CrossTab

  // ---------------------------------------------------------------------------
  // Per-race summary of the ground truth

  /** Records of race `race` whose Re-offense value is `v`. */
  function CountReoffense(recs: seq<Record>, race: string, v: string): nat
  {
    if recs == [] then 0
    else (if recs[0].race == race && recs[0].reoffense == v then 1 else 0) + CountReoffense(recs[1..], race, v)
  }

  /** Records of race `race` whose Re-offense value encodes to 1 or 0 ("Yes" or "No"); any other value encodes to NaN. */
  function EncodedCount(recs: seq<Record>, race: string): nat
  {
    if recs == [] then 0
    else
      var encoded := recs[0].reoffense == CONDITION_POSITIVE || recs[0].reoffense == CONDITION_NEGATIVE;
      (if recs[0].race == race && encoded then 1 else 0) + EncodedCount(recs[1..], race)
  }

  lemma {:induction false} EncodedIsYesPlusNo(recs: seq<Record>, race: string)
    ensures EncodedCount(recs, race) ==
      CountReoffense(recs, race, CONDITION_POSITIVE) + CountReoffense(recs, race, CONDITION_NEGATIVE)
  {
    if recs != [] {
      EncodedIsYesPlusNo(recs[1..], race);
    }
  }

  /** A race's summary row: non-NaN count of the encoded condition, its sum, and count minus sum. */
  datatype GroupSummary = GroupSummary(total: nat, yes: nat, no: nat)

  /**
   * The summary of one race. `total` counts only encodable records and `yes` is the
   * sum of the 0/1 encoding; `no` is computed as `total - yes`, which is the number
   * of "No" records.
   */
  function Summarize(recs: seq<Record>, race: string): (s: GroupSummary)
    ensures s.yes <= s.total
    ensures s.total == s.yes + s.no
    ensures s.yes == CountReoffense(recs, race, CONDITION_POSITIVE)
    ensures s.no == CountReoffense(recs, race, CONDITION_NEGATIVE)
  {
    EncodedIsYesPlusNo(recs, race);
    var total := EncodedCount(recs, race);
    var yes := CountReoffense(recs, race, CONDITION_POSITIVE);
    GroupSummary(total, yes, total - yes)
  }

  /** The races present in the table (grouping keeps a race even when none of its labels encode). */
  function Races(recs: seq<Record>): set<string>
  {
    set r | r in recs :: r.race
  }

  /** The per-race summary table. */
  function Summaries(recs: seq<Record>): (m: map<string, GroupSummary>)
    ensures m.Keys == Races(recs)
    ensures forall g :: g in m ==> m[g] == Summarize(recs, g)
  {
    map g | g in Races(recs) :: Summarize(recs, g)
  }

  /** Records of any race whose Re-offense value encodes to 1 or 0. */
  function EncodedAll(recs: seq<Record>): nat
  {
    if recs == [] then 0
    else
      var encoded := recs[0].reoffense == CONDITION_POSITIVE || recs[0].reoffense == CONDITION_NEGATIVE;
      (if encoded then 1 else 0) + EncodedAll(recs[1..])
  }

  /** The encoded records of the races `gs`, race by race. */
  function EncodedOver(recs: seq<Record>, gs: seq<string>): nat
  {
    if gs == [] then 0 else EncodedCount(recs, gs[0]) + EncodedOver(recs, gs[1..])
  }

  /** Sum of the summaries' totals over the races `gs` (a race without a row adds 0). */
  function SumTotals(m: map<string, GroupSummary>, gs: seq<string>): nat
  {
    if gs == [] then 0 else (if gs[0] in m then m[gs[0]].total else 0) + SumTotals(m, gs[1..])
  }

  lemma {:induction false} EncodedOverEmpty(gs: seq<string>)
    ensures EncodedOver([], gs) == 0
  {
    if gs != [] { EncodedOverEmpty(gs[1..]); }
  }

  /** Peeling the first record off every race's count. */
  lemma {:induction false} EncodedOverHead(recs: seq<Record>, gs: seq<string>)
    requires recs != [] && Distinct(gs)
    ensures EncodedOver(recs, gs) == EncodedOver(recs[1..], gs) +
      (if recs[0].race in gs && (recs[0].reoffense == CONDITION_POSITIVE || recs[0].reoffense == CONDITION_NEGATIVE) then 1 else 0)
  {
    if gs != [] {
      DistinctTail(gs);
      EncodedOverHead(recs, gs[1..]);
    }
  }

  /** Over a list naming each race of the data once, the per-race counts add up to all encoded records. */
  lemma {:induction false} EncodedOverIsAll(recs: seq<Record>, gs: seq<string>)
    requires Distinct(gs)
    requires forall r :: r in recs ==> r.race in gs
    ensures EncodedOver(recs, gs) == EncodedAll(recs)
  {
    if recs == [] {
      EncodedOverEmpty(gs);
    } else {
      EncodedOverHead(recs, gs);
      assert recs[0] in recs;
      EncodedOverIsAll(recs[1..], gs);
    }
  }

  lemma {:induction false} SumTotalsIsEncodedOver(recs: seq<Record>, gs: seq<string>)
    requires forall g :: g in gs ==> g in Races(recs)
    ensures SumTotals(Summaries(recs), gs) == EncodedOver(recs, gs)
  {
    if gs != [] {
      SumTotalsIsEncodedOver(recs, gs[1..]);
    }
  }

  /**
   * The summary table accounts for every encoded record once: over a list naming each
   * race once, the totals add up to the number of records whose Re-offense is "Yes" or "No".
   */
  lemma SummariesAddUp(recs: seq<Record>, gs: seq<string>)
    requires Distinct(gs)
    requires forall g :: g in gs <==> g in Races(recs)
    ensures SumTotals(Summaries(recs), gs) == EncodedAll(recs)
  {
    SumTotalsIsEncodedOver(recs, gs);
    forall r | r in recs ensures r.race in gs { assert r.race in Races(recs); }
    EncodedOverIsAll(recs, gs);
  }

  // ---------------------------------------------------------------------------
  // Rates

  /**
   * A rate column cell: NoRate where the row does not get the rate (None), NaN for
   * 0/0 or a missing join partner, Inf for a positive count over 0, and otherwise
   * the exact fraction num/den.
   */
  datatype Rate = NoRate | NaN | Inf | Frac(num: nat, den: nat)

  /** A defined rate lies in [0, 1]. */
  ghost predicate InUnitInterval(r: Rate)
  {
    r.Frac? ==> 0 < r.den && r.num <= r.den
  }

  /** Floating-point division of a count by a possibly missing (NaN) count. */
  function Divide(num: nat, den: Option<nat>): (r: Rate)
    ensures r != NoRate
    ensures r.Frac? <==> den.Some? && den.value > 0
    ensures r.Frac? ==> r.num == num && r.den == den.value
    ensures r == Inf <==> den == Some(0) && num > 0
    ensures den.Some? && num <= den.value ==> r != Inf && InUnitInterval(r)
  {
    match den
    case None => NaN
    case Some(d) => if d > 0 then Frac(num, d) else if num == 0 then NaN else Inf
  }

  /** The race's re-offense rate: the mean of the 0/1 encoding, NaN when nothing encodes. */
  function ReoffenseRate(s: GroupSummary): (r: Rate)
    requires s.yes <= s.total
    ensures r == NaN <==> s.total == 0
    ensures r != NaN ==> r == Frac(s.yes, s.total) && InUnitInterval(r)
  {
    if s.total == 0 then NaN else Frac(s.yes, s.total)
  }

  // ---------------------------------------------------------------------------
  // The fairness table

  /** The row keys of the cross-tabulation the rates are built on. */
  const FAIRNESS_ROWS: seq<Field> := [Race, JudgeDecision]

  /** One row of the fairness table: the cross-tabulation row joined with its race's summary. */
  datatype FairnessRow = FairnessRow(
    race: string,
    decision: string,
    yes: nat,
    no: nat,
    summary: Option<GroupSummary>,
    groupRate: Rate,
    fpr: Rate,
    fnr: Rate)

  /** Selecting the "Yes" and "No" columns fails when the cross-tabulation has no such column. */
  datatype FairnessError = MissingColumn(header: string)

  /** Text of the `i`-th key value, or "" when there is none. */
  function TextAt(vs: seq<Value>, i: nat): string
  {
    if i < |vs| && vs[i].Text? then vs[i].text else ""
  }

  /** The Race and Judge Decision labels of a row; the margin row reads ("Total", ""). */
  function RowLabels(rk: RowKey): (string, string)
  {
    match rk
    case TotalRow => ("Total", "")
    case Row(vs) => (TextAt(vs, 0), TextAt(vs, 1))
  }

  /** A cross-tabulation row, left-joined with the race summaries, with its rates. */
  function JoinRow(rk: RowKey, yes: nat, no: nat, summaries: map<string, GroupSummary>): FairnessRow
  {
    var (race, decision) := RowLabels(rk);
    var s := if race in summaries then Some(summaries[race]) else None;
    var groupRate := if s.Some? && s.value.yes <= s.value.total then ReoffenseRate(s.value) else NaN;
    var fpr := if decision == PREDICTION_POSITIVE then Divide(no, if s.Some? then Some(s.value.no) else None) else NoRate;
    var fnr := if decision == PREDICTION_NEGATIVE then Divide(yes, if s.Some? then Some(s.value.yes) else None) else NoRate;
    FairnessRow(race, decision, yes, no, s, groupRate, fpr, fnr)
  }

  /**
   * The fairness table for the judges' decisions: every row of the cross-tabulation of
   * (Race, Judge Decision) against Re-offense, the Total row included, keeping its
   * "Yes" and "No" counts, joined with the race summary, with FPR and FNR.
   */
  function FairnessJudge(recs: seq<Record>): (r: Result<map<RowKey, FairnessRow>, FairnessError>)
    ensures r.Failure? <==>
      Text(CONDITION_POSITIVE) !in ColValues(recs, FAIRNESS_ROWS, Reoffense) ||
      Text(CONDITION_NEGATIVE) !in ColValues(recs, FAIRNESS_ROWS, Reoffense)
    ensures r.Success? ==> r.value.Keys == RowHeaders(recs, FAIRNESS_ROWS, Reoffense)
  {
    var cols := ColValues(recs, FAIRNESS_ROWS, Reoffense);
    if Text(CONDITION_POSITIVE) !in cols then Failure(MissingColumn(CONDITION_POSITIVE))
    else if Text(CONDITION_NEGATIVE) !in cols then Failure(MissingColumn(CONDITION_NEGATIVE))
    else
      var t := CountTable(recs, FAIRNESS_ROWS, Reoffense);
      var summaries := Summaries(recs);
      CountTableShape(recs, FAIRNESS_ROWS, Reoffense);
      Success(map rk | rk in RowHeaders(recs, FAIRNESS_ROWS, Reoffense) ::
        JoinRow(rk, t[Cell(rk, Col(Text(CONDITION_POSITIVE)))], t[Cell(rk, Col(Text(CONDITION_NEGATIVE)))], summaries))
  }

  // ---------------------------------------------------------------------------
  // Facts about the fairness table

  lemma FairnessEntry(r: Record)
    ensures Entry(r, FAIRNESS_ROWS, Reoffense) ==
      Some(([Text(r.race), Text(r.judgeDecision)], Text(r.reoffense)))
  {
    var k := KeyOf(r, FAIRNESS_ROWS);
    assert FieldValue(r, FAIRNESS_ROWS[0]).Some? && FieldValue(r, FAIRNESS_ROWS[1]).Some?;
    assert k.Some? && k.value[0] == Text(r.race) && k.value[1] == Text(r.judgeDecision);
    assert k.value == [Text(r.race), Text(r.judgeDecision)];
  }

  /** A (race, decision) bucket of Re-offense value `v` never exceeds the race's records with that value. */
  lemma {:induction false} BucketWithinRace(recs: seq<Record>, race: string, decision: string, v: string)
    ensures CellCount(recs, FAIRNESS_ROWS, Reoffense, [Text(race), Text(decision)], Text(v)) <=
      CountReoffense(recs, race, v)
  {
    if recs != [] {
      FairnessEntry(recs[0]);
      BucketWithinRace(recs[1..], race, decision, v);
    }
  }

  /** Every observed row key is a (race, decision) pair of some record. */
  lemma ObservedRowKey(recs: seq<Record>, k: seq<Value>)
    requires k in RowKeys(recs, FAIRNESS_ROWS, Reoffense)
    ensures |k| == 2 && k[0].Text? && k[1].Text?
    ensures k == [Text(TextAt(k, 0)), Text(TextAt(k, 1))]
    ensures TextAt(k, 0) in Races(recs)
  {
    var r :| r in recs && Entry(r, FAIRNESS_ROWS, Reoffense).Some? && Entry(r, FAIRNESS_ROWS, Reoffense).value.0 == k;
    FairnessEntry(r);
  }

  /**
   * The rates of the fairness table. FPR is set only on "Denied" rows and FNR only on
   * "Granted" rows. On an observed row the race always has a summary, so a rate is
   * either the exact fraction count / the race's total of that label, lying in [0, 1],
   * or NaN exactly when that total is 0; it is never infinite. The Total row gets
   * no rate.
   */
  lemma FairnessRates(recs: seq<Record>, rk: RowKey)
    requires FairnessJudge(recs).Success?
    requires rk in FairnessJudge(recs).value
    ensures var row := FairnessJudge(recs).value[rk];
      && (row.fpr != NoRate <==> row.decision == PREDICTION_POSITIVE)
      && (row.fnr != NoRate <==> row.decision == PREDICTION_NEGATIVE)
      && row.fpr != Inf && row.fnr != Inf
      && InUnitInterval(row.fpr) && InUnitInterval(row.fnr)
    ensures rk.Row? ==> var row := FairnessJudge(recs).value[rk];
      && row.summary == Some(Summarize(recs, row.race))
      && rk.values == [Text(row.race), Text(row.decision)]
      && row.yes == CellCount(recs, FAIRNESS_ROWS, Reoffense, rk.values, Text(CONDITION_POSITIVE))
      && row.no == CellCount(recs, FAIRNESS_ROWS, Reoffense, rk.values, Text(CONDITION_NEGATIVE))
      && (row.decision == PREDICTION_POSITIVE ==>
            (row.fpr == NaN <==> row.summary.value.no == 0) &&
            (row.fpr != NaN ==> row.fpr == Frac(row.no, row.summary.value.no)))
      && (row.decision == PREDICTION_NEGATIVE ==>
            (row.fnr == NaN <==> row.summary.value.yes == 0) &&
            (row.fnr != NaN ==> row.fnr == Frac(row.yes, row.summary.value.yes)))
    ensures rk == TotalRow ==> var row := FairnessJudge(recs).value[rk];
      row.race == "Total" && row.decision == "" && row.fpr == NoRate && row.fnr == NoRate
  {
    CountTableShape(recs, FAIRNESS_ROWS, Reoffense);
    var t := CountTable(recs, FAIRNESS_ROWS, Reoffense);
    var row := FairnessJudge(recs).value[rk];
    var summaries := Summaries(recs);
    assert row == JoinRow(rk, t[Cell(rk, Col(Text(CONDITION_POSITIVE)))], t[Cell(rk, Col(Text(CONDITION_NEGATIVE)))], summaries);
    if rk.Row? {
      var k := rk.values;
      assert k in RowKeys(recs, FAIRNESS_ROWS, Reoffense);
      ObservedRowKey(recs, k);
      var race, decision := TextAt(k, 0), TextAt(k, 1);
      assert row.race == race && row.decision == decision;
      BucketWithinRace(recs, race, decision, CONDITION_POSITIVE);
      BucketWithinRace(recs, race, decision, CONDITION_NEGATIVE);
    }
  }

  /**
   * The race's re-offense rate carried by each row of the fairness table: on an
   * observed row it is the mean of the race's encoded labels, NaN exactly when none
   * encodes. The Total row joins a summary only if some race is literally named
   * "Total"; otherwise it has no summary and a NaN rate.
   */
  lemma FairnessGroupRate(recs: seq<Record>, rk: RowKey)
    requires FairnessJudge(recs).Success?
    requires rk in FairnessJudge(recs).value
    ensures rk.Row? ==> var row := FairnessJudge(recs).value[rk];
      && row.groupRate == ReoffenseRate(Summarize(recs, row.race))
      && (row.groupRate == NaN <==> EncodedCount(recs, row.race) == 0)
    ensures rk == TotalRow ==> var row := FairnessJudge(recs).value[rk];
      && ("Total" in Races(recs) ==> row.summary == Some(Summarize(recs, "Total")) && row.groupRate == ReoffenseRate(Summarize(recs, "Total")))
      && ("Total" !in Races(recs) ==> row.summary == None && row.groupRate == NaN)
  {
    CountTableShape(recs, FAIRNESS_ROWS, Reoffense);
    var t := CountTable(recs, FAIRNESS_ROWS, Reoffense);
    var row := FairnessJudge(recs).value[rk];
    assert row == JoinRow(rk, t[Cell(rk, Col(Text(CONDITION_POSITIVE)))], t[Cell(rk, Col(Text(CONDITION_NEGATIVE)))], Summaries(recs));
    if rk.Row? {
      ObservedRowKey(recs, rk.values);
    }
  }
}
