/**
 * The risk-score threshold sweep: for each threshold from 1 to 10 every record is
 * re-decided ("Denied" when its score reaches the threshold, "Granted" below it),
 * labelled TP/FP/FN/TN against its Re-offense value, and counted per
 * (race, outcome). The counts are accumulated across thresholds, and after each
 * threshold the accumulator is made dense over the product of the races,
 * thresholds and outcomes it has seen so far, with 0 for the combinations never
 * observed.
 */
module Sweep {
  import opened Wrappers
  import opened Records

  /** The thresholds swept, inclusive. */
  const FIRST_THRESHOLD: int := 1
  const LAST_THRESHOLD: int := 10

  /** The threshold-derived decision written in the "AI Decision" column. */
  datatype Decision = Denied | Granted

  /** The confusion-matrix category of a record. */
  datatype Outcome = TP | FP | FN | TN

  /**
   * The decision at threshold `t`, written as the two masked assignments onto a
   * column that starts out missing: "Denied" where the score reaches the threshold,
   * then "Granted" where it is below it. A numeric score gets exactly one decision
   * (the second mask never overwrites the first); a missing score compares false
   * both ways and gets none.
   */
  function Predict(score: Option<int>, t: int): (d: Option<Decision>)
    ensures d.None? <==> score.None?
    ensures d == Some(Denied) <==> score.Some? && score.value >= t
    ensures d == Some(Granted) <==> score.Some? && score.value < t
  {
    var masked := Mask(None, AtLeast(score, t), Denied);
    Mask(masked, Below(score, t), Granted)
  }

  /** A masked assignment `df.loc[mask, column] = v` as seen by one row: the row takes `v` where the mask holds. */
  function Mask<T>(cell: Option<T>, hit: bool, v: T): Option<T>
  {
    if hit then Some(v) else cell
  }

  /** `score >= t` on a column that may hold NaN, which compares false. */
  predicate AtLeast(score: Option<int>, t: int)
  {
    score.Some? && score.value >= t
  }

  /** `score < t` on a column that may hold NaN, which compares false. */
  predicate Below(score: Option<int>, t: int)
  {
    score.Some? && score.value < t
  }

  /** A higher threshold never turns a "Granted" decision into "Denied". */
  lemma PredictMonotone(score: Option<int>, t: int, t': int)
    requires t <= t'
    ensures Predict(score, t') == Some(Denied) ==> Predict(score, t) == Some(Denied)
    ensures Predict(score, t) == Some(Granted) ==> Predict(score, t') == Some(Granted)
  {
  }

  /**
   * The outcome of a Re-offense value against a decision, or None when the value is
   * neither "Yes" nor "No" or there is no decision.
   */
  function Label(reoffense: string, d: Option<Decision>): (o: Option<Outcome>)
    ensures o.Some? <==> d.Some? && (reoffense == CONDITION_POSITIVE || reoffense == CONDITION_NEGATIVE)
  {
    match d
    case None => None
    case Some(Denied) =>
      if reoffense == CONDITION_POSITIVE then Some(TP)
      else if reoffense == CONDITION_NEGATIVE then Some(FP)
      else None
    case Some(Granted) =>
      if reoffense == CONDITION_POSITIVE then Some(FN)
      else if reoffense == CONDITION_NEGATIVE then Some(TN)
      else None
  }

  /** The Re-offense value an outcome stands for. */
  function ConditionOf(o: Outcome): string
  {
    if o == TP || o == FN then CONDITION_POSITIVE else CONDITION_NEGATIVE
  }

  /** The decision an outcome stands for. */
  function DecisionOf(o: Outcome): Decision
  {
    if o == TP || o == FP then Denied else Granted
  }

  /** The truth table read both ways: an outcome is produced by exactly one (condition, decision) pair. */
  lemma LabelTruthTable(reoffense: string, d: Option<Decision>, o: Outcome)
    ensures Label(reoffense, d) == Some(o) <==> reoffense == ConditionOf(o) && d == Some(DecisionOf(o))
  {
  }

  /** A record that can be labelled: it has a score and a recognised Re-offense value. */
  predicate Labelled(r: Record)
  {
    r.riskScore.Some? && (r.reoffense == CONDITION_POSITIVE || r.reoffense == CONDITION_NEGATIVE)
  }

  /** The outcome of a record at threshold `t`; present at every threshold or at none. */
  function Classify(r: Record, t: int): (o: Option<Outcome>)
    ensures o.Some? <==> Labelled(r)
  {
    Label(r.reoffense, Predict(r.riskScore, t))
  }

  // ---------------------------------------------------------------------------
  // Counting per (race, threshold, outcome)

  /** A row of the accumulated table: race, threshold, outcome. */
  datatype SweepKey = SweepKey(group: string, threshold: int, outcome: Outcome)

  predicate Matches(r: Record, k: SweepKey)
  {
    r.race == k.group && Classify(r, k.threshold) == Some(k.outcome)
  }

  /** Records of race `k.group` with outcome `k.outcome` at threshold `k.threshold`. */
  function Tally(recs: seq<Record>, k: SweepKey): nat
  {
    if recs == [] then 0
    else (if Matches(recs[0], k) then 1 else 0) + Tally(recs[1..], k)
  }

  lemma {:induction false} TallyPositive(recs: seq<Record>, k: SweepKey)
    ensures Tally(recs, k) > 0 <==> exists r :: r in recs && Matches(r, k)
  {
    if recs != [] {
      TallyPositive(recs[1..], k);
      assert forall r :: r in recs <==> r == recs[0] || r in recs[1..];
    }
  }

  lemma TallyPositiveAll(recs: seq<Record>)
    ensures forall k :: Tally(recs, k) > 0 <==> exists r :: r in recs && Matches(r, k)
  {
    forall k ensures Tally(recs, k) > 0 <==> exists r :: r in recs && Matches(r, k) {
      TallyPositive(recs, k);
    }
  }

  /**
   * One threshold's counts grouped by (race, outcome), with the threshold inserted:
   * exactly the non-empty combinations, each with its record count.
   */
  function GroupedAt(recs: seq<Record>, t: int): (g: map<SweepKey, nat>)
    ensures forall k :: k in g <==> k.threshold == t && Tally(recs, k) > 0
    ensures forall k :: k in g ==> g[k] == Tally(recs, k)
  {
    TallyPositiveAll(recs);
    var keys := set r | r in recs && Classify(r, t).Some? :: SweepKey(r.race, t, Classify(r, t).value);
    map k | k in keys :: Tally(recs, k)
  }

  // ---------------------------------------------------------------------------
  // Making the accumulator dense

  /** Some key of a non-empty set of keys. */
  ghost function Pick(ks: set<SweepKey>): (k: SweepKey)
    requires ks != {}
    ensures k in ks
  {
    var k :| k in ks; k
  }

  /**
   * The distinct values one column takes over a set of rows (a column's unique()).
   * It is defined by recursion rather than as a set comprehension on purpose: the
   * solver unfolds a comprehension, with its existential, wherever the set appears,
   * and that puts the densify and sweep proofs over the resource limit. The
   * comprehension form is the compiled `UniqueColumns`, proved equal to this one.
   */
  ghost function Column<T>(ks: set<SweepKey>, f: SweepKey -> T): set<T>
    decreases ks
  {
    if ks == {} then {}
    else
      var k := Pick(ks);
      {f(k)} + Column(ks - {k}, f)
  }

  lemma {:induction false} ColumnMembers<T>(ks: set<SweepKey>, f: SweepKey -> T)
    ensures forall y :: y in Column(ks, f) <==> exists k :: k in ks && f(k) == y
    decreases ks
  {
    if ks != {} {
      var k := Pick(ks);
      ColumnMembers(ks - {k}, f);
      forall y ensures y in Column(ks, f) <==> exists k' :: k' in ks && f(k') == y {
        if exists k' :: k' in ks && f(k') == y {
          var k' :| k' in ks && f(k') == y;
          if k' != k {
            assert k' in ks - {k};
          }
        }
      }
    }
  }

  function GroupOf(k: SweepKey): string { k.group }
  function ThresholdOf(k: SweepKey): int { k.threshold }
  function OutcomeOf(k: SweepKey): Outcome { k.outcome }

  /** The races, thresholds and outcomes present in a set of rows. */
  ghost function Groups(ks: set<SweepKey>): set<string> { Column(ks, GroupOf) }
  ghost function Thresholds(ks: set<SweepKey>): set<int> { Column(ks, ThresholdOf) }
  ghost function Outcomes(ks: set<SweepKey>): set<Outcome> { Column(ks, OutcomeOf) }

  lemma GroupsMembers(ks: set<SweepKey>)
    ensures forall g :: g in Groups(ks) <==> exists k :: k in ks && k.group == g
  {
    ColumnMembers(ks, GroupOf);
  }

  lemma ThresholdsMembers(ks: set<SweepKey>)
    ensures forall t :: t in Thresholds(ks) <==> exists k :: k in ks && k.threshold == t
  {
    ColumnMembers(ks, ThresholdOf);
  }

  lemma OutcomesMembers(ks: set<SweepKey>)
    ensures forall o :: o in Outcomes(ks) <==> exists k :: k in ks && k.outcome == o
  {
    ColumnMembers(ks, OutcomeOf);
  }

  /** The Cartesian product of races, thresholds and outcomes. */
  function Product(groups: set<string>, thresholds: set<int>, outcomes: set<Outcome>): (p: set<SweepKey>)
    ensures forall k :: k in p <==> k.group in groups && k.threshold in thresholds && k.outcome in outcomes
  {
    set g, t, o | g in groups && t in thresholds && o in outcomes :: SweepKey(g, t, o)
  }

  /**
   * `d` is `c` left-merged onto the product of the races, thresholds and outcomes
   * present in `c`, with the counts missing from `c` filled with 0.
   */
  ghost predicate IsDensified(c: map<SweepKey, nat>, d: map<SweepKey, nat>)
  {
    && d.Keys == Product(Groups(c.Keys), Thresholds(c.Keys), Outcomes(c.Keys))
    && forall k :: k in d ==> d[k] == if k in c then c[k] else 0
  }

  lemma ProductCoversKeys(c: map<SweepKey, nat>)
    ensures c.Keys <= Product(Groups(c.Keys), Thresholds(c.Keys), Outcomes(c.Keys))
  {
    GroupsMembers(c.Keys);
    ThresholdsMembers(c.Keys);
    OutcomesMembers(c.Keys);
  }

  /** Densifying keeps every row already present, with its count unchanged, and adds only zero rows. */
  lemma DensifyKeepsCounts(c: map<SweepKey, nat>, d: map<SweepKey, nat>)
    requires IsDensified(c, d)
    ensures c.Keys <= d.Keys
    ensures forall k :: k in c ==> d[k] == c[k]
    ensures forall k :: k in d && k !in c ==> d[k] == 0
  {
    ProductCoversKeys(c);
  }

  /** The unique() of the race, threshold and outcome columns of a set of rows. */
  method UniqueColumns(ks: set<SweepKey>) returns (groups: set<string>, thresholds: set<int>, outcomes: set<Outcome>)
    ensures groups == Groups(ks)
    ensures thresholds == Thresholds(ks)
    ensures outcomes == Outcomes(ks)
  {
    groups := set k | k in ks :: k.group;
    GroupsMembers(ks);
    forall g | g in Groups(ks) ensures g in groups {
      var k :| k in ks && k.group == g;
    }
    thresholds := set k | k in ks :: k.threshold;
    ThresholdsMembers(ks);
    forall t | t in Thresholds(ks) ensures t in thresholds {
      var k :| k in ks && k.threshold == t;
    }
    outcomes := set k | k in ks :: k.outcome;
    OutcomesMembers(ks);
    forall o | o in Outcomes(ks) ensures o in outcomes {
      var k :| k in ks && k.outcome == o;
    }
  }

  /**
   * The merge step of one iteration: the unique races, thresholds and outcomes of the
   * accumulated counts, their product as the index, and the counts left-merged onto
   * it with 0 for the missing ones.
   */
  method Densify(c: map<SweepKey, nat>) returns (d: map<SweepKey, nat>)
    ensures IsDensified(c, d)
    ensures c.Keys <= d.Keys
    ensures forall k :: k in c ==> d[k] == c[k]
    ensures forall k :: k in d && k !in c ==> d[k] == 0
  {
    var groups, thresholds, outcomes := UniqueColumns(c.Keys);
    var index := Product(groups, thresholds, outcomes);
    d := map k | k in index :: if k in c then c[k] else 0;
    DensifyKeepsCounts(c, d);
  }

  // ---------------------------------------------------------------------------
  // What the accumulator holds after `n` thresholds

  /** The races of the records that get an outcome. */
  ghost function LabelledGroups(recs: seq<Record>): set<string>
  {
    set r | r in recs && Labelled(r) :: r.race
  }

  /** Thresholds FIRST_THRESHOLD..n. */
  function ThresholdRange(n: int): (ts: set<int>)
    ensures forall t :: t in ts <==> FIRST_THRESHOLD <= t <= n
    decreases n - FIRST_THRESHOLD + 1
  {
    if n < FIRST_THRESHOLD then {} else ThresholdRange(n - 1) + {n}
  }

  /** Some record has outcome `o` at one of the thresholds FIRST_THRESHOLD..n. */
  ghost predicate OutcomeSeen(recs: seq<Record>, n: int, o: Outcome)
  {
    exists r, t :: r in recs && FIRST_THRESHOLD <= t <= n && Classify(r, t) == Some(o)
  }

  /** The outcomes observed at the thresholds FIRST_THRESHOLD..n. */
  ghost function SeenOutcomes(recs: seq<Record>, n: int): set<Outcome>
  {
    set o | o in {TP, FP, FN, TN} && OutcomeSeen(recs, n, o)
  }

  /**
   * The rows of the accumulator after the thresholds FIRST_THRESHOLD..n: every race
   * with a labelled record, every threshold swept, every outcome observed so far.
   */
  ghost function SweepDomain(recs: seq<Record>, n: int): set<SweepKey>
  {
    Product(LabelledGroups(recs), ThresholdRange(n), SeenOutcomes(recs, n))
  }

  /** The accumulator after n thresholds: its rows are the domain, each holding its exact count (0 if never observed). */
  ghost predicate IsSweepTable(recs: seq<Record>, acc: map<SweepKey, nat>, n: int)
  {
    && acc.Keys == SweepDomain(recs, n)
    && forall k :: k in acc ==> acc[k] == Tally(recs, k)
  }

  lemma SweepStart(recs: seq<Record>)
    ensures IsSweepTable(recs, map[], FIRST_THRESHOLD - 1)
  {
    assert SweepDomain(recs, FIRST_THRESHOLD - 1) == {};
  }

  /** The groups of the accumulator plus one threshold are the races with a labelled record. */
  lemma StepGroups(recs: seq<Record>, acc: map<SweepKey, nat>, n: int)
    requires n >= FIRST_THRESHOLD
    requires IsSweepTable(recs, acc, n - 1)
    ensures Groups((acc + GroupedAt(recs, n)).Keys) == LabelledGroups(recs)
  {
    var c := acc + GroupedAt(recs, n);
    TallyPositiveAll(recs);
    GroupsMembers(c.Keys);
    forall g | g in Groups(c.Keys) ensures g in LabelledGroups(recs) {
      var k :| k in c && k.group == g;
      if k !in acc {
        var r :| r in recs && Matches(r, k);
      }
    }
    forall g | g in LabelledGroups(recs) ensures g in Groups(c.Keys) {
      var r :| r in recs && Labelled(r) && r.race == g;
      var k := SweepKey(g, n, Classify(r, n).value);
      assert Matches(r, k);
      assert k in c;
    }
  }

  /** With a labelled record, the thresholds of the accumulator plus one threshold are FIRST_THRESHOLD..n. */
  lemma StepThresholds(recs: seq<Record>, acc: map<SweepKey, nat>, n: int)
    requires n >= FIRST_THRESHOLD
    requires IsSweepTable(recs, acc, n - 1)
    requires LabelledGroups(recs) != {}
    ensures Thresholds((acc + GroupedAt(recs, n)).Keys) == ThresholdRange(n)
  {
    var c := acc + GroupedAt(recs, n);
    TallyPositiveAll(recs);
    ThresholdsMembers(c.Keys);
    var g :| g in LabelledGroups(recs);
    var r :| r in recs && Labelled(r) && r.race == g;
    forall t | t in Thresholds(c.Keys) ensures t in ThresholdRange(n) {
      var k :| k in c && k.threshold == t;
      if k in acc {
        assert k in SweepDomain(recs, n - 1);
      }
    }
    forall t | t in ThresholdRange(n) ensures t in Thresholds(c.Keys) {
      var k := SweepKey(g, t, Classify(r, t).value);
      assert Matches(r, k);
      if t < n {
        assert OutcomeSeen(recs, n - 1, k.outcome);
        assert k in SweepDomain(recs, n - 1);
      }
      assert k in c;
    }
  }

  /** The outcomes of the accumulator plus one threshold are the outcomes seen up to that threshold. */
  lemma StepOutcomes(recs: seq<Record>, acc: map<SweepKey, nat>, n: int)
    requires n >= FIRST_THRESHOLD
    requires IsSweepTable(recs, acc, n - 1)
    ensures Outcomes((acc + GroupedAt(recs, n)).Keys) == SeenOutcomes(recs, n)
  {
    var c := acc + GroupedAt(recs, n);
    TallyPositiveAll(recs);
    OutcomesMembers(c.Keys);
    forall o | o in Outcomes(c.Keys) ensures o in SeenOutcomes(recs, n) {
      var k :| k in c && k.outcome == o;
      if k in acc {
        assert o in SeenOutcomes(recs, n - 1);
        var r, t :| r in recs && FIRST_THRESHOLD <= t <= n - 1 && Classify(r, t) == Some(o);
        assert OutcomeSeen(recs, n, o);
      } else {
        var r :| r in recs && Matches(r, k);
        assert OutcomeSeen(recs, n, o);
      }
    }
    forall o | o in SeenOutcomes(recs, n) ensures o in Outcomes(c.Keys) {
      var r, t :| r in recs && FIRST_THRESHOLD <= t <= n && Classify(r, t) == Some(o);
      var k := SweepKey(r.race, t, o);
      assert Matches(r, k);
      if t < n {
        assert OutcomeSeen(recs, n - 1, o);
        assert k in SweepDomain(recs, n - 1);
      }
      assert k in c;
    }
  }

  /** The product the accumulator is densified onto after threshold n is the sweep domain for n. */
  lemma StepKeys(recs: seq<Record>, acc: map<SweepKey, nat>, n: int)
    requires n >= FIRST_THRESHOLD
    requires IsSweepTable(recs, acc, n - 1)
    ensures
      var c := acc + GroupedAt(recs, n);
      Product(Groups(c.Keys), Thresholds(c.Keys), Outcomes(c.Keys)) == SweepDomain(recs, n)
  {
    var c := acc + GroupedAt(recs, n);
    StepGroups(recs, acc, n);
    StepOutcomes(recs, acc, n);
    if LabelledGroups(recs) != {} {
      StepThresholds(recs, acc, n);
    } else {
      assert Product(Groups(c.Keys), Thresholds(c.Keys), Outcomes(c.Keys)) == {};
      assert SweepDomain(recs, n) == {};
    }
  }

  /** Every row of the domain with a non-zero count is present once threshold n's counts are appended. */
  lemma StepCovers(recs: seq<Record>, acc: map<SweepKey, nat>, n: int)
    requires n >= FIRST_THRESHOLD
    requires IsSweepTable(recs, acc, n - 1)
    ensures forall k :: k in SweepDomain(recs, n) && Tally(recs, k) > 0 ==> k in acc + GroupedAt(recs, n)
  {
    TallyPositiveAll(recs);
    forall k | k in SweepDomain(recs, n) && Tally(recs, k) > 0 ensures k in acc + GroupedAt(recs, n) {
      var r :| r in recs && Matches(r, k);
      if k.threshold < n {
        assert OutcomeSeen(recs, n - 1, k.outcome);
        assert k in SweepDomain(recs, n - 1);
      }
    }
  }

  /** Appending threshold n's counts adds new rows only, and every row holds its exact count. */
  lemma StepMerged(recs: seq<Record>, acc: map<SweepKey, nat>, n: int)
    requires n >= FIRST_THRESHOLD
    requires IsSweepTable(recs, acc, n - 1)
    ensures acc.Keys !! GroupedAt(recs, n).Keys
    ensures forall k :: k in acc + GroupedAt(recs, n) ==> (acc + GroupedAt(recs, n))[k] == Tally(recs, k)
  {
  }

  /**
   * One iteration of the sweep: appending threshold n's grouped counts (rows disjoint
   * from those already present) and densifying yields the accumulator after n thresholds.
   */
  lemma SweepStep(recs: seq<Record>, acc: map<SweepKey, nat>, n: int, d: map<SweepKey, nat>)
    requires n >= FIRST_THRESHOLD
    requires IsSweepTable(recs, acc, n - 1)
    requires IsDensified(acc + GroupedAt(recs, n), d)
    ensures acc.Keys !! GroupedAt(recs, n).Keys
    ensures IsSweepTable(recs, d, n)
  {
    var c := acc + GroupedAt(recs, n);
    StepKeys(recs, acc, n);
    StepCovers(recs, acc, n);
    StepMerged(recs, acc, n);
    forall k | k in d ensures d[k] == Tally(recs, k) {
      if k !in c {
        assert k in SweepDomain(recs, n);
      }
    }
  }

  /**
   * One pass of the threshold loop: classify every record at threshold `t`, group the
   * counts, append them to the accumulator and densify it.
   */
  method SweepThreshold(recs: seq<Record>, acc: map<SweepKey, nat>, t: int) returns (next: map<SweepKey, nat>)
    requires t >= FIRST_THRESHOLD
    requires IsSweepTable(recs, acc, t - 1)
    ensures IsSweepTable(recs, next, t)
  {
    var grouped := GroupedAt(recs, t);
    next := Densify(acc + grouped);
    SweepStep(recs, acc, t, next);
  }

  /**
   * The sweep over the thresholds 1..10. After every iteration the accumulator has
   * exactly one row per (race, threshold, outcome) of the product of the values seen
   * so far, each holding its exact count, 0 for combinations never observed; on
   * return that is the product for all ten thresholds.
   */
  method ThresholdSweep(recs: seq<Record>) returns (acc: map<SweepKey, nat>)
    ensures acc.Keys == SweepDomain(recs, LAST_THRESHOLD)
    ensures forall k :: k in acc ==> acc[k] == Tally(recs, k)
  {
    acc := map[];
    SweepStart(recs);
    var i := FIRST_THRESHOLD;
    while i <= LAST_THRESHOLD
      invariant FIRST_THRESHOLD <= i <= LAST_THRESHOLD + 1
      invariant IsSweepTable(recs, acc, i - 1)
    {
      acc := SweepThreshold(recs, acc, i);
      i := i + 1;
    }
  }

  // ---------------------------------------------------------------------------
  // Properties of the counts at one threshold

  /** Records of race `g` that have a score and the Re-offense value `v`. */
  function ScoredWith(recs: seq<Record>, g: string, v: string): nat
  {
    if recs == [] then 0
    else
      var r := recs[0];
      (if r.race == g && r.riskScore.Some? && r.reoffense == v then 1 else 0) + ScoredWith(recs[1..], g, v)
  }

  /**
   * At any threshold, a race's TP and FN rows together count its scored "Yes" records,
   * and its FP and TN rows its scored "No" records: every such record is counted once.
   */
  lemma {:induction false} ConditionPartition(recs: seq<Record>, g: string, t: int)
    ensures Tally(recs, SweepKey(g, t, TP)) + Tally(recs, SweepKey(g, t, FN)) == ScoredWith(recs, g, CONDITION_POSITIVE)
    ensures Tally(recs, SweepKey(g, t, FP)) + Tally(recs, SweepKey(g, t, TN)) == ScoredWith(recs, g, CONDITION_NEGATIVE)
  {
    if recs != [] {
      ConditionPartition(recs[1..], g, t);
    }
  }

  /**
   * Raising the threshold never adds a "Denied": the TP and FP counts of a race can only
   * fall, and its FN and TN counts can only rise.
   */
  lemma {:induction false} RaisingThresholdGrantsMore(recs: seq<Record>, g: string, t: int, t': int)
    requires t <= t'
    ensures Tally(recs, SweepKey(g, t', TP)) <= Tally(recs, SweepKey(g, t, TP))
    ensures Tally(recs, SweepKey(g, t', FP)) <= Tally(recs, SweepKey(g, t, FP))
    ensures Tally(recs, SweepKey(g, t, FN)) <= Tally(recs, SweepKey(g, t', FN))
    ensures Tally(recs, SweepKey(g, t, TN)) <= Tally(recs, SweepKey(g, t', TN))
  {
    if recs != [] {
      RaisingThresholdGrantsMore(recs[1..], g, t, t');
      PredictMonotone(recs[0].riskScore, t, t');
    }
  }

  /** With every score at least 1, the first threshold denies everyone: no FN and no TN row counts anything. */
  lemma {:induction false} FirstThresholdDeniesAll(recs: seq<Record>, g: string)
    requires forall r :: r in recs && r.riskScore.Some? ==> r.riskScore.value >= FIRST_THRESHOLD
    ensures Tally(recs, SweepKey(g, FIRST_THRESHOLD, FN)) == 0
    ensures Tally(recs, SweepKey(g, FIRST_THRESHOLD, TN)) == 0
  {
    if recs != [] {
      assert recs[0] in recs;
      FirstThresholdDeniesAll(recs[1..], g);
    }
  }

  /** Records that get an outcome. */
  function LabelledCount(recs: seq<Record>): nat
  {
    if recs == [] then 0
    else (if Labelled(recs[0]) then 1 else 0) + LabelledCount(recs[1..])
  }

  /** The four outcome counts of race `g` at threshold `t`. */
  function GroupTotal(recs: seq<Record>, g: string, t: int): nat
  {
    Tally(recs, SweepKey(g, t, TP)) + Tally(recs, SweepKey(g, t, FP)) +
    Tally(recs, SweepKey(g, t, FN)) + Tally(recs, SweepKey(g, t, TN))
  }

  /** The outcome counts at threshold `t`, summed over the races `gs`. */
  function ThresholdTotal(recs: seq<Record>, gs: seq<string>, t: int): nat
  {
    if gs == [] then 0 else GroupTotal(recs, gs[0], t) + ThresholdTotal(recs, gs[1..], t)
  }

  /** Splitting off the first record: it adds one to the total exactly when it is labelled and its race is listed. */
  lemma {:induction false} ThresholdTotalHead(recs: seq<Record>, gs: seq<string>, t: int)
    requires recs != [] && Distinct(gs)
    ensures ThresholdTotal(recs, gs, t) ==
      (if Labelled(recs[0]) && recs[0].race in gs then 1 else 0) + ThresholdTotal(recs[1..], gs, t)
  {
    if gs != [] {
      DistinctTail(gs);
      ThresholdTotalHead(recs, gs[1..], t);
      assert recs[0].race in gs <==> recs[0].race == gs[0] || recs[0].race in gs[1..];
    }
  }

  /**
   * At one threshold, the counts of all rows for the listed races sum to the number of
   * labelled records, when the list names every race that has a labelled record once.
   */
  lemma {:induction false} ThresholdTotalIsLabelled(recs: seq<Record>, gs: seq<string>, t: int)
    requires Distinct(gs)
    requires forall r :: r in recs && Labelled(r) ==> r.race in gs
    ensures ThresholdTotal(recs, gs, t) == LabelledCount(recs)
  {
    if recs == [] {
      ThresholdTotalEmpty(gs, t);
    } else {
      ThresholdTotalHead(recs, gs, t);
      assert recs[0] in recs;
      ThresholdTotalIsLabelled(recs[1..], gs, t);
    }
  }

  lemma {:induction false} ThresholdTotalEmpty(gs: seq<string>, t: int)
    ensures ThresholdTotal([], gs, t) == 0
  {
    if gs != [] {
      ThresholdTotalEmpty(gs[1..], t);
    }
  }

  /**
   * When no labelled record has re-offended, "Yes"-side rows (TP, FN) never enter the
   * table: the zero-fill ranges over the outcomes observed, not over all four.
   */
  lemma NoYesRowsWithoutYesRecords(recs: seq<Record>, n: int)
    requires forall r :: r in recs && Labelled(r) ==> r.reoffense == CONDITION_NEGATIVE
    ensures forall k :: k in SweepDomain(recs, n) ==> k.outcome == FP || k.outcome == TN
  {
    forall k | k in SweepDomain(recs, n) ensures k.outcome == FP || k.outcome == TN {
      var r, t :| r in recs && FIRST_THRESHOLD <= t <= n && Classify(r, t) == Some(k.outcome);
    }
  }
}
