/**
 * The unified table of criminal-justice records and the column vocabulary
 * the analyses use: which columns exist, how a column reads off a record,
 * and the row key a record gets for a list of key columns.
 */
module Records {
  import opened Wrappers

  /** One row of the unified table, the concatenation of every input file. */
  datatype Record = Record(
    county: string,
    race: string,
    gender: string,
    educationLevel: string,
    riskScore: Option<int>,   // None is a missing (NaN) score
    judgeDecision: string,
    reoffense: string)

  /** The columns of the unified table that an analysis can key on. */
  datatype Field = County | Race | Gender | EducationLevel | RiskScore | JudgeDecision | Reoffense

  /** A cell of the table: categorical text, or the integer risk score. */
  datatype Value = Text(text: string) | Num(num: int)

  /** Labels of the ground-truth condition (Re-offense) and of a bail decision. */
  const CONDITION_POSITIVE := "Yes"
  const CONDITION_NEGATIVE := "No"
  const PREDICTION_POSITIVE := "Denied"
  const PREDICTION_NEGATIVE := "Granted"

  /** The column header as it is spelled in the input files and in sheet names. */
  function FieldName(f: Field): (name: string)
    ensures |name| > 0
  {
    match f
    case County => "County"
    case Race => "Race"
    case Gender => "Gender"
    case EducationLevel => "Education Level"
    case RiskScore => "Risk Score"
    case JudgeDecision => "Judge Decision"
    case Reoffense => "Re-offense"
  }

  /** The value a record holds in a column; only the risk score can be missing. */
  function FieldValue(r: Record, f: Field): (v: Option<Value>)
    ensures v.None? <==> f == RiskScore && r.riskScore.None?
    ensures f != RiskScore ==> v.Some? && v.value.Text?
  {
    match f
    case County => Some(Text(r.county))
    case Race => Some(Text(r.race))
    case Gender => Some(Text(r.gender))
    case EducationLevel => Some(Text(r.educationLevel))
    case RiskScore => if r.riskScore.Some? then Some(Num(r.riskScore.value)) else None
    case JudgeDecision => Some(Text(r.judgeDecision))
    case Reoffense => Some(Text(r.reoffense))
  }

  /**
   * The row key of a record for a list of key columns: the values in those
   * columns, in order, or None when one of them is missing (a grouping drops
   * such a record).
   */
  function KeyOf(r: Record, fields: seq<Field>): (k: Option<seq<Value>>)
    ensures k.Some? <==> forall i :: 0 <= i < |fields| ==> FieldValue(r, fields[i]).Some?
    ensures k.Some? ==> |k.value| == |fields|
    ensures k.Some? ==> forall i :: 0 <= i < |fields| ==> FieldValue(r, fields[i]) == Some(k.value[i])
    decreases |fields|
  {
    if fields == [] then Some([])
    else
      var rest := KeyOf(r, fields[1..]);
      match FieldValue(r, fields[0])
      case None => None
      case Some(v) =>
        if rest.None? then None
        else
          assert forall i :: 1 <= i < |fields| ==> fields[i] == fields[1..][i - 1];
          Some([v] + rest.value)
  }

  /** The elements of `xs` are pairwise distinct. */
  ghost predicate Distinct<T>(xs: seq<T>)
  {
    forall i, j :: 0 <= i < j < |xs| ==> xs[i] != xs[j]
  }

  /** Dropping the head of a list without repeats leaves a list without repeats that does not hold the head. */
  lemma DistinctTail<T>(xs: seq<T>)
    requires xs != [] && Distinct(xs)
    ensures Distinct(xs[1..]) && xs[0] !in xs[1..]
  {
    forall j | 0 <= j < |xs[1..]| ensures xs[1..][j] != xs[0] { assert xs[1..][j] == xs[j + 1]; }
  }

  /** Appending a new element to a list without repeats keeps it without repeats. */
  lemma DistinctSnoc<T>(xs: seq<T>, x: T)
    requires Distinct(xs) && x !in xs
    ensures Distinct(xs + [x])
  {
    forall i, j | 0 <= i < j < |xs + [x]| ensures (xs + [x])[i] != (xs + [x])[j] {
      if j == |xs| { assert (xs + [x])[i] == xs[i]; }
    }
  }
}
