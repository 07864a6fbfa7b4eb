/**
 * Generating and exporting the count cross-tabulations of one analysis topic:
 * one sheet per column key, or, with a nested row key list, one sheet per
 * nested key named after it. The loop rebinds the row-key list as it goes,
 * and `Plan` follows it column key by column key. A run stops, raising, at the
 * first cross-tabulation whose row keys name some column twice.
 */
module Report {
  import opened Wrappers
  import opened Records
  import opened CrossTab

  /** One sheet written to the workbook: its name and the table it holds. */
  datatype Sheet = Sheet(name: string, table: Table)

  /** One cross-tabulation to run: the sheet it goes to, its row-key columns and its column key. */
  datatype Step = Step(sheet: string, rows: seq<Field>, col: Field)

  /** The sheet name `topic_<column header>`. */
  function SheetName(topic: string, f: Field): (name: string)
    ensures name == topic + "_" + FieldName(f)
    ensures |name| > |topic| + 1 && name[|topic|] == '_'
  {
    topic + "_" + FieldName(f)
  }

  /** Within one topic, distinct column keys get distinct sheet names, so no sheet of the topic replaces another. */
  lemma SheetNameInjective(topic: string, f: Field, g: Field)
    ensures SheetName(topic, f) == SheetName(topic, g) <==> f == g
  {
    if SheetName(topic, f) == SheetName(topic, g) {
      assert FieldName(f) == SheetName(topic, f)[|topic| + 1..];
      assert FieldName(g) == SheetName(topic, g)[|topic| + 1..];
    }
  }

  /** The nested loop for one column key: one step per nested key `j`, keyed by `ind + [j]`. */
  function NestedSteps(topic: string, ind: seq<Field>, nested: seq<Field>, c: Field): (steps: seq<Step>)
    ensures |steps| == |nested|
  {
    if nested == [] then []
    else
      var n := |nested| - 1;
      NestedSteps(topic, ind, nested[..n], c) + [Step(SheetName(topic, nested[n]), ind + [nested[n]], c)]
  }

  /** The `k`-th nested step is keyed by the base list plus the `k`-th nested key, and named after it. */
  lemma {:induction false} NestedStepAt(topic: string, ind: seq<Field>, nested: seq<Field>, c: Field, k: nat)
    requires k < |nested|
    ensures NestedSteps(topic, ind, nested, c)[k] == Step(SheetName(topic, nested[k]), ind + [nested[k]], c)
  {
    var n := |nested| - 1;
    if k < n {
      NestedStepAt(topic, ind, nested[..n], c, k);
    }
  }

  /** The row-key list as one column key leaves it: unchanged, or rebound to end in the last nested key. */
  function KeysAfter(keys: seq<Field>, nested: Option<seq<Field>>): seq<Field>
  {
    match nested
    case None => keys
    case Some(js) => if js == [] then keys else keys + [js[|js| - 1]]
  }

  /** The steps one column key `c` runs from the row-key list `keys`. */
  function ColumnSteps(topic: string, keys: seq<Field>, nested: Option<seq<Field>>, c: Field): seq<Step>
  {
    match nested
    case None => [Step(SheetName(topic, c), keys, c)]
    case Some(js) => NestedSteps(topic, keys, js, c)
  }

  /**
   * The steps the column keys `columns` run from the row-key list `keys`: the first
   * column key's steps, then the rest from the row-key list as that column key left it.
   */
  function PlanFrom(topic: string, keys: seq<Field>, nested: Option<seq<Field>>, columns: seq<Field>): seq<Step>
    decreases |columns|
  {
    if columns == [] then []
    else ColumnSteps(topic, keys, nested, columns[0]) + PlanFrom(topic, KeysAfter(keys, nested), nested, columns[1..])
  }

  /** Every cross-tabulation one call runs, in order. */
  function Plan(topic: string, base: seq<Field>, nested: Option<seq<Field>>, columns: seq<Field>): seq<Step>
  {
    PlanFrom(topic, base, nested, columns)
  }

  /** The sheets the steps write. */
  function Realize(recs: seq<Record>, steps: seq<Step>): (sheets: seq<Sheet>)
    ensures |sheets| == |steps|
  {
    if steps == [] then []
    else
      var n := |steps| - 1;
      Realize(recs, steps[..n]) + [Sheet(steps[n].sheet, CountTable(recs, steps[n].rows, steps[n].col))]
  }

  lemma RealizeAppend(recs: seq<Record>, steps: seq<Step>, s: Step)
    ensures Realize(recs, steps + [s]) == Realize(recs, steps) + [Sheet(s.sheet, CountTable(recs, s.rows, s.col))]
  {
    assert (steps + [s])[..|steps|] == steps;
  }

  /**
   * How a call ends: returning the last table it built, failing on `return table`
   * because no table was ever bound, or raising at `reset_index` on the step whose
   * row-key list names a column twice.
   */
  datatype Ending = Returned(table: Table) | Unbound | RepeatedKey(step: Step)

  /** The ending of a call in which every step ran: the last table written, or Unbound when there was none. */
  function Finished(sheets: seq<Sheet>): (e: Ending)
    ensures e == Unbound <==> sheets == []
    ensures e.Returned? ==> e.table == sheets[|sheets| - 1].table
  {
    if sheets == [] then Unbound else Returned(sheets[|sheets| - 1].table)
  }

  /** Whether a row-key list names some column twice. */
  predicate HasRepeat(rows: seq<Field>)
  {
    rows != [] && (rows[0] in rows[1..] || HasRepeat(rows[1..]))
  }

  /** `HasRepeat` is the compiled test for a list with repeats. */
  lemma {:induction false} HasRepeatIsNotDistinct(rows: seq<Field>)
    ensures HasRepeat(rows) <==> !Distinct(rows)
  {
    if rows != [] {
      HasRepeatIsNotDistinct(rows[1..]);
      if Distinct(rows) {
        DistinctTail(rows);
      }
    }
  }

  /**
   * The position of the first step at or after `k` whose row-key list names a column
   * twice (the cross-tabulation then has two index levels of the same name, and
   * `reset_index` raises), or |steps| when there is none.
   */
  function FirstRepeatFrom(steps: seq<Step>, k: nat): (i: nat)
    requires k <= |steps|
    ensures k <= i <= |steps|
    decreases |steps| - k
  {
    if k == |steps| then k
    else if HasRepeat(steps[k].rows) then k
    else FirstRepeatFrom(steps, k + 1)
  }

  /** The step at which a run of `steps` raises, or |steps| when it runs to the end. */
  function FirstRepeat(steps: seq<Step>): nat
  {
    FirstRepeatFrom(steps, 0)
  }

  /** Every step before `FirstRepeat` has distinct row keys, and the step at it (if any) names a column twice. */
  lemma {:induction false} FirstRepeatMeans(steps: seq<Step>, k: nat)
    requires k <= |steps|
    ensures var i := FirstRepeatFrom(steps, k);
      && (forall q :: k <= q < i ==> Distinct(steps[q].rows))
      && (i < |steps| ==> !Distinct(steps[i].rows))
    decreases |steps| - k
  {
    if k < |steps| {
      HasRepeatIsNotDistinct(steps[k].rows);
      if !HasRepeat(steps[k].rows) {
        FirstRepeatMeans(steps, k + 1);
      }
    }
  }

  /** Scanning `a + b` from inside `b` is scanning `b`, shifted by |a|. */
  lemma {:induction false} FirstRepeatShift(a: seq<Step>, b: seq<Step>, q: nat)
    requires q <= |b|
    ensures FirstRepeatFrom(a + b, |a| + q) == |a| + FirstRepeatFrom(b, q)
    decreases |b| - q
  {
    if q < |b| {
      assert (a + b)[|a| + q] == b[q];
      FirstRepeatShift(a, b, q + 1);
    }
  }

  lemma {:induction false} FirstRepeatAppendFrom(a: seq<Step>, b: seq<Step>, k: nat)
    requires k <= |a|
    ensures FirstRepeatFrom(a, k) < |a| ==> FirstRepeatFrom(a + b, k) == FirstRepeatFrom(a, k)
    ensures FirstRepeatFrom(a, k) == |a| ==> FirstRepeatFrom(a + b, k) == |a| + FirstRepeat(b)
    decreases |a| - k
  {
    if k < |a| {
      assert (a + b)[k] == a[k];
      FirstRepeatAppendFrom(a, b, k + 1);
    } else {
      FirstRepeatShift(a, b, 0);
    }
  }

  /** Running `a` then `b`: a repeat inside `a` stops the run there; otherwise the run goes on into `b`. */
  lemma FirstRepeatAppend(a: seq<Step>, b: seq<Step>)
    ensures FirstRepeat(a) < |a| ==> FirstRepeat(a + b) == FirstRepeat(a)
    ensures FirstRepeat(a) == |a| ==> FirstRepeat(a + b) == |a| + FirstRepeat(b)
  {
    FirstRepeatAppendFrom(a, b, 0);
  }

  /**
   * A clean run `done` that wrote `sheets`, then the steps `ns` of one column key,
   * which wrote `written` and hold a repeat: the whole run stops inside `ns`.
   */
  lemma RunStops(recs: seq<Record>, plan: seq<Step>, done: seq<Step>, ns: seq<Step>, rest: seq<Step>, sheets: seq<Sheet>, written: seq<Sheet>)
    requires plan == done + (ns + rest) && FirstRepeat(done) == |done| && FirstRepeat(ns) < |ns|
    requires sheets == Realize(recs, done) && written == Realize(recs, ns[..FirstRepeat(ns)])
    ensures var f := FirstRepeat(plan);
      && f < |plan| && sheets + written == Realize(recs, plan[..f]) && plan[f] == ns[FirstRepeat(ns)]
  {
    FirstRepeatAppend(ns, rest);
    FirstRepeatAppend(done, ns + rest);
    var i := FirstRepeat(ns);
    assert plan[..|done| + i] == done + ns[..i];
    RealizeConcat(recs, done, ns[..i]);
  }

  /**
   * A clean run `done` that wrote `sheets`, then the steps `ns` of one column key,
   * which wrote `written` and hold no repeat: the run so far is `done + ns`, still clean.
   */
  lemma RunGoesOn(recs: seq<Record>, plan: seq<Step>, done: seq<Step>, ns: seq<Step>, rest: seq<Step>, sheets: seq<Sheet>, written: seq<Sheet>)
    requires plan == done + (ns + rest) && FirstRepeat(done) == |done| && FirstRepeat(ns) == |ns|
    requires sheets == Realize(recs, done) && written == Realize(recs, ns[..FirstRepeat(ns)])
    ensures plan == (done + ns) + rest && FirstRepeat(done + ns) == |done + ns|
    ensures sheets + written == Realize(recs, done + ns)
  {
    FirstRepeatAppend(done, ns);
    assert ns[..|ns|] == ns;
    RealizeConcat(recs, done, ns);
  }

  /** A clean run that covers the whole plan ends with every sheet of the plan written. */
  lemma RunEnds(recs: seq<Record>, plan: seq<Step>, sheets: seq<Sheet>)
    requires FirstRepeat(plan) == |plan| && sheets == Realize(recs, plan)
    ensures sheets == Realize(recs, plan[..FirstRepeat(plan)])
  {
    assert plan[..|plan|] == plan;
  }

  /** The run stops at step `q` when its row keys repeat a column and no earlier step's do. */
  lemma {:induction false} FirstRepeatAt(steps: seq<Step>, k: nat, q: nat)
    requires k <= q < |steps| && HasRepeat(steps[q].rows)
    ensures FirstRepeatFrom(steps, k) <= q
    ensures (forall p :: k <= p < q ==> !HasRepeat(steps[p].rows)) ==> FirstRepeatFrom(steps, k) == q
    decreases q - k
  {
    if k < q {
      FirstRepeatAt(steps, k + 1, q);
    }
  }

  /** One more step written after the first `k`: the sheets of the first `k + 1`. */
  lemma RealizeNext(recs: seq<Record>, steps: seq<Step>, k: nat, sheets: seq<Sheet>)
    requires k < |steps| && sheets == Realize(recs, steps[..k])
    ensures sheets + [Sheet(steps[k].sheet, CountTable(recs, steps[k].rows, steps[k].col))] == Realize(recs, steps[..k + 1])
  {
    assert steps[..k + 1] == steps[..k] + [steps[k]];
    RealizeAppend(recs, steps[..k], steps[k]);
  }

  lemma {:induction false} RealizeConcat(recs: seq<Record>, a: seq<Step>, b: seq<Step>)
    ensures Realize(recs, a + b) == Realize(recs, a) + Realize(recs, b)
    decreases |b|
  {
    if b == [] {
      assert a + b == a;
    } else {
      var n := |b| - 1;
      assert a + b == (a + b[..n]) + [b[n]];
      RealizeAppend(recs, a + b[..n], b[n]);
      RealizeConcat(recs, a, b[..n]);
      RealizeAppend(recs, b[..n], b[n]);
      assert b[..n] + [b[n]] == b;
    }
  }

  /**
   * The nested loop for one column key `c`: for each nested key `j`, the row-key
   * list is rebound to `ind + [j]` and one sheet named after `j` is written. Stops,
   * returning the failing step, at the first row-key list that names a column twice.
   * Returns the sheets written and the row-key list as the loop leaves it.
   */
  method ExportNested(topic: string, recs: seq<Record>, ind: seq<Field>, js: seq<Field>, c: Field)
    returns (sheets: seq<Sheet>, keys: seq<Field>, failed: Option<Step>)
    ensures var steps := NestedSteps(topic, ind, js, c); var i := FirstRepeat(steps);
      && sheets == Realize(recs, steps[..i])
      && (failed.Some? <==> i < |steps|)
      && (failed.Some? ==> failed.value == steps[i])
    ensures failed.None? ==> keys == if js == [] then ind else ind + [js[|js| - 1]]
  {
    ghost var steps := NestedSteps(topic, ind, js, c);
    sheets := [];
    keys := ind;
    failed := None;
    var k := 0;
    while k < |js|
      invariant 0 <= k <= |js|
      invariant FirstRepeat(steps) == FirstRepeatFrom(steps, k)
      invariant sheets == Realize(recs, steps[..k])
      invariant keys == if k == 0 then ind else ind + [js[k - 1]]
    {
      var j := js[k];
      var sheet := SheetName(topic, j);
      keys := ind + [j];
      NestedStepAt(topic, ind, js, c, k);
      if HasRepeat(keys) {
        assert steps[k].rows == keys;
        assert FirstRepeatFrom(steps, k) == k;
        failed := Some(Step(sheet, keys, c));
        return;
      }
      RealizeNext(recs, steps, k, sheets);
      sheets := sheets + [Sheet(sheet, CountTable(recs, keys, c))];
      k := k + 1;
    }
    assert steps[..|js|] == steps;
  }

  /**
   * One pass of the loop over the column keys, for column key `c` from the row-key
   * list `keys`: one sheet `topic_<c>` without a nested list, or the nested loop.
   * Stops at the first step whose row keys name a column twice.
   */
  method ExportColumn(topic: string, recs: seq<Record>, keys: seq<Field>, nested: Option<seq<Field>>, c: Field)
    returns (written: seq<Sheet>, keys': seq<Field>, failed: Option<Step>)
    ensures var steps := ColumnSteps(topic, keys, nested, c); var i := FirstRepeat(steps);
      && written == Realize(recs, steps[..i])
      && (failed.Some? <==> i < |steps|)
      && (failed.Some? ==> failed.value == steps[i])
    ensures failed.None? ==> keys' == KeysAfter(keys, nested)
  {
    match nested {
      case None =>
        var step := Step(SheetName(topic, c), keys, c);
        ghost var steps := [step];
        keys' := keys;
        if HasRepeat(keys) {
          assert FirstRepeatFrom(steps, 0) == 0;
          written, failed := [], Some(step);
        } else {
          assert FirstRepeatFrom(steps, 0) == 1;
          RealizeAppend(recs, [], step);
          assert [] + [step] == steps[..1];
          written, failed := [Sheet(step.sheet, CountTable(recs, keys, c))], None;
        }
      case Some(js) =>
        written, keys', failed := ExportNested(topic, recs, keys, js, c);
    }
  }

  /**
   * Runs the count cross-tabulation of `recs` for each column key in `columns`
   * (and, when `nested` is given, for each nested row key), writing one sheet
   * per run. Returns the sheets in the order written and how the call ended: it
   * stops at the first step whose row keys name a column twice, and otherwise
   * returns the last table, or fails on an unbound table when nothing ran.
   */
  method TableGenerateExport(topic: string, recs: seq<Record>, index: seq<Field>, nested: Option<seq<Field>>, columns: seq<Field>)
    returns (sheets: seq<Sheet>, ending: Ending)
    ensures var plan := Plan(topic, index, nested, columns); var i := FirstRepeat(plan);
      && sheets == Realize(recs, plan[..i])
      && (i < |plan| ==> ending == RepeatedKey(plan[i]))
      && (i == |plan| ==> ending == Finished(sheets))
  {
    ghost var plan := Plan(topic, index, nested, columns);
    var keys := index;
    sheets := [];
    var m := 0;
    ghost var done: seq<Step> := [];
    while m < |columns|
      invariant 0 <= m <= |columns|
      invariant plan == done + PlanFrom(topic, keys, nested, columns[m..])
      invariant FirstRepeat(done) == |done|
      invariant sheets == Realize(recs, done)
    {
      ghost var ns := ColumnSteps(topic, keys, nested, columns[m]);
      ghost var rest := PlanFrom(topic, KeysAfter(keys, nested), nested, columns[m + 1..]);
      assert columns[m..][1..] == columns[m + 1..];
      assert PlanFrom(topic, keys, nested, columns[m..]) == ns + rest;
      var written, failed;
      written, keys, failed := ExportColumn(topic, recs, keys, nested, columns[m]);
      if failed.Some? {
        RunStops(recs, plan, done, ns, rest, sheets, written);
        sheets := sheets + written;
        ending := RepeatedKey(failed.value);
        return;
      }
      RunGoesOn(recs, plan, done, ns, rest, sheets, written);
      sheets := sheets + written;
      done := done + ns;
      m := m + 1;
    }
    assert PlanFrom(topic, keys, nested, columns[m..]) == [];
    assert plan == done;
    RunEnds(recs, plan, sheets);
    ending := Finished(sheets);
  }

  // ---------------------------------------------------------------------------
  // What the plan is, column key by column key

  /** Without a nested list: one sheet per column key, named `topic_<column>`, keyed by the base keys. */
  lemma {:induction false} PlanFlat(topic: string, base: seq<Field>, columns: seq<Field>)
    ensures |Plan(topic, base, None, columns)| == |columns|
    ensures forall i :: 0 <= i < |columns| ==>
      Plan(topic, base, None, columns)[i] == Step(SheetName(topic, columns[i]), base, columns[i])
    decreases |columns|
  {
    if columns != [] {
      PlanFlat(topic, base, columns[1..]);
      var tail := Plan(topic, base, None, columns[1..]);
      assert Plan(topic, base, None, columns) == [Step(SheetName(topic, columns[0]), base, columns[0])] + tail;
      forall i | 0 <= i < |columns|
        ensures Plan(topic, base, None, columns)[i] == Step(SheetName(topic, columns[i]), base, columns[i])
      {
        if i > 0 {
          assert columns[1..][i - 1] == columns[i];
        }
      }
    }
  }

  /**
   * With a nested list and a single column key (every nested call in the script):
   * one sheet per nested key `j`, named `topic_<j>`, keyed by the base keys plus `j`.
   */
  lemma PlanNestedSingleColumn(topic: string, base: seq<Field>, js: seq<Field>, c: Field)
    ensures |Plan(topic, base, Some(js), [c])| == |js|
    ensures forall k :: 0 <= k < |js| ==>
      Plan(topic, base, Some(js), [c])[k] == Step(SheetName(topic, js[k]), base + [js[k]], c)
  {
    assert [c][1..] == [];
    assert PlanFrom(topic, KeysAfter(base, Some(js)), Some(js), []) == [];
    assert Plan(topic, base, Some(js), [c]) == NestedSteps(topic, base, js, c) + [];
    forall k | 0 <= k < |js|
      ensures Plan(topic, base, Some(js), [c])[k] == Step(SheetName(topic, js[k]), base + [js[k]], c)
    {
      NestedStepAt(topic, base, js, c, k);
    }
  }

  /**
   * With a nested list and two column keys, the second column's row keys still carry
   * the last nested key of the first column's loop: the list is rebound, not restored.
   * The first loop's steps are keyed by the base keys plus one nested key each.
   */
  lemma PlanNestedTwoColumns(topic: string, base: seq<Field>, js: seq<Field>, c0: Field, c1: Field)
    requires js != []
    ensures var plan := Plan(topic, base, Some(js), [c0, c1]); var last := js[|js| - 1];
      && |plan| == 2 * |js|
      && (forall k :: 0 <= k < |js| ==> plan[k] == Step(SheetName(topic, js[k]), base + [js[k]], c0))
      && (forall k :: 0 <= k < |js| ==> plan[|js| + k] == Step(SheetName(topic, js[k]), base + [last] + [js[k]], c1))
  {
    var last := js[|js| - 1];
    var first := NestedSteps(topic, base, js, c0);
    var second := NestedSteps(topic, base + [last], js, c1);
    assert [c0, c1][1..] == [c1];
    assert [c1][1..] == [];
    assert KeysAfter(base, Some(js)) == base + [last];
    assert PlanFrom(topic, base + [last], Some(js), [c1]) == second + [];
    assert Plan(topic, base, Some(js), [c0, c1]) == first + (second + []);
    forall k | 0 <= k < |js|
      ensures Plan(topic, base, Some(js), [c0, c1])[k] == Step(SheetName(topic, js[k]), base + [js[k]], c0)
      ensures Plan(topic, base, Some(js), [c0, c1])[|js| + k] == Step(SheetName(topic, js[k]), base + [last] + [js[k]], c1)
    {
      NestedStepAt(topic, base, js, c0, k);
      NestedStepAt(topic, base + [last], js, c1, k);
    }
  }

  /**
   * With a nested list and two column keys, the second loop reaches its last nested
   * key with the row keys `base + [last, last]`, which name that column twice, so the
   * call raises there at the latest; when the base keys and nested keys are all
   * different columns, it raises exactly there, after writing every other sheet.
   */
  lemma NestedTwoColumnsRepeatsKey(topic: string, base: seq<Field>, js: seq<Field>, c0: Field, c1: Field)
    requires js != []
    ensures var plan := Plan(topic, base, Some(js), [c0, c1]);
      && FirstRepeat(plan) <= 2 * |js| - 1 < |plan|
      && (Distinct(base + js) ==> FirstRepeat(plan) == 2 * |js| - 1)
  {
    var plan := Plan(topic, base, Some(js), [c0, c1]);
    var last := js[|js| - 1];
    var q := 2 * |js| - 1;
    PlanNestedTwoColumns(topic, base, js, c0, c1);
    assert plan[q].rows == base + [last] + [last];
    DoubledKeyRepeats(base, last);
    if Distinct(base + js) {
      forall p | 0 <= p < q
        ensures !HasRepeat(plan[p].rows)
      {
        if p < |js| {
          CleanNestedRows(base, js, p);
        } else {
          CleanNestedRows(base, js, p - |js|);
        }
      }
    }
    FirstRepeatAt(plan, 0, q);
  }

  /** A row-key list that ends in the same key twice names that column twice. */
  lemma DoubledKeyRepeats(base: seq<Field>, last: Field)
    ensures HasRepeat(base + [last] + [last])
  {
    var rows := base + [last] + [last];
    HasRepeatIsNotDistinct(rows);
    assert rows[|base|] == rows[|base| + 1];
  }

  /**
   * When the base keys and nested keys are all different columns, the first loop's
   * row keys `base + [j_k]` have no repeat, and neither do the second loop's
   * `base + [last, j_k]` before its last nested key.
   */
  lemma CleanNestedRows(base: seq<Field>, js: seq<Field>, k: nat)
    requires k < |js| && Distinct(base + js)
    ensures !HasRepeat(base + [js[k]])
    ensures k < |js| - 1 ==> !HasRepeat(base + [js[|js| - 1]] + [js[k]])
  {
    var n := |js| - 1;
    var last := js[n];
    NestedKeysDistinct(base, js, k);
    NestedKeysDistinct(base, js, n);
    DistinctSnoc(base, js[k]);
    HasRepeatIsNotDistinct(base + [js[k]]);
    if k < n {
      assert js[k] != last by {
        assert (base + js)[|base| + k] == js[k];
        assert (base + js)[|base| + n] == last;
      }
      DistinctSnoc(base, last);
      DistinctSnoc(base + [last], js[k]);
      HasRepeatIsNotDistinct(base + [last] + [js[k]]);
    }
  }

  /** When the base keys and nested keys are all different, the base keys have no repeat and miss every nested key. */
  lemma NestedKeysDistinct(base: seq<Field>, js: seq<Field>, k: nat)
    requires k < |js| && Distinct(base + js)
    ensures Distinct(base) && js[k] !in base
  {
    assert forall i :: 0 <= i < |base| ==> (base + js)[i] == base[i];
    assert (base + js)[|base| + k] == js[k];
  }

  /** The sheet names and row keys of the script's nested calls (at lines 117, 175 and 180, nested by Race and Gender over the risk score). */
  lemma ScriptNestedSheets(topic: string, base: seq<Field>)
    ensures Plan(topic, base, Some([Race, Gender]), [RiskScore]) ==
      [Step(topic + "_Race", base + [Race], RiskScore), Step(topic + "_Gender", base + [Gender], RiskScore)]
  {
    PlanNestedSingleColumn(topic, base, [Race, Gender], RiskScore);
    assert SheetName(topic, Race) == topic + "_Race";
    assert SheetName(topic, Gender) == topic + "_Gender";
  }
}
