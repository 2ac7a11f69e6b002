/** `download_processed` (app.py): the processed test cases written out as
    one flat table, one row per step, or a single row for a case without
    steps.  Every row repeats its case's metadata.  The CSV rendering itself
    (`DataFrame.to_csv`) is not modelled; the rows are. */
module Flatten {
  import opened Common
  import opened Records
  import opened Builder
  import opened BuilderFacts

  /** One row of the exported table.  The three step cells are `None` (an
      empty cell) on the row of a case without steps. */
  datatype FlatRow = FlatRow(
    title: string,
    caseType: string,
    formName: string,
    classification: string,
    description: string,
    areaPath: string,
    iterationPath: string,
    state: string,
    totalSteps: nat,
    stepNumber: Option<nat>,
    stepAction: Option<string>,
    stepExpected: Option<string>)

  /** The metadata cells of a row equal those of case `c`. */
  predicate CarriesCase(row: FlatRow, c: TestCase) {
    && row.title == c.title
    && row.caseType == KindName(c.kind)
    && row.formName == c.formName
    && row.classification == c.classification
    && row.description == c.description
    && row.areaPath == c.areaPath
    && row.iterationPath == c.iterationPath
    && row.state == c.state
  }

  /** The rows for one case. */
  function CaseRows(c: TestCase): (rows: seq<FlatRow>)
    ensures |rows| == if |c.steps| == 0 then 1 else |c.steps|
    ensures forall i :: 0 <= i < |rows| ==> CarriesCase(rows[i], c) && rows[i].totalSteps == |c.steps|
    ensures |c.steps| == 0 ==> rows[0].stepNumber.None? && rows[0].stepAction.None? && rows[0].stepExpected.None?
    ensures forall i :: 0 <= i < |c.steps| ==>
      rows[i].stepNumber == Some(c.steps[i].number)
      && rows[i].stepAction == Some(c.steps[i].action)
      && rows[i].stepExpected == Some(c.steps[i].expected)
  {
    var head := FlatRow(c.title, KindName(c.kind), c.formName, c.classification, c.description,
                        c.areaPath, c.iterationPath, c.state, |c.steps|, None, None, None);
    if |c.steps| == 0 then [head]
    else seq(|c.steps|, i requires 0 <= i < |c.steps| =>
           head.(stepNumber := Some(c.steps[i].number),
                 stepAction := Some(c.steps[i].action),
                 stepExpected := Some(c.steps[i].expected)))
  }

  /** `download_processed`: the rows of every case, cases in order. */
  function FlattenCases(cases: seq<TestCase>): (rows: seq<FlatRow>)
    ensures forall i :: 0 <= i < |rows| ==>
      && (rows[i].totalSteps == 0 <==> rows[i].stepNumber.None?)
      && (rows[i].totalSteps == 0 <==> rows[i].stepAction.None?)
      && (rows[i].totalSteps == 0 <==> rows[i].stepExpected.None?)
    decreases |cases|
  {
    if |cases| == 0 then []
    else FlattenCases(cases[..|cases| - 1]) + CaseRows(cases[|cases| - 1])
  }

  /** The number of exported rows: max(1, number of steps) summed over the cases. */
  function RowCount(cases: seq<TestCase>): nat
    decreases |cases|
  {
    if |cases| == 0 then 0
    else
      var n := |cases[|cases| - 1].steps|;
      RowCount(cases[..|cases| - 1]) + (if n == 0 then 1 else n)
  }

  /** The steps of all cases, in order, as (number, action, expected). */
  function AllSteps(cases: seq<TestCase>): seq<(nat, string, string)>
    decreases |cases|
  {
    if |cases| == 0 then []
    else
      var c := cases[|cases| - 1];
      AllSteps(cases[..|cases| - 1]) + seq(|c.steps|, i requires 0 <= i < |c.steps| =>
        (c.steps[i].number, c.steps[i].action, c.steps[i].expected))
  }

  /** The step cells of the rows that have them, in order. */
  function StepCells(rows: seq<FlatRow>): seq<(nat, string, string)>
    decreases |rows|
  {
    if |rows| == 0 then []
    else
      var r := rows[|rows| - 1];
      StepCells(rows[..|rows| - 1]) +
        (if r.stepNumber.Some? && r.stepAction.Some? && r.stepExpected.Some?
         then [(r.stepNumber.value, r.stepAction.value, r.stepExpected.value)] else [])
  }

  /** The number of cases without steps. */
  function StepLess(cases: seq<TestCase>): nat
    decreases |cases|
  {
    if |cases| == 0 then 0
    else StepLess(cases[..|cases| - 1]) + (if |cases[|cases| - 1].steps| == 0 then 1 else 0)
  }

  /** The number of rows with empty step cells. */
  function HeaderRows(rows: seq<FlatRow>): nat
    decreases |rows|
  {
    if |rows| == 0 then 0
    else HeaderRows(rows[..|rows| - 1]) + (if rows[|rows| - 1].stepNumber.None? then 1 else 0)
  }

  lemma {:induction false} FlattenAppend(a: seq<TestCase>, b: seq<TestCase>)
    ensures FlattenCases(a + b) == FlattenCases(a) + FlattenCases(b)
    decreases |b|
  {
    if |b| == 0 {
      assert a + b == a;
    } else {
      var b0, c := b[..|b| - 1], b[|b| - 1];
      assert (a + b)[..|a + b| - 1] == a + b0;
      assert (a + b)[|a + b| - 1] == c;
      assert FlattenCases(a + b) == FlattenCases(a + b0) + CaseRows(c);
      FlattenAppend(a, b0);
      AppendAssoc(FlattenCases(a), FlattenCases(b0), CaseRows(c));
    }
  }

  /** Flattening emits max(1, |steps|) rows per case. */
  lemma {:induction false} FlattenLength(cases: seq<TestCase>)
    ensures |FlattenCases(cases)| == RowCount(cases)
    decreases |cases|
  {
    if |cases| > 0 {
      FlattenLength(cases[..|cases| - 1]);
    }
  }

  lemma {:induction false} StepCellsAppend(a: seq<FlatRow>, b: seq<FlatRow>)
    ensures StepCells(a + b) == StepCells(a) + StepCells(b)
    decreases |b|
  {
    if |b| == 0 {
      assert a + b == a;
    } else {
      assert (a + b)[..|a + b| - 1] == a + b[..|b| - 1];
      StepCellsAppend(a, b[..|b| - 1]);
    }
  }

  lemma {:induction false} HeaderRowsAppend(a: seq<FlatRow>, b: seq<FlatRow>)
    ensures HeaderRows(a + b) == HeaderRows(a) + HeaderRows(b)
    decreases |b|
  {
    if |b| == 0 {
      assert a + b == a;
    } else {
      assert (a + b)[..|a + b| - 1] == a + b[..|b| - 1];
      HeaderRowsAppend(a, b[..|b| - 1]);
    }
  }

  /** Step cells of the first `n` rows of a case. */
  lemma {:induction false} StepCellsOfCasePrefix(c: TestCase, n: nat)
    requires 0 < |c.steps| && n <= |c.steps|
    ensures StepCells(CaseRows(c)[..n]) == seq(n, i requires 0 <= i < n =>
      (c.steps[i].number, c.steps[i].action, c.steps[i].expected))
    ensures HeaderRows(CaseRows(c)[..n]) == 0
    decreases n
  {
    if n > 0 {
      var rows := CaseRows(c);
      assert rows[..n][..n - 1] == rows[..n - 1];
      StepCellsOfCasePrefix(c, n - 1);
    }
  }

  lemma StepCellsOfCase(c: TestCase)
    ensures StepCells(CaseRows(c)) == seq(|c.steps|, i requires 0 <= i < |c.steps| =>
      (c.steps[i].number, c.steps[i].action, c.steps[i].expected))
    ensures HeaderRows(CaseRows(c)) == if |c.steps| == 0 then 1 else 0
  {
    var rows := CaseRows(c);
    if |c.steps| == 0 {
      assert rows == [] + [rows[0]];
    } else {
      assert rows[..|c.steps|] == rows;
      StepCellsOfCasePrefix(c, |c.steps|);
    }
  }

  /** Reading the step cells back out of the flat table gives every step of
      every case, in order, and the rows with empty step cells are exactly one
      per case without steps. */
  lemma {:induction false} FlattenKeepsSteps(cases: seq<TestCase>)
    ensures StepCells(FlattenCases(cases)) == AllSteps(cases)
    ensures HeaderRows(FlattenCases(cases)) == StepLess(cases)
    decreases |cases|
  {
    if |cases| > 0 {
      var init := cases[..|cases| - 1];
      var c := cases[|cases| - 1];
      FlattenKeepsSteps(init);
      StepCellsAppend(FlattenCases(init), CaseRows(c));
      HeaderRowsAppend(FlattenCases(init), CaseRows(c));
      StepCellsOfCase(c);
    }
  }

  lemma {:induction false} RowCountAppend(a: seq<TestCase>, b: seq<TestCase>)
    ensures RowCount(a + b) == RowCount(a) + RowCount(b)
    decreases |b|
  {
    if |b| == 0 {
      assert a + b == a;
    } else {
      assert (a + b)[..|a + b| - 1] == a + b[..|b| - 1];
      RowCountAppend(a, b[..|b| - 1]);
    }
  }

  lemma {:induction false} RowCountStandalone(cases: seq<TestCase>)
    requires forall i :: 0 <= i < |cases| ==> cases[i].steps == []
    ensures RowCount(cases) == |cases|
    decreases |cases|
  {
    if |cases| > 0 {
      RowCountStandalone(cases[..|cases| - 1]);
    }
  }

  lemma RowCountOfFormCases(rows: seq<Row>, f: string)
    ensures RowCount(FormCases(rows, f)) == |Select(rows, f, FormLevel)|
      + |Select(rows, f, FieldLevel)| + |Select(rows, f, EditCheckLevel)|
  {
    var sa, fr, ec := Parts(rows, f);
    RowCountOfPieces(sa, fr, ec, |Select(rows, f, FieldLevel)|, |Select(rows, f, EditCheckLevel)|);
  }

  /** Rows of step-less cases followed by at most one case of `m` steps and
      at most one of `n` steps. */
  lemma RowCountOfPieces(sa: seq<TestCase>, fr: seq<TestCase>, ec: seq<TestCase>, m: nat, n: nat)
    requires forall i :: 0 <= i < |sa| ==> sa[i].steps == []
    requires |fr| == (if m > 0 then 1 else 0) && forall i :: 0 <= i < |fr| ==> |fr[i].steps| == m
    requires |ec| == (if n > 0 then 1 else 0) && forall i :: 0 <= i < |ec| ==> |ec[i].steps| == n
    ensures RowCount(sa + fr + ec) == |sa| + m + n
  {
    RowCountAppend(sa + fr, ec);
    RowCountAppend(sa, fr);
    RowCountStandalone(sa);
    assert RowCount(fr) == m by { RowCountAtMostOne(fr); }
    assert RowCount(ec) == n by { RowCountAtMostOne(ec); }
  }

  lemma RowCountAtMostOne(cases: seq<TestCase>)
    requires |cases| <= 1
    ensures RowCount(cases) == if |cases| == 0 then 0 else if |cases[0].steps| == 0 then 1 else |cases[0].steps|
  {
    if |cases| == 1 {
      assert cases[..0] == [];
    }
  }

  lemma {:induction false} RowCountOfBuildForms(rows: seq<Row>, forms: seq<string>)
    ensures RowCount(BuildForms(rows, forms)) == SelectedTotal(rows, forms, FormLevel)
      + SelectedTotal(rows, forms, FieldLevel) + SelectedTotal(rows, forms, EditCheckLevel)
    decreases |forms|
  {
    if |forms| > 0 {
      var fs := forms[..|forms| - 1];
      RowCountOfBuildForms(rows, fs);
      RowCountAppend(BuildForms(rows, fs), FormCases(rows, forms[|forms| - 1]));
      RowCountOfFormCases(rows, forms[|forms| - 1]);
    }
  }

  /** End to end: the exported table of the processed input has exactly one
      row per Form Level, Field Level and Edit Check Level row that has a
      form name. */
  lemma {:induction false} ExportRowsOfBuild(rows: seq<Row>)
    ensures |FlattenCases(Build(rows))| == |Classified(rows, FormLevel)|
      + |Classified(rows, FieldLevel)| + |Classified(rows, EditCheckLevel)|
  {
    FlattenLength(Build(rows));
    RowCountOfBuildForms(rows, UniqueForms(rows));
    SelectedTotalCovers(rows, FormLevel);
    SelectedTotalCovers(rows, FieldLevel);
    SelectedTotalCovers(rows, EditCheckLevel);
  }
}
