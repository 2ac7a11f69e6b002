/** `process_test_cases` (app.py): turns the rows of the input table into
    test cases.  Forms are taken in first-encounter order, rows without a
    form name are dropped; per form, every Form Level row becomes its own
    standalone case, all Field Level rows become one "Field Reviews" case and
    all Edit Check Level rows one "Edit Check Reviews" case, with one step
    per row.  Rows of any other classification produce nothing. */
module Builder {
  import opened Common
  import opened Numerals
  import opened Records

  // ---------------------------------------------------------------------
  // Forms in first-encounter order (`df['Custom.FormName'].dropna().unique()`)
  // ---------------------------------------------------------------------

  /** Some row of the table names form `f`. */
  predicate HasForm(rows: seq<Row>, f: string) {
    exists i :: 0 <= i < |rows| && rows[i].formName == Some(f)
  }

  predicate Distinct(forms: seq<string>) {
    forall i, j :: 0 <= i < j < |forms| ==> forms[i] != forms[j]
  }

  lemma HasFormSnoc(init: seq<Row>, r: Row, f: string)
    ensures HasForm(init + [r], f) <==> HasForm(init, f) || r.formName == Some(f)
  {
    var rows := init + [r];
    if HasForm(rows, f) && !HasForm(init, f) {
      var i :| 0 <= i < |rows| && rows[i].formName == Some(f);
      assert i == |init|;
    }
    if HasForm(init, f) {
      var i :| 0 <= i < |init| && init[i].formName == Some(f);
      assert rows[i] == init[i];
    }
    if r.formName == Some(f) {
      assert rows[|init|] == r;
    }
  }

  /** The distinct non-null form names of the table, each once, in the order
      of their first row. */
  function UniqueForms(rows: seq<Row>): (forms: seq<string>)
    ensures Distinct(forms)
    ensures forall f :: f in forms <==> HasForm(rows, f)
    decreases |rows|
  {
    if |rows| == 0 then []
    else
      var init := rows[..|rows| - 1];
      var r := rows[|rows| - 1];
      assert rows == init + [r];
      var prev := UniqueForms(init);
      assert forall f :: HasForm(rows, f) <==> HasForm(init, f) || r.formName == Some(f) by {
        forall f ensures HasForm(rows, f) <==> HasForm(init, f) || r.formName == Some(f) {
          HasFormSnoc(init, r, f);
        }
      }
      match r.formName
      case None => prev
      case Some(f) => if f in prev then prev else prev + [f]
  }

  /** Index of the first row of form `f`. */
  function FirstRow(rows: seq<Row>, f: string): (k: nat)
    requires HasForm(rows, f)
    ensures k < |rows| && rows[k].formName == Some(f)
    ensures forall j :: 0 <= j < k ==> rows[j].formName != Some(f)
    decreases |rows|
  {
    if rows[0].formName == Some(f) then 0
    else
      var i :| 0 <= i < |rows| && rows[i].formName == Some(f);
      assert rows[1..][i - 1] == rows[i];
      1 + FirstRow(rows[1..], f)
  }

  lemma FirstRowUnique(rows: seq<Row>, f: string, k: nat)
    requires k < |rows| && rows[k].formName == Some(f)
    requires forall j :: 0 <= j < k ==> rows[j].formName != Some(f)
    ensures FirstRow(rows, f) == k
  {
  }

  /** The forms come out in the order of their first rows. */
  lemma {:induction false} UniqueFormsOrdered(rows: seq<Row>)
    ensures forall i, j :: 0 <= i < j < |UniqueForms(rows)| ==>
      FirstRow(rows, UniqueForms(rows)[i]) < FirstRow(rows, UniqueForms(rows)[j])
    decreases |rows|
  {
    if |rows| > 0 {
      var init := rows[..|rows| - 1];
      var r := rows[|rows| - 1];
      var u, prev := UniqueForms(rows), UniqueForms(init);
      UniqueFormsOrdered(init);
      // Every form already seen keeps its first row.
      forall g | g in prev
        ensures FirstRow(rows, g) == FirstRow(init, g)
      {
        var k := FirstRow(init, g);
        assert rows[k] == init[k];
        forall j | 0 <= j < k ensures rows[j].formName != Some(g) {
          assert rows[j] == init[j];
        }
        FirstRowUnique(rows, g, k);
      }
      if r.formName.Some? && r.formName.value !in prev {
        var f := r.formName.value;
        assert u == prev + [f];
        forall j | 0 <= j < |rows| - 1 ensures rows[j].formName != Some(f) {
          assert rows[j] == init[j];
        }
        FirstRowUnique(rows, f, |rows| - 1);
        forall i, j | 0 <= i < j < |u|
          ensures FirstRow(rows, u[i]) < FirstRow(rows, u[j])
        {
          assert u[i] == prev[i];
          if j < |prev| {
            assert u[j] == prev[j];
          }
        }
      } else {
        assert u == prev;
      }
    }
  }

  // ---------------------------------------------------------------------
  // Row selection (`form_data[form_data['Custom.TestCaseClassification'] == cls]`)
  // ---------------------------------------------------------------------

  predicate Matches(r: Row, f: string, cls: string) {
    r.formName == Some(f) && r.classification == cls
  }

  /** The rows of form `f` with classification `cls`, in table order.  The
      source filters by form and then by classification; the composition of
      the two filters is this single one. */
  function Select(rows: seq<Row>, f: string, cls: string): (sel: seq<Row>)
    ensures |sel| <= |rows|
    ensures forall i :: 0 <= i < |sel| ==> Matches(sel[i], f, cls)
    decreases |rows|
  {
    if |rows| == 0 then []
    else
      var r := rows[|rows| - 1];
      Select(rows[..|rows| - 1], f, cls) + (if Matches(r, f, cls) then [r] else [])
  }

  lemma SelectSnoc(init: seq<Row>, r: Row, f: string, cls: string)
    ensures Select(init + [r], f, cls) == Select(init, f, cls) + (if Matches(r, f, cls) then [r] else [])
  {
    assert (init + [r])[..|init|] == init;
  }

  lemma {:induction false} SelectAbsent(rows: seq<Row>, f: string, cls: string)
    requires !HasForm(rows, f)
    ensures Select(rows, f, cls) == []
    decreases |rows|
  {
    if |rows| > 0 {
      var init := rows[..|rows| - 1];
      assert rows == init + [rows[|rows| - 1]];
      HasFormSnoc(init, rows[|rows| - 1], f);
      SelectAbsent(init, f, cls);
    }
  }

  /** All rows with some form name and classification `cls`. */
  function Classified(rows: seq<Row>, cls: string): (sel: seq<Row>)
    ensures |sel| <= |rows|
    ensures forall i :: 0 <= i < |sel| ==> sel[i].formName.Some? && sel[i].classification == cls
    decreases |rows|
  {
    if |rows| == 0 then []
    else
      var r := rows[|rows| - 1];
      Classified(rows[..|rows| - 1], cls)
        + (if r.formName.Some? && r.classification == cls then [r] else [])
  }

  // ---------------------------------------------------------------------
  // Steps and test cases
  // ---------------------------------------------------------------------

  /** The step a Field Level row contributes as step `n`. */
  function FieldStep(row: Row, n: nat): Step {
    var name := row.FieldName();
    Step(n, "Test field: " + name, "Field '" + name + "' validates correctly. " + row.Text(), name)
  }

  /** The step an Edit Check Level row contributes as step `n`. */
  function EditCheckStep(row: Row, n: nat): Step {
    var name := row.EditCheckName();
    Step(n, "Test edit check: " + name, "Edit check '" + name + "' functions correctly. " + row.Text(), name)
  }

  /** The step a row of a grouped case contributes. */
  function StepFor(kind: CaseKind, row: Row, n: nat): Step
    requires kind != Standalone
  {
    if kind == FieldReviews then FieldStep(row, n) else EditCheckStep(row, n)
  }

  /** The steps of a group, built as the source's loop builds them: each row
      appends the step numbered `len(steps) + 1`.  The result has one step per
      row, in row order, numbered from 1 without a gap. */
  function GroupSteps(kind: CaseKind, group: seq<Row>): (steps: seq<Step>)
    requires kind != Standalone
    ensures |steps| == |group|
    ensures Contiguous(steps)
    ensures forall i :: 0 <= i < |group| ==> steps[i] == StepFor(kind, group[i], i + 1)
    decreases |group|
  {
    if |group| == 0 then []
    else
      var steps := GroupSteps(kind, group[..|group| - 1]);
      steps + [StepFor(kind, group[|group| - 1], |steps| + 1)]
  }

  /** The classification a case kind stands for. */
  function ClassificationOf(kind: CaseKind): string {
    match kind
    case Standalone => FormLevel
    case FieldReviews => FieldLevel
    case EditCheckReviews => EditCheckLevel
  }

  function GroupTitle(kind: CaseKind, f: string): string
    requires kind != Standalone
  {
    if kind == FieldReviews then f + " - Field Reviews" else f + " - Edit Check Reviews"
  }

  /** The description of a grouped case up to its step count. */
  function CountPrefix(kind: CaseKind, f: string): string
    requires kind != Standalone
  {
    if kind == FieldReviews then "Field-level validation for form " + f + ". Total fields: "
    else "Edit check validation for form " + f + ". Total checks: "
  }

  /** The shape every built case has. */
  predicate WellFormed(c: TestCase) {
    c.classification == ClassificationOf(c.kind) &&
    match c.kind
    case Standalone =>
      c.title == "Form - " + c.formName && c.steps == []
    case _ =>
      && c.title == GroupTitle(c.kind, c.formName)
      && |c.steps| > 0
      && Contiguous(c.steps)
      && c.description == CountPrefix(c.kind, c.formName) + NatToString(|c.steps|)
  }

  /** The standalone case of one Form Level row: its description, paths and
      state are the row's own. */
  function StandaloneCase(f: string, row: Row): (c: TestCase)
    ensures WellFormed(c) && c.kind == Standalone && c.formName == f
    ensures c.description == row.Text() && c.areaPath == row.AreaPath()
    ensures c.iterationPath == row.IterationPath() && c.state == row.State()
  {
    TestCase(Standalone, "Form - " + f, f, FormLevel, row.Text(),
             row.AreaPath(), row.IterationPath(), row.State(), [])
  }

  function StandaloneCases(f: string, group: seq<Row>): (cases: seq<TestCase>)
    ensures |cases| == |group|
    ensures forall i :: 0 <= i < |group| ==> cases[i] == StandaloneCase(f, group[i])
  {
    seq(|group|, i requires 0 <= i < |group| => StandaloneCase(f, group[i]))
  }

  /** The grouped case of a form's rows of one classification: none when
      there are no such rows, otherwise one case whose metadata comes from the
      first row and which has one step per row. */
  function GroupCase(kind: CaseKind, f: string, group: seq<Row>): (cases: seq<TestCase>)
    requires kind != Standalone
    ensures |group| == 0 <==> cases == []
    ensures |group| > 0 ==>
      && |cases| == 1
      && WellFormed(cases[0])
      && cases[0].kind == kind
      && cases[0].formName == f
      && cases[0].steps == GroupSteps(kind, group)
      && cases[0].areaPath == group[0].AreaPath()
      && cases[0].iterationPath == group[0].IterationPath()
      && cases[0].state == group[0].State()
  {
    if |group| == 0 then []
    else
      var steps := GroupSteps(kind, group);
      [TestCase(kind, GroupTitle(kind, f), f, ClassificationOf(kind),
                CountPrefix(kind, f) + NatToString(|steps|),
                group[0].AreaPath(), group[0].IterationPath(), group[0].State(), steps)]
  }

  /** All cases of one form: its standalone cases, then its Field Reviews
      case, then its Edit Check Reviews case. */
  function FormCases(rows: seq<Row>, f: string): seq<TestCase> {
    StandaloneCases(f, Select(rows, f, FormLevel))
      + GroupCase(FieldReviews, f, Select(rows, f, FieldLevel))
      + GroupCase(EditCheckReviews, f, Select(rows, f, EditCheckLevel))
  }

  /** The cases of the listed forms, form after form. */
  function BuildForms(rows: seq<Row>, forms: seq<string>): seq<TestCase>
    decreases |forms|
  {
    if |forms| == 0 then []
    else BuildForms(rows, forms[..|forms| - 1]) + FormCases(rows, forms[|forms| - 1])
  }

  /** `process_test_cases`: the cases of every form, forms in first-encounter
      order. */
  function Build(rows: seq<Row>): seq<TestCase> {
    BuildForms(rows, UniqueForms(rows))
  }

  lemma FormCasesWellFormed(rows: seq<Row>, f: string)
    ensures forall c :: c in FormCases(rows, f) ==> WellFormed(c) && c.formName == f
  {
  }

  lemma {:induction false} BuildFormsWellFormed(rows: seq<Row>, forms: seq<string>)
    ensures forall c :: c in BuildForms(rows, forms) ==> WellFormed(c) && c.formName in forms
    decreases |forms|
  {
    if |forms| > 0 {
      var init := forms[..|forms| - 1];
      var prev, last := BuildForms(rows, init), FormCases(rows, forms[|forms| - 1]);
      BuildFormsWellFormed(rows, init);
      FormCasesWellFormed(rows, forms[|forms| - 1]);
      assert forms == init + [forms[|forms| - 1]];
      forall c | c in prev + last
        ensures WellFormed(c) && c.formName in forms
      {
        if c in prev {
          InFront(init, [forms[|forms| - 1]], c.formName);
        }
      }
    }
  }

  /** Every case `process_test_cases` produces is well formed for its type
      and belongs to a form named in the table. */
  lemma BuildWellFormed(rows: seq<Row>)
    ensures forall c :: c in Build(rows) ==> WellFormed(c) && HasForm(rows, c.formName)
  {
    var forms := UniqueForms(rows);
    BuildFormsWellFormed(rows, forms);
    assert forall f :: f in forms ==> HasForm(rows, f);
  }
}
