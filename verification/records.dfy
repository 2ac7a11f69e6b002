/** The entities the uploader works on: an input row of the test-requirement
    table, a generated test step and a test case (app.py, `process_test_cases`). */
module Records {
  import opened Common

  /** The three classifications the builder recognises; any other value of
      the classification column is carried but ignored. */
  const FormLevel: string := "Form Level"
  const FieldLevel: string := "Field Level"
  const EditCheckLevel: string := "Edit Check Level"

  /** One row of the input table.  `formName` is `None` for an empty cell
      (pandas NaN).  The other optional cells are `None` when the table has no
      such column, in which case the row reads as the source's default. */
  datatype Row = Row(
    classification: string,
    formName: Option<string>,
    text: Option<string>,
    fieldName: Option<string>,
    editCheckName: Option<string>,
    areaPath: Option<string>,
    iterationPath: Option<string>,
    state: Option<string>)
  {
    /** `Custom.FieldorEditCheckText`, default "". */
    function Text(): string { text.GetOr("") }
    /** `Custom.FieldName`, default "". */
    function FieldName(): string { fieldName.GetOr("") }
    /** `Custom.EditCheckName`, default "". */
    function EditCheckName(): string { editCheckName.GetOr("") }
    /** `Area Path`, default "". */
    function AreaPath(): string { areaPath.GetOr("") }
    /** `Iteration Path`, default "". */
    function IterationPath(): string { iterationPath.GetOr("") }
    /** `State`, default "Design". */
    function State(): string { state.GetOr("Design") }
  }

  /** The `type` of a test case. */
  datatype CaseKind = Standalone | FieldReviews | EditCheckReviews

  /** The `type` string the source stores and exports. */
  function KindName(k: CaseKind): string {
    match k
    case Standalone => "standalone"
    case FieldReviews => "field_reviews"
    case EditCheckReviews => "edit_check_reviews"
  }

  /** One step of a grouped test case; `subject` is the field name or the
      edit-check name of the row the step came from. */
  datatype Step = Step(number: nat, action: string, expected: string, subject: string)

  datatype TestCase = TestCase(
    kind: CaseKind,
    title: string,
    formName: string,
    classification: string,
    description: string,
    areaPath: string,
    iterationPath: string,
    state: string,
    steps: seq<Step>)

  /** Steps numbered 1, 2, ..., n in list order. */
  predicate Contiguous(steps: seq<Step>) {
    forall i :: 0 <= i < |steps| ==> steps[i].number == i + 1
  }

  /** Total number of steps over a list of test cases. */
  function TotalSteps(cases: seq<TestCase>): nat
    decreases |cases|
  {
    if |cases| == 0 then 0
    else TotalSteps(cases[..|cases| - 1]) + |cases[|cases| - 1].steps|
  }

  /** Number of cases of form `f` and kind `k`. */
  function CountOf(cases: seq<TestCase>, f: string, k: CaseKind): nat
    decreases |cases|
  {
    if |cases| == 0 then 0
    else
      var c := cases[|cases| - 1];
      CountOf(cases[..|cases| - 1], f, k) + (if c.formName == f && c.kind == k then 1 else 0)
  }

  lemma {:induction false} TotalStepsAppend(a: seq<TestCase>, b: seq<TestCase>)
    ensures TotalSteps(a + b) == TotalSteps(a) + TotalSteps(b)
    decreases |b|
  {
    if |b| == 0 {
      assert a + b == a;
    } else {
      assert (a + b)[..|a + b| - 1] == a + b[..|b| - 1];
      TotalStepsAppend(a, b[..|b| - 1]);
    }
  }

  lemma {:induction false} CountOfAppend(a: seq<TestCase>, b: seq<TestCase>, f: string, k: CaseKind)
    ensures CountOf(a + b, f, k) == CountOf(a, f, k) + CountOf(b, f, k)
    decreases |b|
  {
    if |b| == 0 {
      assert a + b == a;
    } else {
      assert (a + b)[..|a + b| - 1] == a + b[..|b| - 1];
      CountOfAppend(a, b[..|b| - 1], f, k);
    }
  }

  /** A list none of whose cases belongs to form `f` counts nothing for `f`. */
  lemma {:induction false} CountOfOtherForm(cases: seq<TestCase>, f: string, k: CaseKind)
    requires forall i :: 0 <= i < |cases| ==> cases[i].formName != f
    ensures CountOf(cases, f, k) == 0
    decreases |cases|
  {
    if |cases| > 0 {
      CountOfOtherForm(cases[..|cases| - 1], f, k);
    }
  }
}
