/** What `process_test_cases` promises about its output as a whole: how many
    cases of each kind each form gets, how many steps there are in total, and
    that rows without a form name change nothing. */
module BuilderFacts {
  import opened Common
  import opened Numerals
  import opened Records
  import opened Builder

  // ---------------------------------------------------------------------
  // Cases per form and kind
  // ---------------------------------------------------------------------

  /** How many cases of kind `k` form `f` is owed: one standalone case per
      Form Level row, and one grouped case when the form has at least one row
      of the group's classification. */
  function Owed(rows: seq<Row>, f: string, k: CaseKind): nat {
    var n := |Select(rows, f, ClassificationOf(k))|;
    if k == Standalone then n else if n > 0 then 1 else 0
  }

  lemma {:induction false} CountOfUniform(cases: seq<TestCase>, f: string, k: CaseKind)
    requires forall i :: 0 <= i < |cases| ==> cases[i].formName == f && cases[i].kind == k
    ensures CountOf(cases, f, k) == |cases|
    decreases |cases|
  {
    if |cases| > 0 {
      CountOfUniform(cases[..|cases| - 1], f, k);
    }
  }

  lemma {:induction false} CountOfOtherKind(cases: seq<TestCase>, f: string, k: CaseKind)
    requires forall i :: 0 <= i < |cases| ==> cases[i].kind != k
    ensures CountOf(cases, f, k) == 0
    decreases |cases|
  {
    if |cases| > 0 {
      CountOfOtherKind(cases[..|cases| - 1], f, k);
    }
  }

  /** The cases of one form, cut into its standalone, Field Reviews and Edit
      Check Reviews parts, with what each part holds. */
  lemma {:induction false} Parts(rows: seq<Row>, f: string) returns (sa: seq<TestCase>, fr: seq<TestCase>, ec: seq<TestCase>)
    ensures FormCases(rows, f) == sa + fr + ec
    ensures |sa| == |Select(rows, f, FormLevel)|
    ensures forall i :: 0 <= i < |sa| ==> sa[i].formName == f && sa[i].kind == Standalone && sa[i].steps == []
    ensures |fr| == if |Select(rows, f, FieldLevel)| > 0 then 1 else 0
    ensures forall i :: 0 <= i < |fr| ==>
      fr[i].formName == f && fr[i].kind == FieldReviews && |fr[i].steps| == |Select(rows, f, FieldLevel)|
    ensures |ec| == if |Select(rows, f, EditCheckLevel)| > 0 then 1 else 0
    ensures forall i :: 0 <= i < |ec| ==>
      ec[i].formName == f && ec[i].kind == EditCheckReviews && |ec[i].steps| == |Select(rows, f, EditCheckLevel)|
  {
    sa := StandaloneCases(f, Select(rows, f, FormLevel));
    fr := GroupCase(FieldReviews, f, Select(rows, f, FieldLevel));
    ec := GroupCase(EditCheckReviews, f, Select(rows, f, EditCheckLevel));
  }

  lemma CountOfFormCases(rows: seq<Row>, g: string, f: string, k: CaseKind)
    ensures CountOf(FormCases(rows, g), f, k) == if g == f then Owed(rows, f, k) else 0
  {
    var sa, fr, ec := Parts(rows, g);
    CountOfPieces(sa, fr, ec, g, f, k);
  }

  /** Counting over a form's three parts. */
  lemma CountOfPieces(sa: seq<TestCase>, fr: seq<TestCase>, ec: seq<TestCase>, g: string, f: string, k: CaseKind)
    requires forall i :: 0 <= i < |sa| ==> sa[i].formName == g && sa[i].kind == Standalone
    requires forall i :: 0 <= i < |fr| ==> fr[i].formName == g && fr[i].kind == FieldReviews
    requires forall i :: 0 <= i < |ec| ==> ec[i].formName == g && ec[i].kind == EditCheckReviews
    ensures CountOf(sa + fr + ec, f, k) ==
      if g != f then 0
      else match k
        case Standalone => |sa|
        case FieldReviews => |fr|
        case EditCheckReviews => |ec|
  {
    CountOfAppend(sa + fr, ec, f, k);
    CountOfAppend(sa, fr, f, k);
    if g != f {
      CountOfOtherForm(sa, f, k);
      CountOfOtherForm(fr, f, k);
      CountOfOtherForm(ec, f, k);
    } else {
      CountOfPiece(sa, f, k, Standalone);
      CountOfPiece(fr, f, k, FieldReviews);
      CountOfPiece(ec, f, k, EditCheckReviews);
    }
  }

  /** A list of cases all of form `f` and kind `j` counts fully for `j` and
      not at all for any other kind. */
  lemma CountOfPiece(cases: seq<TestCase>, f: string, k: CaseKind, j: CaseKind)
    requires forall i :: 0 <= i < |cases| ==> cases[i].formName == f && cases[i].kind == j
    ensures CountOf(cases, f, k) == if k == j then |cases| else 0
  {
    if k == j {
      CountOfUniform(cases, f, k);
    } else {
      CountOfOtherKind(cases, f, k);
    }
  }

  lemma {:induction false} CountOfBuildForms(rows: seq<Row>, forms: seq<string>, f: string, k: CaseKind)
    requires Distinct(forms)
    ensures CountOf(BuildForms(rows, forms), f, k) == if f in forms then Owed(rows, f, k) else 0
    decreases |forms|
  {
    if |forms| > 0 {
      var init := forms[..|forms| - 1];
      var g := forms[|forms| - 1];
      SplitLast(forms);
      DistinctSnoc(init, g);
      CountOfBuildForms(rows, init, f, k);
      CountOfAppend(BuildForms(rows, init), FormCases(rows, g), f, k);
      CountOfFormCases(rows, g, f, k);
    }
  }

  lemma DistinctSnoc(init: seq<string>, g: string)
    requires Distinct(init + [g])
    ensures Distinct(init) && g !in init
  {
    var forms := init + [g];
    forall i, j | 0 <= i < j < |init| ensures init[i] != init[j] {
      assert init[i] == forms[i] && init[j] == forms[j];
    }
    forall i | 0 <= i < |init| ensures init[i] != g {
      assert init[i] == forms[i] && g == forms[|init|];
    }
  }

  /** Every form gets exactly the cases it is owed: as many standalone cases
      as it has Form Level rows, and exactly one Field Reviews (Edit Check
      Reviews) case when it has a Field Level (Edit Check Level) row, none
      otherwise.  A form that names no row gets nothing. */
  lemma {:induction false} CasesPerForm(rows: seq<Row>, f: string, k: CaseKind)
    ensures CountOf(Build(rows), f, k) == Owed(rows, f, k)
    ensures k != Standalone ==>
      (CountOf(Build(rows), f, k) == 1 <==> |Select(rows, f, ClassificationOf(k))| > 0)
  {
    CountOfBuildForms(rows, UniqueForms(rows), f, k);
    if f !in UniqueForms(rows) {
      SelectAbsent(rows, f, ClassificationOf(k));
    }
  }

  /** `c` is the case of form `f` and grouped kind `k` over the rows `group`. */
  predicate IsGroupCaseOf(c: TestCase, f: string, k: CaseKind, group: seq<Row>)
    requires k != Standalone
  {
    && c.formName == f && c.kind == k
    && |c.steps| == |group|
    && forall j :: 0 <= j < |group| ==> c.steps[j] == StepFor(k, group[j], j + 1)
  }

  /** When form `f` has rows of a group's classification, the output holds
      that group's case, with one step per row in row order. */
  lemma {:induction false} GroupCaseIsBuilt(rows: seq<Row>, f: string, k: CaseKind)
    requires k != Standalone
    requires |Select(rows, f, ClassificationOf(k))| > 0
    ensures exists i :: 0 <= i < |Build(rows)| && IsGroupCaseOf(Build(rows)[i], f, k, Select(rows, f, ClassificationOf(k)))
  {
    var sel := Select(rows, f, ClassificationOf(k));
    SelectMember(rows, f, ClassificationOf(k), sel[0]);
    var c := GroupCase(k, f, sel)[0];
    GroupCaseShape(k, f, sel);
    GroupInFormCases(rows, f, k);
    InBuildForms(rows, UniqueForms(rows), f, c);
    Witness(Build(rows), c, f, k, sel);
  }

  lemma GroupCaseShape(k: CaseKind, f: string, group: seq<Row>)
    requires k != Standalone && |group| > 0
    ensures IsGroupCaseOf(GroupCase(k, f, group)[0], f, k, group)
  {
  }

  lemma Witness(cases: seq<TestCase>, c: TestCase, f: string, k: CaseKind, group: seq<Row>)
    requires k != Standalone
    requires c in cases && IsGroupCaseOf(c, f, k, group)
    ensures exists i :: 0 <= i < |cases| && IsGroupCaseOf(cases[i], f, k, group)
  {
    var i :| 0 <= i < |cases| && cases[i] == c;
  }

  /** A form's grouped case is among its cases. */
  lemma GroupInFormCases(rows: seq<Row>, f: string, k: CaseKind)
    requires k != Standalone
    requires |Select(rows, f, ClassificationOf(k))| > 0
    ensures GroupCase(k, f, Select(rows, f, ClassificationOf(k)))[0] in FormCases(rows, f)
  {
    var sa := StandaloneCases(f, Select(rows, f, FormLevel));
    var fr := GroupCase(FieldReviews, f, Select(rows, f, FieldLevel));
    var ec := GroupCase(EditCheckReviews, f, Select(rows, f, EditCheckLevel));
    if k == FieldReviews {
      InMiddle(sa, fr, ec);
    } else {
      InLast(sa, fr, ec);
    }
  }

  lemma InMiddle<T>(a: seq<T>, b: seq<T>, c: seq<T>)
    requires |b| == 1
    ensures b[0] in a + b + c
  {
    assert (a + b + c)[|a|] == b[0];
  }

  lemma InLast<T>(a: seq<T>, b: seq<T>, c: seq<T>)
    requires |c| == 1
    ensures c[0] in a + b + c
  {
    assert (a + b + c)[|a + b|] == c[0];
  }

  /** A row of a selection is a row of the table. */
  lemma {:induction false} SelectMember(rows: seq<Row>, f: string, cls: string, r: Row)
    requires r in Select(rows, f, cls)
    ensures HasForm(rows, f)
    decreases |rows|
  {
    var init := rows[..|rows| - 1];
    var last := rows[|rows| - 1];
    assert rows == init + [last];
    HasFormSnoc(init, last, f);
    if r !in Select(init, f, cls) {
      assert Matches(last, f, cls);
    } else {
      SelectMember(init, f, cls, r);
    }
  }

  /** The cases of every listed form are part of the output. */
  lemma {:induction false} InBuildForms(rows: seq<Row>, forms: seq<string>, f: string, c: TestCase)
    requires f in forms && c in FormCases(rows, f)
    ensures c in BuildForms(rows, forms)
    decreases |forms|
  {
    var init, g := forms[..|forms| - 1], forms[|forms| - 1];
    var prev, last := BuildForms(rows, init), FormCases(rows, g);
    assert BuildForms(rows, forms) == prev + last;
    if g != f {
      InInit(forms, f);
      InBuildForms(rows, init, f, c);
      InFront(prev, last, c);
    } else {
      InBack(prev, last, c);
    }
  }

  /** The count written at the end of a grouped case's description reads
      back as its number of steps. */
  lemma DescriptionCountsSteps(c: TestCase)
    requires WellFormed(c) && c.kind != Standalone
    ensures |CountPrefix(c.kind, c.formName)| <= |c.description|
    ensures ParseNat(c.description[|CountPrefix(c.kind, c.formName)|..]) == Some(|c.steps|)
  {
    var p := CountPrefix(c.kind, c.formName);
    assert c.description[|p|..] == NatToString(|c.steps|);
    ParseNatToString(|c.steps|);
  }

  // ---------------------------------------------------------------------
  // Step totals
  // ---------------------------------------------------------------------

  /** Sum over `forms` of the number of rows of that form with classification `cls`. */
  function SelectedTotal(rows: seq<Row>, forms: seq<string>, cls: string): nat
    decreases |forms|
  {
    if |forms| == 0 then 0
    else SelectedTotal(rows, forms[..|forms| - 1], cls) + |Select(rows, forms[|forms| - 1], cls)|
  }

  lemma {:induction false} SelectedTotalSnocRow(init: seq<Row>, r: Row, forms: seq<string>, cls: string)
    requires Distinct(forms)
    ensures SelectedTotal(init + [r], forms, cls) == SelectedTotal(init, forms, cls)
      + (if r.formName.Some? && r.formName.value in forms && r.classification == cls then 1 else 0)
    decreases |forms|
  {
    if |forms| > 0 {
      var fs := forms[..|forms| - 1];
      var g := forms[|forms| - 1];
      assert forms == fs + [g];
      SelectedTotalSnocRow(init, r, fs, cls);
      SelectSnoc(init, r, g, cls);
    }
  }

  lemma {:induction false} SelectedTotalAbsent(rows: seq<Row>, forms: seq<string>, f: string, cls: string)
    requires !HasForm(rows, f)
    ensures SelectedTotal(rows, forms + [f], cls) == SelectedTotal(rows, forms, cls)
  {
    assert (forms + [f])[..|forms|] == forms;
    SelectAbsent(rows, f, cls);
  }

  /** Summed over the distinct forms, the per-form selections count every
      row that has a form name exactly once. */
  lemma {:induction false} SelectedTotalCovers(rows: seq<Row>, cls: string)
    ensures SelectedTotal(rows, UniqueForms(rows), cls) == |Classified(rows, cls)|
    decreases |rows|
  {
    if |rows| > 0 {
      var init := rows[..|rows| - 1];
      var r := rows[|rows| - 1];
      assert rows == init + [r];
      var u, prev := UniqueForms(rows), UniqueForms(init);
      SelectedTotalCovers(init, cls);
      SelectedTotalSnocRow(init, r, u, cls);
      if r.formName.Some? && r.formName.value !in prev {
        SelectedTotalAbsent(init, prev, r.formName.value, cls);
      }
    }
  }

  lemma {:induction false} TotalStepsNone(cases: seq<TestCase>)
    requires forall i :: 0 <= i < |cases| ==> cases[i].steps == []
    ensures TotalSteps(cases) == 0
    decreases |cases|
  {
    if |cases| > 0 {
      TotalStepsNone(cases[..|cases| - 1]);
    }
  }

  lemma StepsOfFormCases(rows: seq<Row>, f: string)
    ensures TotalSteps(FormCases(rows, f))
      == |Select(rows, f, FieldLevel)| + |Select(rows, f, EditCheckLevel)|
  {
    var sa, fr, ec := Parts(rows, f);
    StepsOfPieces(sa, fr, ec, |Select(rows, f, FieldLevel)|, |Select(rows, f, EditCheckLevel)|);
  }

  /** Steps of step-less cases followed by at most one case of `m` steps and
      at most one of `n` steps. */
  lemma StepsOfPieces(sa: seq<TestCase>, fr: seq<TestCase>, ec: seq<TestCase>, m: nat, n: nat)
    requires forall i :: 0 <= i < |sa| ==> sa[i].steps == []
    requires |fr| == (if m > 0 then 1 else 0) && forall i :: 0 <= i < |fr| ==> |fr[i].steps| == m
    requires |ec| == (if n > 0 then 1 else 0) && forall i :: 0 <= i < |ec| ==> |ec[i].steps| == n
    ensures TotalSteps(sa + fr + ec) == m + n
  {
    TotalStepsAppend(sa + fr, ec);
    TotalStepsAppend(sa, fr);
    TotalStepsNone(sa);
    assert TotalSteps(fr) == m by { TotalStepsAtMostOne(fr); }
    assert TotalSteps(ec) == n by { TotalStepsAtMostOne(ec); }
  }

  lemma TotalStepsAtMostOne(cases: seq<TestCase>)
    requires |cases| <= 1
    ensures TotalSteps(cases) == if |cases| == 0 then 0 else |cases[0].steps|
  {
    if |cases| == 1 {
      assert cases[..0] == [];
    }
  }

  lemma {:induction false} StepsOfBuildForms(rows: seq<Row>, forms: seq<string>)
    ensures TotalSteps(BuildForms(rows, forms))
      == SelectedTotal(rows, forms, FieldLevel) + SelectedTotal(rows, forms, EditCheckLevel)
    decreases |forms|
  {
    if |forms| > 0 {
      var fs := forms[..|forms| - 1];
      StepsOfBuildForms(rows, fs);
      TotalStepsAppend(BuildForms(rows, fs), FormCases(rows, forms[|forms| - 1]));
      StepsOfFormCases(rows, forms[|forms| - 1]);
    }
  }

  /** Every Field Level and every Edit Check Level row with a form name
      contributes exactly one step, and no other row contributes any. */
  lemma {:induction false} TotalStepsOfBuild(rows: seq<Row>)
    ensures TotalSteps(Build(rows)) == |Classified(rows, FieldLevel)| + |Classified(rows, EditCheckLevel)|
  {
    StepsOfBuildForms(rows, UniqueForms(rows));
    SelectedTotalCovers(rows, FieldLevel);
    SelectedTotalCovers(rows, EditCheckLevel);
  }

  // ---------------------------------------------------------------------
  // Rows without a form name
  // ---------------------------------------------------------------------

  /** The rows that have a form name, in table order. */
  function WithForm(rows: seq<Row>): (kept: seq<Row>)
    ensures forall i :: 0 <= i < |kept| ==> kept[i].formName.Some?
    decreases |rows|
  {
    if |rows| == 0 then []
    else
      var r := rows[|rows| - 1];
      WithForm(rows[..|rows| - 1]) + (if r.formName.Some? then [r] else [])
  }

  /** One more row adds its form at the end when the form is new. */
  lemma UniqueFormsSnoc(init: seq<Row>, r: Row)
    ensures UniqueForms(init + [r]) ==
      match r.formName
      case None => UniqueForms(init)
      case Some(f) => if f in UniqueForms(init) then UniqueForms(init) else UniqueForms(init) + [f]
  {
    assert (init + [r])[..|init|] == init;
  }

  lemma {:induction false} UniqueFormsWithForm(rows: seq<Row>)
    ensures UniqueForms(WithForm(rows)) == UniqueForms(rows)
    decreases |rows|
  {
    if |rows| > 0 {
      var init := rows[..|rows| - 1];
      var r := rows[|rows| - 1];
      UniqueFormsWithForm(init);
      assert rows == init + [r];
      UniqueFormsSnoc(init, r);
      if r.formName.Some? {
        assert WithForm(rows) == WithForm(init) + [r];
        UniqueFormsSnoc(WithForm(init), r);
      } else {
        assert WithForm(rows) == WithForm(init) + [] == WithForm(init);
      }
    }
  }

  lemma {:induction false} SelectWithForm(rows: seq<Row>, f: string, cls: string)
    ensures Select(WithForm(rows), f, cls) == Select(rows, f, cls)
    decreases |rows|
  {
    if |rows| > 0 {
      var init := rows[..|rows| - 1];
      var r := rows[|rows| - 1];
      SelectWithForm(init, f, cls);
      if r.formName.Some? {
        assert WithForm(rows) == WithForm(init) + [r];
        SelectSnoc(WithForm(init), r, f, cls);
      } else {
        assert WithForm(rows) == WithForm(init) + [] == WithForm(init);
        assert Select(rows, f, cls) == Select(init, f, cls) + [] == Select(init, f, cls);
      }
    }
  }

  lemma {:induction false} BuildFormsSameSelections(a: seq<Row>, b: seq<Row>, forms: seq<string>)
    requires forall f, cls :: Select(a, f, cls) == Select(b, f, cls)
    ensures BuildForms(a, forms) == BuildForms(b, forms)
    decreases |forms|
  {
    if |forms| > 0 {
      BuildFormsSameSelections(a, b, forms[..|forms| - 1]);
    }
  }

  /** Rows with no form name contribute nothing: dropping them leaves the
      built test cases unchanged. */
  lemma {:induction false} BuildIgnoresNullForms(rows: seq<Row>)
    ensures Build(WithForm(rows)) == Build(rows)
  {
    UniqueFormsWithForm(rows);
    forall f, cls ensures Select(WithForm(rows), f, cls) == Select(rows, f, cls) {
      SelectWithForm(rows, f, cls);
    }
    BuildFormsSameSelections(WithForm(rows), rows, UniqueForms(rows));
  }
}
