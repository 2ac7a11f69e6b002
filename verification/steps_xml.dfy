/** The `Microsoft.VSTS.TCM.Steps` value the uploader attaches to a created
    work item (app.py, upload loop): a `<steps>` element whose `last`
    attribute is the number of steps, holding one `<step>` element per step,
    whose `id` is the step number and whose two parameterized strings hold the
    XML-escaped action and expected result wrapped in an escaped `<DIV><P>`.
    `ParseStepsXml` reads such a value back; the round trip shows that the
    text carries exactly the steps, in order. */
module StepsXml {
  import opened Common
  import opened Numerals
  import opened XmlEscape
  import opened Records

  function Spaces(n: nat): (s: string)
    ensures |s| == n && forall i :: 0 <= i < n ==> s[i] == ' '
  {
    seq(n, _ => ' ')
  }

  // The literal pieces of one step element, as the source's f-string lays
  // them out (inner lines indented by 32 spaces, the closing tag by 28).
  const NL: string := "\n"
  const InnerOpen: string := "&lt;DIV&gt;&lt;P&gt;"
  const InnerClose: string := "&lt;/P&gt;&lt;/DIV&gt;"
  const ParamOpen: string := "<parameterizedString isformatted=\"true\">" + InnerOpen
  const ParamEnd: string := "</parameterizedString>"
  const StepOpen: string := "<step id=\""
  /** From the closing quote of the id to the start of the action text. */
  const AfterId: string := "\" type=\"ValidateStep\">" + NL + Spaces(32) + ParamOpen
  /** From the end of `InnerClose` after the action to the expected text. */
  const BetweenTexts: string := ParamEnd + NL + Spaces(32) + ParamOpen
  /** From the end of `InnerClose` after the expected text to the end of the element. */
  const StepTail: string := ParamEnd + NL + Spaces(32) + "<description/>" + NL + Spaces(28) + "</step>"
  const StepsOpen: string := "<steps id=\"0\" last=\""
  const StepsClose: string := "</steps>"

  /** The element for one step. */
  function StepElement(s: Step): string {
    StepOpen + NatToString(s.number) + AfterId
      + EscapeXml(s.action) + InnerClose + BetweenTexts
      + EscapeXml(s.expected) + InnerClose + StepTail
  }

  function StepElements(steps: seq<Step>): string
    decreases |steps|
  {
    if |steps| == 0 then "" else StepElement(steps[0]) + StepElements(steps[1..])
  }

  /** The whole steps value of a test case. */
  function StepsValue(steps: seq<Step>): string {
    StepsOpen + NatToString(|steps|) + "\">" + StepElements(steps) + StepsClose
  }

  // ---------------------------------------------------------------------
  // Reading the value back
  // ---------------------------------------------------------------------

  /** A step as it reads back from the XML. */
  datatype ParsedStep = ParsedStep(id: nat, action: string, expected: string)

  function Parsed(steps: seq<Step>): (ps: seq<ParsedStep>)
    ensures |ps| == |steps|
    ensures forall i :: 0 <= i < |steps| ==>
      ps[i] == ParsedStep(steps[i].number, steps[i].action, steps[i].expected)
  {
    seq(|steps|, i requires 0 <= i < |steps| =>
      ParsedStep(steps[i].number, steps[i].action, steps[i].expected))
  }

  /** The rest of `s` after the literal `lit`, if `s` starts with it. */
  function Expect(s: string, lit: string): (r: Option<string>)
    ensures r.Some? ==> lit + r.value == s
  {
    if lit <= s then Some(s[|lit|..]) else None
  }

  /** `s` cut before its first `c`: the part without `c`, and the rest. */
  function SplitAt(s: string, c: char): (r: (string, string))
    ensures r.0 + r.1 == s
    ensures c !in r.0
    ensures |r.1| > 0 ==> r.1[0] == c
    decreases |s|
  {
    if |s| == 0 then ([], [])
    else if s[0] == c then ([], s)
    else
      var r := SplitAt(s[1..], c);
      var head := [s[0]] + r.0;
      assert head + r.1 == [s[0]] + (r.0 + r.1) == s;
      assert c !in head by {
        assert forall i :: 0 <= i < |head| ==> head[i] == if i == 0 then s[0] else r.0[i - 1];
      }
      (head, r.1)
  }

  /** `s` without the suffix `suf`, if it ends with it. */
  function StripSuffix(s: string, suf: string): (r: Option<string>)
    ensures r.Some? ==> r.value + suf == s
  {
    if |suf| <= |s| && s[|s| - |suf|..] == suf then Some(s[..|s| - |suf|]) else None
  }

  /** Reads one escaped text wrapped as `&lt;DIV&gt;&lt;P&gt;`-text-`&lt;/P&gt;&lt;/DIV&gt;`
      (the opening part already consumed) up to the next tag, then the
      literal `after`; returns the decoded text and what follows. */
  function ParseText(s: string, after: string): (r: Option<(string, string)>)
    ensures r.Some? ==> |r.value.1| <= |s|
  {
    var (a, s1) := SplitAt(s, '<');
    var t :- StripSuffix(a, InnerClose);
    var s2 :- Expect(s1, after);
    Some((UnescapeXml(t), s2))
  }

  /** Reads one step element off the front of `s`. */
  function ParseStep(s: string): (r: Option<(ParsedStep, string)>)
    ensures r.Some? ==> |r.value.1| < |s|
  {
    var s1 :- Expect(s, StepOpen);
    var (idText, s2) := SplitAt(s1, '"');
    var id :- ParseNat(idText);
    var s3 :- Expect(s2, AfterId);
    var (action, s4) :- ParseText(s3, BetweenTexts);
    var (expected, s5) :- ParseText(s4, StepTail);
    Some((ParsedStep(id, action, expected), s5))
  }

  /** Reads step elements up to the closing `</steps>`. */
  function ParseSteps(s: string): Option<seq<ParsedStep>>
    decreases |s|
  {
    if s == StepsClose then Some([])
    else
      var (p, rest) :- ParseStep(s);
      var ps :- ParseSteps(rest);
      Some([p] + ps)
  }

  /** Reads a steps value: its `last` attribute and its steps. */
  function ParseStepsXml(x: string): Option<(nat, seq<ParsedStep>)> {
    var s1 :- Expect(x, StepsOpen);
    var (lastText, s2) := SplitAt(s1, '"');
    var last :- ParseNat(lastText);
    var s3 :- Expect(s2, "\">");
    var ps :- ParseSteps(s3);
    Some((last, ps))
  }

  // ---------------------------------------------------------------------
  // Round trip
  // ---------------------------------------------------------------------

  lemma ExpectLit(lit: string, rest: string)
    ensures Expect(lit + rest, lit) == Some(rest)
  {
    assert lit <= lit + rest;
    assert (lit + rest)[|lit|..] == rest;
  }

  lemma {:induction false} SplitAtFirst(p: string, rest: string, c: char)
    requires c !in p && |rest| > 0 && rest[0] == c
    ensures SplitAt(p + rest, c) == (p, rest)
    decreases |p|
  {
    if |p| == 0 {
      assert p + rest == rest;
    } else {
      assert p[0] in p;
      assert (p + rest)[0] == p[0];
      assert (p + rest)[1..] == p[1..] + rest;
      SplitAtFirst(p[1..], rest, c);
      assert [p[0]] + p[1..] == p;
    }
  }

  lemma StripSuffixOf(p: string, suf: string)
    ensures StripSuffix(p + suf, suf) == Some(p)
  {
    var s := p + suf;
    assert s[|s| - |suf|..] == suf;
    assert s[..|s| - |suf|] == p;
  }

  lemma NoQuoteInNumeral(n: nat)
    ensures '"' !in NatToString(n)
  {
  }

  lemma NoLtInInnerClose()
    ensures '<' !in InnerClose
  {
    var s := InnerClose;
    forall i | 0 <= i < |s| ensures s[i] != '<' {
      assert s[i] in "&lt;/PgDIV";
    }
  }

  /** An escaped text in its wrapping, followed by `after`, reads back as the text. */
  lemma ParseTextOf(x: string, after: string, rest: string)
    requires |after| > 0 && after[0] == '<'
    ensures ParseText(EscapeXml(x) + (InnerClose + (after + rest)), after) == Some((x, rest))
  {
    var ex := EscapeXml(x);
    var a := ex + InnerClose;
    var s1 := after + rest;
    AppendAssoc(ex, InnerClose, s1);
    NoLtInInnerClose();
    assert '<' !in a;
    SplitAtFirst(a, s1, '<');
    StripSuffixOf(ex, InnerClose);
    ExpectLit(after, rest);
    UnescapeEscapeXml(x);
  }

  lemma Regroup(p1: string, p2: string, p3: string, p4: string, p5: string,
                 p6: string, p7: string, p8: string, p9: string, r: string)
    ensures p1 + p2 + p3 + p4 + p5 + p6 + p7 + p8 + p9 + r ==
      p1 + (p2 + (p3 + (p4 + (p5 + (p6 + (p7 + (p8 + (p9 + r))))))))
  {
    AppendAssoc(p1 + p2 + p3 + p4 + p5 + p6 + p7 + p8, p9, r);
    AppendAssoc(p1 + p2 + p3 + p4 + p5 + p6 + p7, p8, p9 + r);
    AppendAssoc(p1 + p2 + p3 + p4 + p5 + p6, p7, p8 + (p9 + r));
    AppendAssoc(p1 + p2 + p3 + p4 + p5, p6, p7 + (p8 + (p9 + r)));
    AppendAssoc(p1 + p2 + p3 + p4, p5, p6 + (p7 + (p8 + (p9 + r))));
    AppendAssoc(p1 + p2 + p3, p4, p5 + (p6 + (p7 + (p8 + (p9 + r)))));
    AppendAssoc(p1 + p2, p3, p4 + (p5 + (p6 + (p7 + (p8 + (p9 + r))))));
    AppendAssoc(p1, p2, p3 + (p4 + (p5 + (p6 + (p7 + (p8 + (p9 + r)))))));
  }

  /** The element of `s` followed by `rest`, with the pieces grouped to the right. */
  lemma {:induction false} StepElementShape(s: Step, rest: string)
    ensures StepElement(s) + rest ==
      StepOpen + (NatToString(s.number) + (AfterId + (EscapeXml(s.action) + (InnerClose
        + (BetweenTexts + (EscapeXml(s.expected) + (InnerClose + (StepTail + rest))))))))
  {
    Regroup(StepOpen, NatToString(s.number), AfterId, EscapeXml(s.action), InnerClose,
            BetweenTexts, EscapeXml(s.expected), InnerClose, StepTail, rest);
  }

  /** One element, followed by anything, reads back as its step. */
  lemma ParseStepElement(s: Step, rest: string)
    ensures ParseStep(StepElement(s) + rest)
      == Some((ParsedStep(s.number, s.action, s.expected), rest))
  {
    var id := NatToString(s.number);
    var s4 := EscapeXml(s.expected) + (InnerClose + (StepTail + rest));
    var s3 := EscapeXml(s.action) + (InnerClose + (BetweenTexts + s4));
    var s2 := AfterId + s3;
    var s1 := id + s2;
    StepElementShape(s, rest);
    ExpectLit(StepOpen, s1);
    NoQuoteInNumeral(s.number);
    assert s2[0] == '"';
    SplitAtFirst(id, s2, '"');
    ParseNatToString(s.number);
    ExpectLit(AfterId, s3);
    assert BetweenTexts[0] == '<';
    ParseTextOf(s.action, BetweenTexts, s4);
    assert StepTail[0] == '<';
    ParseTextOf(s.expected, StepTail, rest);
  }

  /** An element is never the closing tag: its second character is the `s` of `<step`. */
  lemma {:induction false} StepElementStart(st: Step)
    ensures |StepElement(st)| > 1 && StepElement(st)[1] == 's'
  {
    var a := StepOpen + NatToString(st.number);
    SecondChar(StepOpen, NatToString(st.number));
    SecondChar(a, AfterId);
    SecondChar(a + AfterId, EscapeXml(st.action));
    SecondChar(a + AfterId + EscapeXml(st.action), InnerClose);
    SecondChar(a + AfterId + EscapeXml(st.action) + InnerClose, BetweenTexts);
    SecondChar(a + AfterId + EscapeXml(st.action) + InnerClose + BetweenTexts, EscapeXml(st.expected));
    SecondChar(a + AfterId + EscapeXml(st.action) + InnerClose + BetweenTexts + EscapeXml(st.expected), InnerClose);
    SecondChar(a + AfterId + EscapeXml(st.action) + InnerClose + BetweenTexts + EscapeXml(st.expected) + InnerClose,
               StepTail);
  }

  lemma SecondChar(a: string, b: string)
    requires |a| > 1 && a[1] == 's'
    ensures |a + b| > 1 && (a + b)[1] == 's'
  {
  }

  lemma ParsedCons(steps: seq<Step>)
    requires |steps| > 0
    ensures Parsed(steps) == [ParsedStep(steps[0].number, steps[0].action, steps[0].expected)] + Parsed(steps[1..])
  {
    var a := Parsed(steps);
    var b := [ParsedStep(steps[0].number, steps[0].action, steps[0].expected)] + Parsed(steps[1..]);
    forall i | 0 <= i < |a| ensures a[i] == b[i] {
      if i > 0 {
        assert b[i] == Parsed(steps[1..])[i - 1];
        assert steps[1..][i - 1] == steps[i];
      }
    }
  }

  lemma {:induction false} ParseStepElements(steps: seq<Step>)
    ensures ParseSteps(StepElements(steps) + StepsClose) == Some(Parsed(steps))
    decreases |steps|
  {
    if |steps| == 0 {
      assert StepElements(steps) + StepsClose == StepsClose;
    } else {
      var e := StepElement(steps[0]);
      var rest := StepElements(steps[1..]) + StepsClose;
      var s := StepElements(steps) + StepsClose;
      assert StepElements(steps) == e + StepElements(steps[1..]);
      AppendAssoc(e, StepElements(steps[1..]), StepsClose);
      assert s == e + rest;
      StepElementStart(steps[0]);
      assert s[1] == e[1];
      ParseStepElement(steps[0], rest);
      ParseStepElements(steps[1..]);
      ParsedCons(steps);
      assert ParseSteps(s) == Some([ParsedStep(steps[0].number, steps[0].action, steps[0].expected)] + Parsed(steps[1..]));
    }
  }

  /** The steps value reads back as `last` = the number of steps and, in
      order, one element per step carrying that step's number, action and
      expected result. */
  lemma ParseStepsValue(steps: seq<Step>)
    ensures ParseStepsXml(StepsValue(steps)) == Some((|steps|, Parsed(steps)))
  {
    var n := NatToString(|steps|);
    var s3 := StepElements(steps) + StepsClose;
    var s2 := "\">" + s3;
    AppendAssoc(StepsOpen + n + "\">", StepElements(steps), StepsClose);
    AppendAssoc(StepsOpen + n, "\">", s3);
    AppendAssoc(StepsOpen, n, s2);
    assert StepsValue(steps) == StepsOpen + (n + s2);
    ExpectLit(StepsOpen, n + s2);
    NoQuoteInNumeral(|steps|);
    assert s2[0] == '"';
    SplitAtFirst(n, s2, '"');
    ParseNatToString(|steps|);
    ExpectLit("\">", s3);
    ParseStepElements(steps);
  }

  /** For steps numbered 1..n the element ids read back as 1..n, and
      `last` as n: the id of the last element. */
  lemma StepIdsOfContiguous(steps: seq<Step>)
    requires Contiguous(steps)
    ensures match ParseStepsXml(StepsValue(steps))
      case Some((last, ps)) =>
        last == |ps| == |steps| && forall i :: 0 <= i < |ps| ==> ps[i].id == i + 1
      case None => false
  {
    ParseStepsValue(steps);
  }
}
