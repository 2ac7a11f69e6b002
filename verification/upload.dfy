/** `upload_to_devops` and `validate_connection` (app.py): the per-case work
    of the upload loop and the connection check, with the HTTP service
    abstracted as oracles.  An oracle is a function from the request (the
    1-based position of the case, the URL and the JSON-patch body) to what the
    source sees of the response: a status code and the parsed work item id,
    or the exception `requests` raised.  Pacing sleeps and timestamps are not
    modelled. */
module Upload {
  import opened Common
  import opened Numerals
  import opened Records
  import opened StepsXml

  // ---------------------------------------------------------------------
  // The create payload
  // ---------------------------------------------------------------------

  /** The work item fields the uploader writes. */
  datatype Field =
    | TitleField | StateField | DescriptionField | AreaPathField
    | IterationPathField | ClassificationField | FormNameField | StepsField

  /** The JSON-patch `path` of a field. */
  function PathOf(f: Field): string {
    match f
    case TitleField => "/fields/System.Title"
    case StateField => "/fields/System.State"
    case DescriptionField => "/fields/System.Description"
    case AreaPathField => "/fields/System.AreaPath"
    case IterationPathField => "/fields/System.IterationPath"
    case ClassificationField => "/fields/Custom.TestCaseClassification"
    case FormNameField => "/fields/Custom.FormName"
    case StepsField => "/fields/Microsoft.VSTS.TCM.Steps"
  }

  /** One JSON-patch operation; the uploader only ever sends "add". */
  datatype PatchOp = Add(path: Field, value: string)

  /** Python's `a or b` on strings. */
  function Or(a: string, b: string): string {
    if Truthy(a) then a else b
  }

  /** The body of the create request.  Title, State and Description always
      come first; the area and iteration paths are the caller's overrides when
      given, the case's own otherwise, and are left out when that is empty;
      classification and form name always close the list (the source wraps
      them in a `try` that cannot fail). */
  function CreatePayload(tc: TestCase, areaOverride: string, iterationOverride: string): (ops: seq<PatchOp>)
    ensures 5 <= |ops| <= 7
    ensures ops[..3] == [Add(TitleField, tc.title), Add(StateField, tc.state), Add(DescriptionField, tc.description)]
    ensures ops[|ops| - 2..] == [Add(ClassificationField, tc.classification), Add(FormNameField, tc.formName)]
  {
    var area := Or(areaOverride, tc.areaPath);
    var iteration := Or(iterationOverride, tc.iterationPath);
    [Add(TitleField, tc.title), Add(StateField, tc.state), Add(DescriptionField, tc.description)]
      + (if Truthy(area) then [Add(AreaPathField, area)] else [])
      + (if Truthy(iteration) then [Add(IterationPathField, iteration)] else [])
      + [Add(ClassificationField, tc.classification), Add(FormNameField, tc.formName)]
  }

  /** The value an operation list sets for `path`: the first one for it. */
  function FieldValue(ops: seq<PatchOp>, path: Field): Option<string>
    decreases |ops|
  {
    if |ops| == 0 then None
    else if ops[0].path == path then Some(ops[0].value)
    else FieldValue(ops[1..], path)
  }

  /** How many operations of the list set `path`. */
  function Occurrences(ops: seq<PatchOp>, path: Field): nat
    decreases |ops|
  {
    if |ops| == 0 then 0
    else (if ops[0].path == path then 1 else 0) + Occurrences(ops[1..], path)
  }

  /** The field an override resolves to: the override when non-empty, else
      the case's own value when non-empty, else the field is not sent. */
  function Resolved(override: string, own: string): Option<string> {
    if Truthy(override) then Some(override)
    else if Truthy(own) then Some(own)
    else None
  }

  lemma {:induction false} FieldValueAppend(a: seq<PatchOp>, b: seq<PatchOp>, path: Field)
    ensures FieldValue(a + b, path) == if FieldValue(a, path).Some? then FieldValue(a, path) else FieldValue(b, path)
    ensures Occurrences(a + b, path) == Occurrences(a, path) + Occurrences(b, path)
    decreases |a|
  {
    if |a| == 0 {
      assert a + b == b;
    } else {
      assert (a + b)[0] == a[0];
      assert (a + b)[1..] == a[1..] + b;
      FieldValueAppend(a[1..], b, path);
    }
  }

  lemma FieldValueSnoc(ops: seq<PatchOp>, op: PatchOp, path: Field)
    ensures FieldValue(ops + [op], path) ==
      if FieldValue(ops, path).Some? then FieldValue(ops, path)
      else if op.path == path then Some(op.value) else None
    ensures Occurrences(ops + [op], path) == Occurrences(ops, path) + if op.path == path then 1 else 0
  {
    FieldValueAppend(ops, [op], path);
    assert [op][1..] == [];
  }

  lemma FieldValueTriple(a: PatchOp, b: PatchOp, c: PatchOp, path: Field)
    ensures FieldValue([a, b, c], path) ==
      if a.path == path then Some(a.value)
      else if b.path == path then Some(b.value)
      else if c.path == path then Some(c.value) else None
    ensures Occurrences([a, b, c], path) ==
      (if a.path == path then 1 else 0) + (if b.path == path then 1 else 0) + (if c.path == path then 1 else 0)
  {
    assert [c][1..] == [];
    assert FieldValue([c], path) == if c.path == path then Some(c.value) else None;
    assert [b, c][1..] == [c];
    assert FieldValue([b, c], path) == if b.path == path then Some(b.value) else FieldValue([c], path);
    assert Occurrences([b, c], path) == (if b.path == path then 1 else 0) + Occurrences([c], path);
    assert [a, b, c][1..] == [b, c];
  }

  /** The payload as the source builds it: three operations, then one
      append per optional and per custom field. */
  lemma PayloadSteps(tc: TestCase, areaOverride: string, iterationOverride: string, path: Field)
    ensures var area := Or(areaOverride, tc.areaPath);
      var iteration := Or(iterationOverride, tc.iterationPath);
      var ops := CreatePayload(tc, areaOverride, iterationOverride);
      && FieldValue(ops, path) ==
        (match path
         case TitleField => Some(tc.title)
         case StateField => Some(tc.state)
         case DescriptionField => Some(tc.description)
         case AreaPathField => if Truthy(area) then Some(area) else None
         case IterationPathField => if Truthy(iteration) then Some(iteration) else None
         case ClassificationField => Some(tc.classification)
         case FormNameField => Some(tc.formName)
         case StepsField => None)
      && Occurrences(ops, path) ==
        (match path
         case AreaPathField => if Truthy(area) then 1 else 0
         case IterationPathField => if Truthy(iteration) then 1 else 0
         case StepsField => 0
         case _ => 1)
  {
    var area := Or(areaOverride, tc.areaPath);
    var iteration := Or(iterationOverride, tc.iterationPath);
    var o3 := [Add(TitleField, tc.title), Add(StateField, tc.state), Add(DescriptionField, tc.description)];
    FieldValueTriple(o3[0], o3[1], o3[2], path);
    var o4 := o3 + (if Truthy(area) then [Add(AreaPathField, area)] else []);
    if Truthy(area) { FieldValueSnoc(o3, Add(AreaPathField, area), path); } else { assert o4 == o3; }
    var o5 := o4 + (if Truthy(iteration) then [Add(IterationPathField, iteration)] else []);
    if Truthy(iteration) { FieldValueSnoc(o4, Add(IterationPathField, iteration), path); } else { assert o5 == o4; }
    var o6 := o5 + [Add(ClassificationField, tc.classification)];
    FieldValueSnoc(o5, Add(ClassificationField, tc.classification), path);
    FieldValueSnoc(o6, Add(FormNameField, tc.formName), path);
    assert CreatePayload(tc, areaOverride, iterationOverride) == o6 + [Add(FormNameField, tc.formName)];
  }

  /** Reading the create payload field by field: title, state, description,
      classification and form name carry the case's values; area and
      iteration path are resolved with the overrides taking precedence and are
      absent when they resolve to ""; the steps field is not part of it; no
      field is set twice. */
  lemma PayloadFields(tc: TestCase, areaOverride: string, iterationOverride: string)
    ensures var ops := CreatePayload(tc, areaOverride, iterationOverride);
      && FieldValue(ops, TitleField) == Some(tc.title)
      && FieldValue(ops, StateField) == Some(tc.state)
      && FieldValue(ops, DescriptionField) == Some(tc.description)
      && FieldValue(ops, AreaPathField) == Resolved(areaOverride, tc.areaPath)
      && FieldValue(ops, IterationPathField) == Resolved(iterationOverride, tc.iterationPath)
      && FieldValue(ops, ClassificationField) == Some(tc.classification)
      && FieldValue(ops, FormNameField) == Some(tc.formName)
      && FieldValue(ops, StepsField) == None
      && forall path :: Occurrences(ops, path) <= 1
  {
    forall path ensures FieldValue(CreatePayload(tc, areaOverride, iterationOverride), path) ==
      (match path
       case TitleField => Some(tc.title)
       case StateField => Some(tc.state)
       case DescriptionField => Some(tc.description)
       case AreaPathField => Resolved(areaOverride, tc.areaPath)
       case IterationPathField => Resolved(iterationOverride, tc.iterationPath)
       case ClassificationField => Some(tc.classification)
       case FormNameField => Some(tc.formName)
       case StepsField => None)
      && Occurrences(CreatePayload(tc, areaOverride, iterationOverride), path) <= 1
    {
      PayloadSteps(tc, areaOverride, iterationOverride, path);
    }
  }

  // ---------------------------------------------------------------------
  // One case of the upload loop
  // ---------------------------------------------------------------------

  /** What the source sees of the create response body: the work item id, or
      the exception `response.json()['id']` raised. */
  datatype Body = WithId(id: nat) | Unreadable(message: string)

  /** The create request: a response with a status code, or an exception. */
  datatype CreateResponse = Responded(status: nat, body: Body) | CreateRaised(message: string)

  /** The steps update: a response (whose status is ignored), or an exception. */
  datatype PatchResponse = Patched(status: nat) | PatchRaised(message: string)

  /** Case position (1-based), URL and body of a request. */
  type CreateOracle = (nat, string, seq<PatchOp>) -> CreateResponse
  type PatchOracle = (nat, string, seq<PatchOp>) -> PatchResponse

  /** The caller's inputs: connection, overrides and the dry-run switch. */
  datatype Settings = Settings(
    organization: string,
    project: string,
    token: string,
    areaPath: string,
    iterationPath: string,
    dryRun: bool)

  function BaseUrl(s: Settings): string {
    "https://dev.azure.com/" + s.organization + "/" + s.project + "/_apis"
  }

  function CreateUrl(s: Settings): string {
    BaseUrl(s) + "/wit/workitems/$Test Case?api-version=7.0"
  }

  function UpdateUrl(s: Settings, id: nat): string {
    BaseUrl(s) + "/wit/workitems/" + NatToString(id) + "?api-version=7.0"
  }

  datatype Status = DryRun | Success | Failed(code: nat) | Error(message: string)

  /** The `Work Item ID` cell: 'N/A' in a dry run, the id on success, empty otherwise. */
  datatype WorkItemId = NotApplicable | NoId | Id(value: nat)

  datatype UploadResult = UploadResult(title: string, status: Status, workItemId: WorkItemId, steps: nat)

  /** The `Status` cell as the results table shows it. */
  function StatusText(s: Status): string {
    match s
    case DryRun => "Dry Run"
    case Success => "Success"
    case Failed(code) => "Failed (" + NatToString(code) + ")"
    case Error(m) => "Error: " + m
  }

  /** The result recorded when the `try` block raised: `str(e)[:50]`. */
  function Raised(tc: TestCase, message: string): UploadResult {
    UploadResult(tc.title, Error(Truncate(message, 50)), NoId, |tc.steps|)
  }

  /** The body of the upload loop for the case at 1-based position `index`. */
  function UploadCase(tc: TestCase, index: nat, s: Settings, create: CreateOracle, patch: PatchOracle): (r: UploadResult)
    ensures r.title == tc.title && r.steps == |tc.steps|
    ensures r.status.DryRun? <==> s.dryRun
    ensures r.workItemId.NotApplicable? <==> r.status.DryRun?
    ensures r.workItemId.Id? <==> r.status.Success?
    ensures r.status.Error? ==> |r.status.message| <= 50
  {
    if s.dryRun then UploadResult(tc.title, DryRun, NotApplicable, |tc.steps|)
    else
      match create(index, CreateUrl(s), CreatePayload(tc, s.areaPath, s.iterationPath))
      case CreateRaised(m) => Raised(tc, m)
      case Responded(code, body) =>
        if code == 200 || code == 201 then
          match body
          case Unreadable(m) => Raised(tc, m)
          case WithId(id) =>
            if |tc.steps| == 0 then UploadResult(tc.title, Success, Id(id), 0)
            else
              match patch(index, UpdateUrl(s, id), [Add(StepsField, StepsValue(tc.steps))])
              case PatchRaised(m) => Raised(tc, m)
              case Patched(_) => UploadResult(tc.title, Success, Id(id), |tc.steps|)
        else UploadResult(tc.title, Failed(code), NoId, |tc.steps|)
  }

  /** A case is recorded as Success exactly when it is not a dry run, the
      create request answered 200 or 201 with a readable id, and, when the
      case has steps, the steps update did not raise; that id is recorded. */
  lemma SuccessExactly(tc: TestCase, index: nat, s: Settings, create: CreateOracle, patch: PatchOracle)
    ensures var r := UploadCase(tc, index, s, create, patch);
      var resp := create(index, CreateUrl(s), CreatePayload(tc, s.areaPath, s.iterationPath));
      r.status.Success? <==>
        && !s.dryRun
        && resp.Responded? && (resp.status == 200 || resp.status == 201) && resp.body.WithId?
        && (|tc.steps| > 0 ==>
              patch(index, UpdateUrl(s, resp.body.id), [Add(StepsField, StepsValue(tc.steps))]).Patched?)
    ensures var r := UploadCase(tc, index, s, create, patch);
      var resp := create(index, CreateUrl(s), CreatePayload(tc, s.areaPath, s.iterationPath));
      r.status.Success? ==> r.workItemId == Id(resp.body.id)
  {
  }

  /** An Error result carries the first 50 characters of the exception's
      text: the create request's, the unreadable body's, or the steps
      update's, whichever raised; and those are the only ways to an Error. */
  lemma ErrorCarriesMessage(tc: TestCase, index: nat, s: Settings, create: CreateOracle, patch: PatchOracle)
    requires !s.dryRun
    ensures var r := UploadCase(tc, index, s, create, patch);
      var resp := create(index, CreateUrl(s), CreatePayload(tc, s.areaPath, s.iterationPath));
      resp.CreateRaised? ==> r.status == Error(Truncate(resp.message, 50))
    ensures var r := UploadCase(tc, index, s, create, patch);
      var resp := create(index, CreateUrl(s), CreatePayload(tc, s.areaPath, s.iterationPath));
      resp.Responded? && (resp.status == 200 || resp.status == 201) && resp.body.Unreadable? ==>
        r.status == Error(Truncate(resp.body.message, 50))
    ensures var r := UploadCase(tc, index, s, create, patch);
      var resp := create(index, CreateUrl(s), CreatePayload(tc, s.areaPath, s.iterationPath));
      resp.Responded? && (resp.status == 200 || resp.status == 201) && resp.body.WithId? && |tc.steps| > 0 ==>
        var p := patch(index, UpdateUrl(s, resp.body.id), [Add(StepsField, StepsValue(tc.steps))]);
        p.PatchRaised? ==> r.status == Error(Truncate(p.message, 50))
    ensures var r := UploadCase(tc, index, s, create, patch);
      var resp := create(index, CreateUrl(s), CreatePayload(tc, s.areaPath, s.iterationPath));
      r.status.Error? ==>
        || resp.CreateRaised?
        || (resp.Responded? && (resp.status == 200 || resp.status == 201) && resp.body.Unreadable?)
        || (resp.Responded? && (resp.status == 200 || resp.status == 201) && resp.body.WithId? && |tc.steps| > 0
            && patch(index, UpdateUrl(s, resp.body.id), [Add(StepsField, StepsValue(tc.steps))]).PatchRaised?)
  {
  }

  /** A create answer other than 200/201 is recorded as Failed with its code. */
  lemma FailedCarriesCode(tc: TestCase, index: nat, s: Settings, create: CreateOracle, patch: PatchOracle)
    requires !s.dryRun
    ensures var resp := create(index, CreateUrl(s), CreatePayload(tc, s.areaPath, s.iterationPath));
      UploadCase(tc, index, s, create, patch).status.Failed? <==>
        resp.Responded? && resp.status != 200 && resp.status != 201
    ensures var resp := create(index, CreateUrl(s), CreatePayload(tc, s.areaPath, s.iterationPath));
      UploadCase(tc, index, s, create, patch).status.Failed? ==>
        UploadCase(tc, index, s, create, patch).status.code == resp.status
  {
  }

  /** The status code of the steps update is never looked at: two services
      that differ only in it yield the same result. */
  lemma PatchStatusIgnored(tc: TestCase, index: nat, s: Settings, create: CreateOracle,
                           patch1: PatchOracle, patch2: PatchOracle)
    requires forall i, url, ops :: patch1(i, url, ops).Patched? == patch2(i, url, ops).Patched?
    requires forall i, url, ops :: patch1(i, url, ops).PatchRaised? ==
               (patch2(i, url, ops).PatchRaised? && patch1(i, url, ops).message == patch2(i, url, ops).message)
    ensures UploadCase(tc, index, s, create, patch1) == UploadCase(tc, index, s, create, patch2)
  {
  }

  /** A dry run sends nothing: its result does not depend on the service. */
  lemma DryRunOffline(tc: TestCase, index: nat, s: Settings,
                      create1: CreateOracle, patch1: PatchOracle, create2: CreateOracle, patch2: PatchOracle)
    requires s.dryRun
    ensures UploadCase(tc, index, s, create1, patch1) == UploadCase(tc, index, s, create2, patch2)
    ensures UploadCase(tc, index, s, create1, patch1) == UploadResult(tc.title, DryRun, NotApplicable, |tc.steps|)
  {
  }

  /** Only a Success result reads "Success" in the results table, which is
      what the summary counts. */
  lemma StatusTextSuccess(st: Status)
    ensures StatusText(st) == "Success" <==> st.Success?
  {
    match st
    case DryRun =>
    case Success =>
    case Failed(c) => assert StatusText(st)[0] == 'F';
    case Error(m) => assert StatusText(st)[0] == 'E';
  }

  // ---------------------------------------------------------------------
  // The upload loop
  // ---------------------------------------------------------------------

  /** The progress snapshots the loop publishes. */
  datatype Progress = Running(current: nat, total: nat, message: string) | Complete(current: nat, total: nat) | Halted(message: string)

  /** The outcome of one press of the upload button.  `Aborted` is the
      exception `create_auth_header` raises before the loop starts; it
      escapes the handler, so nothing is recorded. */
  datatype Run = Rejected(message: string) | Aborted | Completed(results: seq<UploadResult>)

  const MissingConfiguration: string := "Missing required configuration. Please fill all fields."

  /** `all([test_cases, organization, project, pat_token])`. */
  predicate Configured(cases: seq<TestCase>, s: Settings) {
    |cases| > 0 && Truthy(s.organization) && Truthy(s.project) && Truthy(s.token)
  }

  /** Whether `.encode('ascii')` accepts the text: every character is below 128. */
  predicate AsciiText(s: string) {
    forall i :: 0 <= i < |s| ==> s[i] as int < 128
  }

  /** The text `create_auth_header` encodes: `f":{pat_token}"`. */
  function AuthString(token: string): string {
    ":" + token
  }

  /** The encoded text is ASCII exactly when the token is: the leading colon
      never makes the encoding fail. */
  lemma AuthStringAscii(token: string)
    ensures AsciiText(AuthString(token)) <==> AsciiText(token)
  {
    var a := AuthString(token);
    if AsciiText(token) {
      forall i | 0 <= i < |a| ensures a[i] as int < 128 {
        if i > 0 { assert a[i] == token[i - 1]; }
      }
    }
    if AsciiText(a) {
      forall i | 0 <= i < |token| ensures token[i] as int < 128 {
        assert a[i + 1] == token[i];
      }
    }
  }

  /** `upload_to_devops`: rejects a missing configuration before any
      request; aborts, with nothing published, when the token cannot be
      encoded as ASCII for the authorization header (that call precedes the
      `try`); otherwise records exactly one result per case, in order,
      publishing a Running snapshot before each case and Complete at the end. */
  method UploadToDevops(cases: seq<TestCase>, s: Settings, create: CreateOracle, patch: PatchOracle)
    returns (run: Run, progress: seq<Progress>)
    ensures run.Rejected? <==> !Configured(cases, s)
    ensures run.Rejected? ==> run.message == MissingConfiguration && progress == [Halted(MissingConfiguration)]
    ensures run.Aborted? <==> Configured(cases, s) && !AsciiText(s.token)
    ensures run.Aborted? ==> progress == []
    ensures run.Completed? ==>
      && |run.results| == |cases|
      && (forall i :: 0 <= i < |cases| ==> run.results[i] == UploadCase(cases[i], i + 1, s, create, patch))
      && |progress| == |cases| + 1
      && (forall i :: 0 <= i < |cases| ==> progress[i] == Running(i + 1, |cases|, "Processing: " + cases[i].title))
      && progress[|cases|] == Complete(|cases|, |cases|)
    ensures run.Completed? && s.dryRun ==>
      forall i :: 0 <= i < |cases| ==>
        run.results[i].status == DryRun && run.results[i].workItemId == NotApplicable
  {
    if !Configured(cases, s) {
      return Rejected(MissingConfiguration), [Halted(MissingConfiguration)];
    }
    AuthStringAscii(s.token);
    if !AsciiText(AuthString(s.token)) {
      return Aborted, [];
    }
    var results: seq<UploadResult> := [];
    progress := [];
    var idx := 0;
    while idx < |cases|
      invariant 0 <= idx <= |cases|
      invariant |results| == idx && |progress| == idx
      invariant forall i :: 0 <= i < idx ==> results[i] == UploadCase(cases[i], i + 1, s, create, patch)
      invariant forall i :: 0 <= i < idx ==> progress[i] == Running(i + 1, |cases|, "Processing: " + cases[i].title)
    {
      progress := progress + [Running(idx + 1, |cases|, "Processing: " + cases[idx].title)];
      results := results + [UploadCase(cases[idx], idx + 1, s, create, patch)];
      idx := idx + 1;
    }
    progress := progress + [Complete(|cases|, |cases|)];
    run := Completed(results);
  }

  // ---------------------------------------------------------------------
  // Connection check
  // ---------------------------------------------------------------------

  /** The read request: a response with status and text, or an exception. */
  datatype GetResponse = GetResponded(status: nat, text: string) | GetRaised(message: string)

  datatype Validation = Validation(success: bool, message: string)

  const FillInMessage: string := "Please fill in organization, project, and PAT token."

  function WorkItemTypesUrl(s: Settings): string {
    BaseUrl(s) + "/wit/workitemtypes?api-version=7.0"
  }

  /** `validate_connection`: a missing organization, project or token fails
      locally; otherwise one read of the work item types succeeds on 200 and
      fails with the status and at most 200 characters of the response text,
      or with the exception text. */
  function ValidateConnection(s: Settings, get: string -> GetResponse): (v: Validation)
    ensures !(Truthy(s.organization) && Truthy(s.project) && Truthy(s.token)) ==>
      v == Validation(false, FillInMessage)
    ensures v.success <==>
      Truthy(s.organization) && Truthy(s.project) && Truthy(s.token)
      && get(WorkItemTypesUrl(s)).GetResponded? && get(WorkItemTypesUrl(s)).status == 200
  {
    if !(Truthy(s.organization) && Truthy(s.project) && Truthy(s.token)) then
      Validation(false, FillInMessage)
    else
      match get(WorkItemTypesUrl(s))
      case GetResponded(code, text) =>
        if code == 200 then Validation(true, "✅ Connection successful! Project: " + s.project)
        else Validation(false, "❌ Connection failed: HTTP " + NatToString(code) + "\nResponse: " + Truncate(text, 200))
      case GetRaised(m) => Validation(false, "❌ Error: " + m)
  }

  /** A token with a non-ASCII character, such as "tökén", stops the upload
      before its first case. */
  lemma NonAsciiTokenAborts(cases: seq<TestCase>, s: Settings)
    requires |cases| > 0 && Truthy(s.organization) && Truthy(s.project)
    requires s.token == "tökén"
    ensures Configured(cases, s) && !AsciiText(s.token)
  {
    assert s.token[1] as int == 246;
  }

  /** The local check comes before any request: with a field missing, the
      outcome is the same whatever the service would have said. */
  lemma ValidateShortCircuits(s: Settings, get1: string -> GetResponse, get2: string -> GetResponse)
    requires !(Truthy(s.organization) && Truthy(s.project) && Truthy(s.token))
    ensures ValidateConnection(s, get1) == ValidateConnection(s, get2)
  {
  }
}
