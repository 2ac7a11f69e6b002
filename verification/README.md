# ADO Test Case Uploader — a Dafny model of its core

The uploader is a small web application (`app.py`). It turns a table of test
requirements into Azure DevOps test cases and uploads them. Each row of the
table names a form, a classification (`Form Level`, `Field Level` or
`Edit Check Level`) and a field or edit-check text. This project models the
data transformations behind the buttons and proves what they promise:

- `process_test_cases` (module `Builder`, facts in `BuilderFacts`) groups the
  rows by form name, keeping forms in first-encounter order. Each Form Level
  row becomes one standalone case without steps. A form's Field Level rows
  become one "Field Reviews" case and its Edit Check Level rows one "Edit
  Check Reviews" case, each with one step per row, numbered 1..n.
- `download_processed` (module `Flatten`) writes the cases out as a flat
  table: one row per step, or one row for a case without steps.
- `escape_xml` (module `XmlEscape`) and the steps XML the uploader attaches
  to each created work item (module `StepsXml`). Each comes with a decoder,
  and the round trips are proved.
- `upload_to_devops` and `validate_connection` (module `Upload`):
  - the JSON-patch create payload;
  - the per-case result: Dry Run, Success, Failed(code) or Error;
  - the loop that records one result per case;
  - the connection check.

  The Azure DevOps REST service is a parameter of these members. It is a
  function from the request to what the source sees of the response: a
  status code with a work item id, or the exception `requests` raised.

The rows of the pandas DataFrame are a `seq<Row>`. A cell the source reads
with `row.get(column, default)` is an `Option`, where `None` means the column
is absent and the default applies. An empty form-name cell (NaN) is `None`.
Numbers are rendered and read back as decimal strings (module `Numerals`).
`Common` holds `Option`, Python string truthiness and slicing (`s[:n]`).

## Model

| member | source | states |
|---|---|---|
| Common.Truncate | app.py:677 | The `str(e)[:50]` slice: the result is the prefix of the text of length exactly min(bound, length), so the whole text when it fits. |
| Numerals.ParseNatToString | app.py:639 | A count written with `str(n)`, as in the `last` attribute and the "Total fields/checks" descriptions, reads back as n. |
| XmlEscape.EscapeXml | app.py:167-171 | Empty text escapes to "". Otherwise the escaped text holds no raw `<`, `>`, `"` or `'`. Because `&` is replaced first, the five chained replacements equal escaping each character on its own, so no entity is escaped twice. |
| XmlEscape.UnescapeEscapeXml | app.py:167-171 | Decoding the five predefined entities in the escaped text recovers the original text exactly. |
| XmlEscape.EscapeXmlInjective | app.py:167-171 | Two different texts never escape to the same string. |
| Builder.UniqueForms | app.py:268 | `dropna().unique()`: every non-null form name of the table appears exactly once, and nothing else appears. |
| Builder.UniqueFormsOrdered | app.py:268-270 | Forms are processed in the order of their first rows. |
| Builder.GroupSteps | app.py:291-300 | Built by appending one step per row numbered `len(steps) + 1`, a group gives one step per row, in row order, numbered 1..n with no gap. Step i is the field (edit-check) step of row i. |
| Builder.StandaloneCase | app.py:275-286 | A Form Level row gives a case of type standalone titled `Form - <form>`, classified Form Level, with no steps. Its description, area path, iteration path and state are the row's text, area path, iteration path and state (State defaults to Design). |
| Builder.GroupCase | app.py:289-340 | A form with no rows of the classification gets no grouped case. Otherwise it gets exactly one. That case has the right title and classification, one numbered step per row, and a description ending in the step count. It takes area path, iteration path and state from the first row. |
| Builder.BuildWellFormed | app.py:259-342 | Every case produced is well formed for its type and belongs to a form named in the table. |
| BuilderFacts.CasesPerForm | app.py:270-340 | Each form gets one standalone case per Form Level row. It gets exactly one Field Reviews (Edit Check Reviews) case when it has a Field Level (Edit Check Level) row, and none otherwise. |
| BuilderFacts.GroupCaseIsBuilt | app.py:289-340 | When a form has rows of a grouped classification, the output contains that form's case of that type, with one step per row in row order. |
| BuilderFacts.DescriptionCountsSteps | app.py:296-335 | The count at the end of a grouped case's description ("Total fields: n", "Total checks: n") equals the case's number of steps. |
| BuilderFacts.TotalStepsOfBuild | app.py:289-340 | The total number of steps equals the number of Field Level and Edit Check Level rows that have a form name. Other rows contribute none. |
| BuilderFacts.BuildIgnoresNullForms | app.py:268-271 | Rows without a form name change nothing: dropping them gives the same test cases. |
| Flatten.CaseRows | app.py:467-500 | A case without steps gives one row with Total Steps 0 and empty step cells. A case with n steps gives n rows, and row i holds step i's number, action and expected text. Every row repeats the case's title, type, form, classification, description, paths and state, and the case's step count. |
| Flatten.FlattenCases | app.py:467-500 | In the exported table, a row has empty step cells exactly when its Total Steps is 0. |
| Flatten.FlattenLength | app.py:467-500 | The table has, summed over the cases, max(1, number of steps) rows. |
| Flatten.FlattenKeepsSteps | app.py:467-500 | Reading the step cells back gives every step of every case, in order. The rows with empty step cells are exactly one per case without steps. |
| Flatten.ExportRowsOfBuild | app.py:467-500 | End to end, the exported table of the processed input has one row per Form Level, Field Level or Edit Check Level row that has a form name. |
| StepsXml.ParseStepsValue | app.py:638-648 | The steps XML reads back as `last` = the number of steps plus one step element per step, in order. Each element carries that step's number, action and expected text, unescaped. |
| StepsXml.StepIdsOfContiguous | app.py:639-647 | For steps numbered 1..n, the element ids read back as 1..n and `last` as n. |
| Upload.CreatePayload | app.py:608-627 | The payload has 5 to 7 operations. It opens with Title, State and Description and closes with Classification and Form Name. |
| Upload.PayloadFields | app.py:608-627 | Each field of the payload, read back, carries the case's value. An area (iteration) override wins over the case's own path, and the path is omitted when both are empty. The steps field is absent, and no field is set twice. |
| Upload.UploadCase | app.py:594-682 | Each result keeps the case's title and step count. It is Dry Run exactly in dry-run mode, with id 'N/A' exactly then. It has an id exactly when it is Success. An Error message is at most 50 characters. |
| Upload.SuccessExactly | app.py:630-662 | A case is Success exactly when it is not a dry run, the create request answered 200 or 201 with a readable id, and (for a case with steps) the steps update raised nothing. The id recorded is the created work item's. |
| Upload.ErrorCarriesMessage | app.py:674-681 | Outside dry runs, an Error result's message is the first 50 characters of the exception raised: by the create request, by reading the id from its 200/201 body, or by the steps update. No other path gives Error. |
| Upload.FailedCarriesCode | app.py:663-671 | Outside dry runs, a result is Failed exactly when the create request answered with a code other than 200 and 201. That code is recorded. |
| Upload.PatchStatusIgnored | app.py:650-662 | The status code of the steps update never affects the result. |
| Upload.DryRunOffline | app.py:595-605 | A dry run's result does not depend on the service and is Dry Run, 'N/A', with the case's title and step count. |
| Upload.StatusTextSuccess | app.py:656-681 | Among the status texts the loop records, only a Success result reads "Success". |
| Upload.UploadToDevops | app.py:564-693 | With test cases missing or a credential empty, the run stops with "Missing required configuration…" and records nothing. With a token that is not ASCII, building the authorization header raises before the loop: the run aborts, publishing and recording nothing. Otherwise it records exactly one result per case, in order, each the per-case outcome. It publishes a progress snapshot `current/total` before each case and a completion snapshot at the end. In dry-run mode every status is Dry Run and every id 'N/A'. |
| Upload.AuthStringAscii | app.py:157-161 | The text the header encodes, `":" + token`, is ASCII exactly when the token is, so the upload aborts exactly for tokens with a character of code 128 or more. |
| Upload.ValidateConnection | app.py:511-547 | With organization, project or token empty, the check fails with the fill-in message. Otherwise it succeeds exactly when the work-item-types request answered 200. |
| Upload.ValidateShortCircuits | app.py:517-522 | With a field missing, the outcome does not depend on the service: no request is made. |

## Left out

- The Shiny UI, its reactive values and every `render.*` output (app.py:21-142, 208-252, 348-449, 549-556, 699-754). These are presentation only. The summary's count of "Success" rows is represented by `Upload.StatusTextSuccess`.
- HTTP requests (app.py:530, 631, 654) are function parameters, not network calls. Timeouts are part of the exception case.
- `create_auth_header` (app.py:157-165) is modelled only by whether it raises: a token that is not ASCII makes `.encode('ascii')` fail. Base64 and the header text are library work, and the oracle stands for the authenticated service.
- Upload.ValidateConnection: a token that is not ASCII raises inside the `try` (app.py:524-526) and is caught at app.py:543. The model lets the oracle report it as `GetRaised`, so the exact `UnicodeEncodeError` text is not modelled.
- `time.sleep` pacing and `datetime.now()` timestamps (app.py:597, 603, 661, 670, 680, 685) are not modelled, so results carry no Timestamp cell.
- CSV loading (app.py:179-202) is not modelled: `pd.read_csv`, header stripping, and the missing-column warning, which only prints. Rows arrive as a `seq<Row>`.
- A table lacking the `Custom.FormName` column makes the source raise a `KeyError` at app.py:268. A table lacking `Custom.TestCaseClassification` raises a `KeyError` at app.py:274, but only once some row has a form name; without such a row the source yields no cases. In the model every row has both cells, so neither error is modelled.
- The `df is None` and `test_cases is None` early returns (app.py:262-263, 460-462) are not modelled. A missing test-case list and an empty one are both the empty sequence, and `upload_to_devops` treats both as missing.
- pandas NaN cells other than the form name are stringified by `str()` as "nan". The model reads such a cell as a plain string.
- Rows whose classification is none of the three values create no case. Their form still takes its place in the form order. This is modelled but has no lemma of its own beyond `BuilderFacts.CasesPerForm`.
- `DataFrame.to_csv` rendering of the exported rows is not modelled, only the rows.
- The "Unknown error" message computed on a failed create and every `print` (app.py:664, 672, 682) are not modelled: they only go to the console.
- Upload.UploadToDevops: the completion snapshot does not carry the constant text "Upload complete!", and the `status` strings of the progress dictionaries are the constructor names.
- Upload.UploadCase: HTTP status codes and work item ids are unbounded naturals. A body that is not JSON or lacks an `id` key is the `Unreadable` case: the source raises there and records Error. A body whose `id` is not a natural number (a string, a negative number) is not modelled; the source records such a case as Success with that id.
