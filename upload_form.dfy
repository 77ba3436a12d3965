/**
  The upload form's submit handler: it refuses blank fields, parses the JSON
  text, accepts a single record or an array of records, checks that every
  record has a truthy `instruction`, `input` and `output`, posts
  `{teammateId, passcode, datasets}` to the upload endpoint and reports the
  answer. `JSON.parse` and `fetch` are parameters of the model.
 */
module UploadForm {
  import opened Wrappers
  import opened JsonValues
  import opened Text
  import opened DatasetsApi

  /** What `JSON.parse` does with the text: a value, or a `SyntaxError` with its message. */
  datatype ParseResult = Parsed(value: Json) | SyntaxError(message: string)

  /**
    What `fetch` followed by `response.json()` gives: an answer, a rejection
    with an `Error` carrying its message (possibly empty), or a rejection
    with a value that is not an `Error`.
   */
  datatype Reply = Answered(response: Response) | Rejected(message: string) | NonErrorRejection

  /** The outcome of the checks before sending: an error to show, or the request body to post. */
  datatype Plan = Blocked(error: string) | Send(request: Json)

  /** The three state updates a settled request makes. */
  datatype Feedback = Feedback(error: string, success: string, clearInput: bool)

  const BlankMessage := "Please fill in all fields"
  const InvalidPrefix := "Invalid JSON format: "
  const FieldsMessage := "Each dataset must have instruction, input, and output fields"
  /** The TypeError V8 throws for `null.instruction`. */
  const NullEntryMessage := "Cannot read properties of null (reading 'instruction')"

  /** `Array.isArray(parsed) ? parsed : [parsed]`. */
  function Normalize(parsed: Json): (entries: seq<Json>)
    ensures parsed.JArray? ==> entries == parsed.items
    ensures !parsed.JArray? ==> entries == [parsed]
  {
    if parsed.JArray? then parsed.items else [parsed]
  }

  /** The loop body's check of one record; None when the record passes. */
  function EntryError(ds: Json): (e: Option<string>)
    ensures e.None? <==> ds != JNull && Truthy(Property(ds, "instruction"))
                         && Truthy(Property(ds, "input")) && Truthy(Property(ds, "output"))
    ensures e.Some? ==> e.value == NullEntryMessage || e.value == FieldsMessage
  {
    if ds.JNull? then Some(NullEntryMessage)
    else if !Truthy(Property(ds, "instruction")) || !Truthy(Property(ds, "input")) || !Truthy(Property(ds, "output"))
    then Some(FieldsMessage)
    else None
  }

  /** The error of the first record that fails the check, if any. */
  function FirstEntryError(entries: seq<Json>): (e: Option<string>)
    ensures e.None? <==> forall k :: 0 <= k < |entries| ==> EntryError(entries[k]).None?
    ensures e.Some? ==> exists k :: 0 <= k < |entries| && EntryError(entries[k]) == e
                                    && forall j :: 0 <= j < k ==> EntryError(entries[j]).None?
  {
    if entries == [] then None
    else if EntryError(entries[0]).Some? then EntryError(entries[0])
    else
      var rest := FirstEntryError(entries[1..]);
      assert forall k :: 1 <= k < |entries| ==> entries[k] == entries[1..][k - 1];
      if rest.Some? then
        assert exists k :: 1 <= k < |entries| && EntryError(entries[k]) == rest
                           && forall j :: 0 <= j < k ==> EntryError(entries[j]).None? by {
          var k :| 0 <= k < |entries[1..]| && EntryError(entries[1..][k]) == rest
                   && forall j :: 0 <= j < k ==> EntryError(entries[1..][j]).None?;
          assert EntryError(entries[k + 1]) == rest;
          assert forall j :: 1 <= j < k + 1 ==> entries[j] == entries[1..][j - 1];
        }
        rest
      else rest
  }

  /** The first failing record decides the error. */
  lemma {:induction false} FirstEntryErrorAt(entries: seq<Json>, k: nat)
    requires k < |entries| && EntryError(entries[k]).Some?
    requires forall j :: 0 <= j < k ==> EntryError(entries[j]).None?
    ensures FirstEntryError(entries) == EntryError(entries[k])
  {
    if k > 0 {
      assert EntryError(entries[0]).None?;
      assert forall j :: 0 <= j < k - 1 ==> entries[1..][j] == entries[j + 1];
      FirstEntryErrorAt(entries[1..], k - 1);
    }
  }

  /** `for (const ds of datasets)`, throwing out of the loop at the first failing record. */
  method CheckEntries(entries: seq<Json>) returns (e: Option<string>)
    ensures e == FirstEntryError(entries)
  {
    var i := 0;
    while i < |entries|
      invariant 0 <= i <= |entries|
      invariant forall j :: 0 <= j < i ==> EntryError(entries[j]).None?
    {
      var error := EntryError(entries[i]);
      if error.Some? {
        FirstEntryErrorAt(entries, i);
        return error;
      }
      i := i + 1;
    }
    e := None;
  }

  /** The body `JSON.stringify` sends: `{teammateId: selectedTeammate, passcode, datasets}`. */
  function RequestBody(teammateId: string, passcode: string, entries: seq<Json>): (r: Json)
    ensures Property(r, "teammateId") == Some(JString(teammateId))
    ensures Property(r, "passcode") == Some(JString(passcode))
    ensures Property(r, "datasets") == Some(JArray(entries))
    ensures r.JObject? && r.fields.Keys == {"teammateId", "passcode", "datasets"}
  {
    Object3("teammateId", JString(teammateId), "passcode", JString(passcode), "datasets", JArray(entries))
  }

  /**
    The checks of `handleSubmit` before the request: a request is sent
    exactly when no field is blank, the text parses and every record passes,
    and then it carries the selected teammate, the passcode and the
    normalised records.
   */
  function Prepare(selected: string, passcode: string, jsonInput: string, parse: string -> ParseResult): (p: Plan)
    ensures p.Send? <==> (&& selected != [] && passcode != [] && jsonInput != []
                          && parse(jsonInput).Parsed?
                          && forall k :: 0 <= k < |Normalize(parse(jsonInput).value)| ==>
                               EntryError(Normalize(parse(jsonInput).value)[k]).None?)
    ensures p.Send? ==> p.request == RequestBody(selected, passcode, Normalize(parse(jsonInput).value))
    ensures p.Blocked? && (selected == [] || passcode == [] || jsonInput == []) ==> p.error == BlankMessage
    ensures p.Blocked? && selected != [] && passcode != [] && jsonInput != [] ==> InvalidPrefix <= p.error
  {
    if selected == [] || passcode == [] || jsonInput == [] then Blocked(BlankMessage)
    else
      match parse(jsonInput)
      case SyntaxError(message) => Blocked(InvalidPrefix + message)
      case Parsed(value) =>
        var entries := Normalize(value);
        match FirstEntryError(entries)
        case Some(message) => Blocked(InvalidPrefix + message)
        case None => Send(RequestBody(selected, passcode, entries))
  }

  /** `response.ok`. */
  predicate IsOk(status: nat)
    ensures IsOk(status) <==> status / 100 == 2
  {
    200 <= status < 300
  }

  /** `${result.count}`: the number, or `undefined` when the body has no count. */
  function CountText(body: ResponseBody): (r: string)
    ensures body.SuccessBody? ==> IsDigits(r) && DigitsValue(r) == body.count
    ensures !body.SuccessBody? ==> r == "undefined"
  {
    NatToStringOfCount(body);
    if body.SuccessBody? then NatToString(body.count) else "undefined"
  }

  lemma NatToStringOfCount(body: ResponseBody)
    ensures body.SuccessBody? ==> DigitsValue(NatToString(body.count)) == body.count
  {
    if body.SuccessBody? {
      NatToStringValue(body.count);
    }
  }

  /** `result.error || 'Upload failed'`. */
  function ErrorText(body: ResponseBody): (r: string)
    ensures r != []
    ensures body.ErrorBody? && body.error != [] ==> r == body.error
  {
    if body.ErrorBody? && body.error != [] then body.error else "Upload failed"
  }

  /**
    What a settled request does to the form: a 2xx answer reports the
    server's count and clears the JSON text; anything else keeps the text
    and sets the error. A refused answer shows the server's error or
    "Upload failed"; a rejection with an `Error` shows its message, which
    may be empty; any other rejected value shows "Upload failed".
   */
  function Settle(reply: Reply): (f: Feedback)
    ensures f.clearInput <==> reply.Answered? && IsOk(reply.response.status)
    ensures f.clearInput ==> f.error == [] && f.success == "Successfully uploaded " + CountText(reply.response.body) + " dataset(s)!"
    ensures !f.clearInput ==> f.success == []
    ensures reply.Rejected? ==> f.error == reply.message
    ensures reply.NonErrorRejection? ==> f.error == "Upload failed"
    ensures reply.Answered? && !IsOk(reply.response.status) ==> f.error == ErrorText(reply.response.body) && f.error != []
  {
    match reply
    case Rejected(message) => Feedback(message, [], false)
    case NonErrorRejection => Feedback("Upload failed", [], false)
    case Answered(response) =>
      if !IsOk(response.status) then Feedback(ErrorText(response.body), [], false)
      else Feedback([], "Successfully uploaded " + CountText(response.body) + " dataset(s)!", true)
  }

  /** The form's state, as its `useState` hooks hold it. */
  class Form {
    var selectedTeammate: string
    var passcode: string
    var jsonInput: string
    var loading: bool
    var error: string
    var success: string
    /** Every value `setLoading` has been called with, in order. */
    ghost var loadingHistory: seq<bool>

    constructor ()
      ensures selectedTeammate == [] && passcode == [] && jsonInput == []
      ensures !loading && error == [] && success == [] && loadingHistory == []
    {
      selectedTeammate, passcode, jsonInput := [], [], [];
      loading, error, success := false, [], [];
      loadingHistory := [];
    }

    /**
      `handleSubmit`: a blocked submission shows its error and sends
      nothing; a sent one posts the planned body, shows what Settle says,
      and ends with `loading` back at false.
     */
    method HandleSubmit(parse: string -> ParseResult, send: Json -> Reply) returns (request: Option<Json>)
      modifies this
      ensures selectedTeammate == old(selectedTeammate) && passcode == old(passcode)
      ensures var plan := Prepare(old(selectedTeammate), old(passcode), old(jsonInput), parse);
        plan.Blocked? ==>
          && request == None && error == plan.error && success == []
          && jsonInput == old(jsonInput) && loading == old(loading)
          && loadingHistory == old(loadingHistory)
      ensures var plan := Prepare(old(selectedTeammate), old(passcode), old(jsonInput), parse);
        plan.Send? ==>
          && request == Some(plan.request)
          && Settled(send(plan.request), old(jsonInput))
          && loadingHistory == old(loadingHistory) + [true, false]
    {
      error := [];
      success := [];
      if selectedTeammate == [] || passcode == [] || jsonInput == [] {
        error := BlankMessage;
        return None;
      }
      var parsed := parse(jsonInput);
      if parsed.SyntaxError? {
        error := InvalidPrefix + parsed.message;
        return None;
      }
      var datasets := Normalize(parsed.value);
      var bad := CheckEntries(datasets);
      if bad.Some? {
        error := InvalidPrefix + bad.value;
        return None;
      }
      var body := RequestBody(selectedTeammate, passcode, datasets);
      request := Some(body);
      Deliver(body, send);
    }

    /** The state after a request settled with `reply`: Settle's feedback shown, loading over. */
    ghost predicate Settled(reply: Reply, oldInput: string)
      reads this
    {
      var f := Settle(reply);
      && error == f.error && success == f.success
      && jsonInput == (if f.clearInput then [] else oldInput)
      && !loading
    }

    /** The `try … finally` around the request: loading while it runs, Settle's feedback once it settles. */
    method Deliver(body: Json, send: Json -> Reply)
      requires error == [] && success == []
      modifies this
      ensures selectedTeammate == old(selectedTeammate) && passcode == old(passcode)
      ensures Settled(send(body), old(jsonInput))
      ensures loadingHistory == old(loadingHistory) + [true, false]
    {
      loading := true;
      loadingHistory := loadingHistory + [true];
      var reply := send(body);
      match reply {
        case Rejected(message) =>
          error := message;
        case NonErrorRejection =>
          error := "Upload failed";
        case Answered(response) =>
          if !IsOk(response.status) {
            error := ErrorText(response.body);
          } else {
            success := "Successfully uploaded " + CountText(response.body) + " dataset(s)!";
            jsonInput := [];
          }
      }
      loading := false;
      loadingHistory := loadingHistory + [false];
    }
  }

  // ---------------------------------------------------------------- client and server together

  /** A record with the three fields as non-empty strings passes the client check and can be stored. */
  predicate CompleteRecord(ds: Json) {
    && ds.JObject?
    && (forall name :: name in {"instruction", "input", "output"} ==>
          Property(ds, name).Some? && Property(ds, name).value.JString? && Property(ds, name).value.s != [])
  }

  /** An empty array passes the client check, is sent, and the endpoint answers 400. */
  lemma EmptyArrayIsSentAndRefused(selected: string, passcode: string, jsonInput: string,
                                   parse: string -> ParseResult, teammates: map<string, string>, fault: Fault)
    requires selected != [] && passcode != [] && jsonInput != []
    requires parse(jsonInput) == Parsed(JArray([]))
    ensures Prepare(selected, passcode, jsonInput, parse).Send?
    ensures var body := Prepare(selected, passcode, jsonInput, parse).request;
      && Decide(Some(body), teammates, fault) == MissingFields
      && Respond(Decide(Some(body), teammates, fault)).status == 400
  {
    var body := Prepare(selected, passcode, jsonInput, parse).request;
    assert Property(body, "datasets") == Some(JArray([]));
  }

  /**
    When every record is complete and the passcode is the teammate's, the
    request is sent, the endpoint inserts one row per record for that
    teammate, and the form reports that number and clears the text.
   */
  lemma AcceptedBatchIsUploaded(selected: string, passcode: string, jsonInput: string,
                                parse: string -> ParseResult, teammates: map<string, string>)
    requires selected in teammates && passcode == teammates[selected] && passcode != [] && selected != []
    requires jsonInput != [] && parse(jsonInput).Parsed? && Normalize(parse(jsonInput).value) != []
    requires forall k :: 0 <= k < |Normalize(parse(jsonInput).value)| ==> CompleteRecord(Normalize(parse(jsonInput).value)[k])
    ensures Prepare(selected, passcode, jsonInput, parse).Send?
    ensures var body := Prepare(selected, passcode, jsonInput, parse).request;
            var o := Decide(Some(body), teammates, Healthy);
      && o.Uploaded? && |o.rows| == |Normalize(parse(jsonInput).value)|
      && (forall k :: 0 <= k < |o.rows| ==> o.rows[k].teammateId == selected)
      && Settle(Answered(Respond(o))) == Feedback([], "Successfully uploaded " + NatToString(|o.rows|) + " dataset(s)!", true)
  {
    var entries := Normalize(parse(jsonInput).value);
    CompleteRecordsPass(entries, selected);
    var body := RequestBody(selected, passcode, entries);
    assert Prepare(selected, passcode, jsonInput, parse) == Send(body);
    AuthorisedUploadSucceeds(body, teammates, selected, entries);
  }

  /** Complete records pass the client check and each becomes a row on the server. */
  lemma CompleteRecordsPass(entries: seq<Json>, selected: string)
    requires forall k :: 0 <= k < |entries| ==> CompleteRecord(entries[k])
    ensures forall k :: 0 <= k < |entries| ==> EntryError(entries[k]).None? && RowOf(entries[k], selected).Some?
  {
    forall k | 0 <= k < |entries|
      ensures EntryError(entries[k]).None? && RowOf(entries[k], selected).Some?
    {
      assert "instruction" in {"instruction", "input", "output"};
      assert "input" in {"instruction", "input", "output"};
      assert "output" in {"instruction", "input", "output"};
    }
  }
}
