/**
  The upload endpoint, `POST /api/datasets`: it destructures `teammateId`,
  `passcode` and `datasets` from the JSON body, answers 400 when one is
  missing or the list is empty, 404 when no teammate has the id, 401 when
  the passcode differs, and otherwise inserts one row per submitted record,
  stamped with the teammate's id. Anything that throws on the way answers 500.
 */
module DatasetsApi {
  import opened Wrappers
  import opened JsonValues
  import opened Text

  /** A row of the Dataset table as `createMany` writes it. */
  datatype Row = Row(instruction: string, input: string, output: string, teammateId: string)

  /** Database failures, which the endpoint sees as exceptions. */
  datatype Fault = Healthy | LookupFails | InsertFails

  datatype Outcome =
    | MissingFields
    | TeammateNotFound
    | InvalidPasscode
    | Uploaded(rows: seq<Row>)
    | UploadFailed

  datatype ResponseBody =
    | ErrorBody(error: string)
    | SuccessBody(success: bool, count: nat, message: string)

  datatype Response = Response(status: nat, body: ResponseBody)

  /**
    `datasets.length === 0` for a truthy `datasets`: an empty array, or an
    object whose `length` property is the number 0. A truthy string is never
    empty, and other values have no `length`.
   */
  predicate LengthIsZero(d: Json)
    ensures d.JArray? ==> (LengthIsZero(d) <==> d.items == [])
    ensures LengthIsZero(d) ==> d.JArray? || d.JObject?
  {
    || (d.JArray? && |d.items| == 0)
    || (d.JObject? && Property(d, "length") == Some(JNumber(0.0)))
  }

  /**
    The first check of the handler, `!teammateId || !passcode || !datasets
    || datasets.length === 0`, lets the request through: the body is then an
    object with all three fields, and a `datasets` array is non-empty.
   */
  predicate HasRequiredFields(b: Json)
    ensures HasRequiredFields(b) ==> b.JObject? && "teammateId" in b.fields && "passcode" in b.fields && "datasets" in b.fields
    ensures HasRequiredFields(b) && b.fields["datasets"].JArray? ==> b.fields["datasets"].items != []
  {
    && Truthy(Property(b, "teammateId"))
    && Truthy(Property(b, "passcode"))
    && Truthy(Property(b, "datasets"))
    && !LengthIsZero(Property(b, "datasets").value)
  }

  /**
    The row for one submitted record: its three fields copied, the
    teammate's id added. None when the record is `null` (reading a field
    throws) or a field is not a string (the database rejects the batch).
   */
  function RowOf(ds: Json, teammateId: string): (r: Option<Row>)
    ensures r.Some? ==> r.value.teammateId == teammateId
    ensures r.Some? ==> (Property(ds, "instruction") == Some(JString(r.value.instruction))
                     && Property(ds, "input") == Some(JString(r.value.input))
                     && Property(ds, "output") == Some(JString(r.value.output)))
  {
    match (Property(ds, "instruction"), Property(ds, "input"), Property(ds, "output"))
    case (Some(JString(instruction)), Some(JString(input)), Some(JString(output))) =>
      Some(Row(instruction, input, output, teammateId))
    case _ => None
  }

  /** `datasets.map(ds => ({...}))`: all rows in submission order, or None if one record cannot be stored. */
  function RowsOf(items: seq<Json>, teammateId: string): (r: Option<seq<Row>>)
    ensures r.Some? <==> forall k :: 0 <= k < |items| ==> RowOf(items[k], teammateId).Some?
    ensures r.Some? ==> |r.value| == |items|
    ensures r.Some? ==> forall k :: 0 <= k < |items| ==> RowOf(items[k], teammateId) == Some(r.value[k])
  {
    if items == [] then Some([])
    else
      match (RowOf(items[0], teammateId), RowsOf(items[1..], teammateId))
      case (Some(row), Some(rest)) =>
        var rows := [row] + rest;
        assert forall k :: 1 <= k < |items| ==> items[k] == items[1..][k - 1];
        Some(rows)
      case (None, _) => None
      case (_, None) =>
        assert exists k :: 1 <= k < |items| && RowOf(items[k], teammateId).None? by {
          var k :| 0 <= k < |items[1..]| && RowOf(items[1..][k], teammateId).None?;
          assert items[1..][k] == items[k + 1];
        }
        None
  }

  /** The submitted teammate id is a known id and the submitted passcode is its passcode, by exact string equality. */
  predicate Authorised(b: Json, teammates: map<string, string>) {
    && Property(b, "teammateId").Some? && Property(b, "teammateId").value.JString?
    && Property(b, "teammateId").value.s in teammates
    && Property(b, "passcode") == Some(JString(teammates[Property(b, "teammateId").value.s]))
  }

  /**
    What `POST` decides for a request body (None when it is not JSON), a
    teammate table from id to passcode, and a database fault. An upload
    happens only for an authorised request, and then holds exactly one row
    per submitted record, with the record's fields and the teammate's id.
   */
  function Decide(body: Option<Json>, teammates: map<string, string>, fault: Fault): (o: Outcome)
    ensures o.Uploaded? ==> body.Some? && HasRequiredFields(body.value) && Authorised(body.value, teammates)
    ensures o.Uploaded? ==> fault.Healthy? && Property(body.value, "datasets").value.JArray?
    ensures o.Uploaded? ==>
      var items := Property(body.value, "datasets").value.items;
      var id := Property(body.value, "teammateId").value.s;
      && |o.rows| == |items|
      && forall k :: 0 <= k < |items| ==> RowOf(items[k], id) == Some(o.rows[k])
    ensures o.TeammateNotFound? || o.InvalidPasscode? ==> body.Some? && HasRequiredFields(body.value)
  {
    if body.None? || body.value.JNull? then UploadFailed
    else
      var b := body.value;
      var teammateId, passcode, datasets := Property(b, "teammateId"), Property(b, "passcode"), Property(b, "datasets");
      if !HasRequiredFields(b) then MissingFields
      else if !teammateId.value.JString? || fault == LookupFails then UploadFailed
      else if teammateId.value.s !in teammates then TeammateNotFound
      else if passcode.value != JString(teammates[teammateId.value.s]) then InvalidPasscode
      else if !datasets.value.JArray? || fault == InsertFails then UploadFailed
      else
        match RowsOf(datasets.value.items, teammateId.value.s)
        case None => UploadFailed
        case Some(rows) => Uploaded(rows)
  }

  /** The rows an outcome adds to the table. */
  function Inserted(o: Outcome): seq<Row> {
    if o.Uploaded? then o.rows else []
  }

  /** `Successfully uploaded ${count} dataset(s)`: the count in decimal between the two fixed texts. */
  function SuccessMessage(count: nat): (r: string)
    ensures |r| > 33 && r[..22] == "Successfully uploaded " && r[|r| - 11..] == " dataset(s)"
    ensures IsDigits(r[22..|r| - 11]) && DigitsValue(r[22..|r| - 11]) == count
  {
    var digits := NatToString(count);
    NatToStringValue(count);
    var r := "Successfully uploaded " + digits + " dataset(s)";
    assert r[22..|r| - 11] == digits;
    r
  }

  /**
    The JSON response for an outcome: a 2xx status exactly for an upload,
    whose body reports the number of inserted rows; otherwise a non-empty
    `error` text.
   */
  function Respond(o: Outcome): (r: Response)
    ensures 200 <= r.status < 300 <==> o.Uploaded?
    ensures r.status == 400 <==> o.MissingFields?
    ensures r.status == 404 <==> o.TeammateNotFound?
    ensures r.status == 401 <==> o.InvalidPasscode?
    ensures r.status == 500 <==> o.UploadFailed?
    ensures o.Uploaded? ==> r.body == SuccessBody(true, |o.rows|, SuccessMessage(|o.rows|))
    ensures !o.Uploaded? ==> r.body.ErrorBody? && r.body.error != []
  {
    match o
    case MissingFields => Response(400, ErrorBody("Missing required fields"))
    case TeammateNotFound => Response(404, ErrorBody("Teammate not found"))
    case InvalidPasscode => Response(401, ErrorBody("Invalid passcode"))
    case UploadFailed => Response(500, ErrorBody("Failed to upload datasets"))
    case Uploaded(rows) => Response(200, SuccessBody(true, |rows|, SuccessMessage(|rows|)))
  }

  // ---------------------------------------------------------------- the ladder

  /** A body without a truthy teammate id, passcode or list, or with an empty list, gets 400 before any lookup. */
  lemma IncompleteIsRejected(b: Json, teammates: map<string, string>, fault: Fault)
    requires b != JNull && !HasRequiredFields(b)
    ensures Decide(Some(b), teammates, fault) == MissingFields
    ensures Respond(Decide(Some(b), teammates, fault)).status == 400
  {
  }

  /** An unknown teammate id gets 404, whatever the passcode and the list hold. */
  lemma UnknownTeammateIsRejected(b: Json, teammates: map<string, string>, fault: Fault, id: string)
    requires b != JNull && HasRequiredFields(b)
    requires Property(b, "teammateId") == Some(JString(id)) && id !in teammates
    requires fault != LookupFails
    ensures Decide(Some(b), teammates, fault) == TeammateNotFound
    ensures Respond(Decide(Some(b), teammates, fault)).status == 404
  {
  }

  /** A known teammate with any other passcode gets 401, whatever the list holds. */
  lemma WrongPasscodeIsRejected(b: Json, teammates: map<string, string>, fault: Fault, id: string)
    requires b != JNull && HasRequiredFields(b)
    requires Property(b, "teammateId") == Some(JString(id)) && id in teammates
    requires Property(b, "passcode") != Some(JString(teammates[id]))
    requires fault != LookupFails
    ensures Decide(Some(b), teammates, fault) == InvalidPasscode
    ensures Respond(Decide(Some(b), teammates, fault)).status == 401
  {
  }

  /**
    An authorised request with a list of records that all have string
    fields uploads exactly those records, when the database works.
   */
  lemma AuthorisedUploadSucceeds(b: Json, teammates: map<string, string>, id: string, items: seq<Json>)
    requires b != JNull && HasRequiredFields(b) && Authorised(b, teammates)
    requires Property(b, "teammateId") == Some(JString(id))
    requires Property(b, "datasets") == Some(JArray(items))
    requires forall k :: 0 <= k < |items| ==> RowOf(items[k], id).Some?
    ensures Decide(Some(b), teammates, Healthy).Uploaded?
    ensures Decide(Some(b), teammates, Healthy).rows == RowsOf(items, id).value
    ensures Respond(Decide(Some(b), teammates, Healthy)).body.count == |items|
  {
  }

  /**
    Once the request has passed the field check and the credentials, a
    database that throws, on the lookup or on the insert, gives 500.
   */
  lemma StoreFaultFails(b: Json, teammates: map<string, string>, fault: Fault)
    requires b != JNull && HasRequiredFields(b) && Authorised(b, teammates)
    requires fault != Healthy
    ensures Decide(Some(b), teammates, fault) == UploadFailed
    ensures Respond(Decide(Some(b), teammates, fault)).status == 500
  {
  }

  /**
    An authorised request whose list holds a record without string fields
    makes `createMany` throw: nothing is inserted and the answer is 500.
   */
  lemma MalformedRecordFails(b: Json, teammates: map<string, string>, id: string, items: seq<Json>, k: nat)
    requires b != JNull && HasRequiredFields(b) && Authorised(b, teammates)
    requires Property(b, "teammateId") == Some(JString(id))
    requires Property(b, "datasets") == Some(JArray(items))
    requires k < |items| && RowOf(items[k], id).None?
    ensures Decide(Some(b), teammates, Healthy) == UploadFailed
    ensures Respond(Decide(Some(b), teammates, Healthy)).status == 500
  {
  }

  /** A body that is not JSON, or is `null`, makes the handler throw: 500. */
  lemma UnreadableBodyFails(body: Option<Json>, teammates: map<string, string>, fault: Fault)
    requires body.None? || body == Some(JNull)
    ensures Respond(Decide(body, teammates, fault)).status == 500
  {
  }

  /** The table of the Dataset rows and the teammate passcodes the endpoint checks against. */
  class DatasetStore {
    /** Teammate id to passcode; the endpoint never changes it. */
    const teammates: map<string, string>
    var rows: seq<Row>

    constructor (teammates: map<string, string>, rows: seq<Row>)
      ensures this.teammates == teammates && this.rows == rows
    {
      this.teammates := teammates;
      this.rows := rows;
    }

    /**
      `POST`: answers as Decide and Respond say, and appends the uploaded
      rows after the existing ones, which stay as they were; a rejected or
      failed request leaves the table unchanged.
     */
    method Post(body: Option<Json>, fault: Fault) returns (response: Response)
      modifies this
      ensures response == Respond(Decide(body, teammates, fault))
      ensures rows == old(rows) + Inserted(Decide(body, teammates, fault))
      ensures old(rows) <= rows
    {
      if body.None? || body.value.JNull? {
        response := Response(500, ErrorBody("Failed to upload datasets"));
        return;
      }
      var b := body.value;
      var teammateId, passcode, datasets := Property(b, "teammateId"), Property(b, "passcode"), Property(b, "datasets");
      if !Truthy(teammateId) || !Truthy(passcode) || !Truthy(datasets) || LengthIsZero(datasets.value) {
        response := Response(400, ErrorBody("Missing required fields"));
        return;
      }
      if !teammateId.value.JString? || fault == LookupFails {
        response := Response(500, ErrorBody("Failed to upload datasets"));
        return;
      }
      var id := teammateId.value.s;
      if id !in teammates {
        response := Response(404, ErrorBody("Teammate not found"));
        return;
      }
      if passcode.value != JString(teammates[id]) {
        response := Response(401, ErrorBody("Invalid passcode"));
        return;
      }
      var created := if datasets.value.JArray? then RowsOf(datasets.value.items, id) else None;
      if created.None? || fault == InsertFails {
        response := Response(500, ErrorBody("Failed to upload datasets"));
        return;
      }
      rows := rows + created.value;
      var count := |created.value|;
      response := Response(200, SuccessBody(true, count, "Successfully uploaded " + NatToString(count) + " dataset(s)"));
    }
  }
}
