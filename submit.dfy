/** Submission proxy (`api/submit.js`): validates an inspection report, maps it onto
    the Notion database's properties, creates one page, and reports whether the report
    marks the equipment as not to be operated. */
module Submit {
  import opened Wrappers
  import opened Text
  import opened Http

  /** A JSON field as the numeric coercion sees it. `Absent` is `undefined`. */
  datatype Raw = Absent | Null | Str(s: string) | Num(x: real) | Bool(b: bool)

  /** The request body. A string field is None when it is missing or falsy; `defectsFound`
      is None when it is not an array. */
  datatype Submission = Submission(
    employeeName: Option<string>,
    project: Option<string>,
    equipment: Option<string>,
    hourMeter: Raw,
    managerComment: Option<string>,
    locationText: Option<string>,
    describeLocation: Option<string>,
    defectsFound: Option<seq<string>>,
    describeEquipment: Option<string>,
    describeDefect: Option<string>,
    gpsLat: Raw,
    gpsLon: Raw,
    gpsAcc: Raw)

  /** One rich-text or title item and its text content. */
  datatype TextItem = TextItem(content: string)

  /** A Notion number property: null, or the numeric conversion of a raw value, which
      is left symbolic. */
  datatype NumberValue = NullNumber | Converted(raw: Raw)

  /** One option of a multi-select, by name. */
  datatype SelectOption = SelectOption(name: string)

  /** The `properties` object sent to Notion, field by field. */
  datatype PageProperties = PageProperties(
    managerComment: seq<TextItem>,      // "Manager Comment" (the page title)
    employeeName: seq<TextItem>,        // "Employee Name" (rich text)
    project: string,                    // "Project" (select)
    equipment: string,                  // "Equipment" (select)
    hourMeter: NumberValue,             // "Hour Meter"
    gpsLat: NumberValue,                // "GPS Lat"
    gpsLon: NumberValue,                // "GPS Lon"
    gpsAcc: NumberValue,                // "GPS Accuracy (m)"
    location: seq<TextItem>,            // "Location" (rich text)
    describeLocation: seq<TextItem>,    // "Describe Location" (rich text)
    defectsFound: seq<SelectOption>,    // "Defects Found?" (multi-select)
    describeEquipment: seq<TextItem>,   // "Describe Equipment" (rich text)
    describeDefect: seq<TextItem>)      // "Describe Defect" (rich text)

  /** The page-creation request: bearer token, parent database and properties. */
  datatype CreateRequest = CreateRequest(token: string, databaseId: string, properties: PageProperties)

  /** The success body: the new page's id and whether the equipment must not be
      operated. */
  datatype Created = Created(id: string, doNotOperate: bool)

  /** What the handler decides before any upstream call. */
  datatype Gate = Reply(response: Response<Created>) | Ask(request: CreateRequest, defects: seq<string>)

  const DoNotOperate: string := "Yes. DO NOT OPERATE."
  const DefaultTitle: string := "New submission"
  const MissingFields: string := "Missing required fields: Employee Name, Project, Equipment, Defects Found?"

  /** A text field with its surrounding whitespace dropped; a missing field reads as
      empty. It is empty exactly when the field is missing or all whitespace. */
  function Field(field: Option<string>): (r: string)
    ensures r == "" <==> AllSpace(field.GetOr(""))
    ensures Trimmed(r)
    ensures |r| <= |field.GetOr("")|
  {
    TrimEmptyIff(field.GetOr(""));
    Trim(field.GetOr(""))
  }

  /** The defect findings when the body sent an array, otherwise none. */
  function Defects(body: Submission): seq<string> {
    body.defectsFound.GetOr([])
  }

  /** The validation: trimmed employee name, raw project and equipment non-empty, and at
      least one defect finding. */
  predicate Valid(body: Submission)
    ensures Valid(body) <==>
      && !AllSpace(body.employeeName.GetOr(""))
      && body.project.GetOr("") != ""
      && body.equipment.GetOr("") != ""
      && body.defectsFound.Some? && body.defectsFound.value != []
  {
    Field(body.employeeName) != "" && body.project.GetOr("") != "" &&
    body.equipment.GetOr("") != "" && |Defects(body)| != 0
  }

  /** A raw value is kept for numeric conversion unless it is the empty string, null or
      missing, which all become a null number. */
  function ToNumber(raw: Raw): (n: NumberValue)
    ensures n.NullNumber? <==> raw in {Str(""), Null, Absent}
    ensures n.Converted? ==> n.raw == raw
  {
    if raw != Str("") && raw != Null && raw != Absent then Converted(raw) else NullNumber
  }

  /** One rich-text item holding `s`, or no items when `s` is empty. */
  function RichText(s: string): (r: seq<TextItem>)
    ensures s == "" <==> r == []
    ensures s != "" ==> r == [TextItem(s)]
  {
    if s != "" then [TextItem(s)] else []
  }

  /** One multi-select option per defect finding, named after it, in the same order. */
  function Options(defects: seq<string>): (r: seq<SelectOption>)
    ensures |r| == |defects|
    ensures forall i :: 0 <= i < |defects| ==> r[i].name == defects[i]
    decreases |defects|
  {
    if defects == [] then [] else [SelectOption(defects[0])] + Options(defects[1..])
  }

  /** The properties built from a validated body. */
  function Properties(body: Submission): (p: PageProperties)
    ensures |p.managerComment| == 1
    ensures |p.defectsFound| == |Defects(body)|
  {
    var comment := Field(body.managerComment);
    PageProperties(
      [TextItem(if comment != "" then comment else DefaultTitle)],
      RichText(Field(body.employeeName)),
      body.project.GetOr(""),
      body.equipment.GetOr(""),
      ToNumber(body.hourMeter),
      ToNumber(body.gpsLat),
      ToNumber(body.gpsLon),
      ToNumber(body.gpsAcc),
      RichText(Field(body.locationText)),
      RichText(Field(body.describeLocation)),
      Options(Defects(body)),
      RichText(Field(body.describeEquipment)),
      RichText(Field(body.describeDefect)))
  }

  /** The checks ahead of the upstream call: method, configuration, then validation. */
  function Admit(verb: string, token: Option<string>, databaseId: Option<string>, body: Submission): (g: Gate)
    ensures verb != "POST" ==> g == Reply(Fail(405, "Method not allowed"))
    ensures verb == "POST" && !(Configured(token) && Configured(databaseId)) ==>
      g == Reply(Fail(500, "Missing NOTION_TOKEN or NOTION_DATABASE_ID"))
    ensures verb == "POST" && Configured(token) && Configured(databaseId) && !Valid(body) ==>
      g == Reply(Fail(400, MissingFields))
    ensures g.Ask? <==> verb == "POST" && Configured(token) && Configured(databaseId) && Valid(body)
    ensures g.Ask? ==> g.request == CreateRequest(token.value, databaseId.value, Properties(body)) &&
                       g.defects == Defects(body)
  {
    if verb != "POST" then Reply(Fail(405, "Method not allowed"))
    else if !Configured(token) || !Configured(databaseId) then
      Reply(Fail(500, "Missing NOTION_TOKEN or NOTION_DATABASE_ID"))
    else if !Valid(body) then Reply(Fail(400, MissingFields))
    else Ask(CreateRequest(token.value, databaseId.value, Properties(body)), Defects(body))
  }

  /** The answer once Notion has replied; the flag is computed only after a successful
      create. */
  function Finish(reply: UpstreamReply<string>, defects: seq<string>): (r: Response<Created>)
    ensures reply.Rejected? ==> r == Response(reply.status, None, UpstreamFailure(reply.payload))
    ensures reply.Delivered? ==>
      r.status == 200 && r.setCookie.None? && r.body == Success(Created(reply.value, DoNotOperate in defects))
  {
    match reply
    case Rejected(status, payload) => Response(status, None, UpstreamFailure(payload))
    case Delivered(id) => Response(200, None, Success(Created(id, DoNotOperate in defects)))
  }

  /** The handler. `notion` answers the create request with the new page's id, or with
      the non-2xx status and body. */
  function Handle(verb: string, token: Option<string>, databaseId: Option<string>, body: Submission,
                  notion: CreateRequest -> UpstreamReply<string>): (r: Response<Created>)
    ensures verb != "POST" ==> r == Fail(405, "Method not allowed")
    ensures verb == "POST" && !(Configured(token) && Configured(databaseId)) ==>
      r == Fail(500, "Missing NOTION_TOKEN or NOTION_DATABASE_ID")
    ensures verb == "POST" && Configured(token) && Configured(databaseId) && !Valid(body) ==>
      r == Fail(400, MissingFields)
    ensures verb == "POST" && Configured(token) && Configured(databaseId) && Valid(body) ==>
      var reply := notion(CreateRequest(token.value, databaseId.value, Properties(body)));
      && (reply.Rejected? ==> r == Response(reply.status, None, UpstreamFailure(reply.payload)))
      && (reply.Delivered? ==> r == Response(200, None, Success(Created(reply.value, DoNotOperate in Defects(body)))))
  {
    match Admit(verb, token, databaseId, body)
    case Reply(response) => response
    case Ask(request, defects) => Finish(notion(request), defects)
  }

  // ----------------------------------------------------------------------------------
  // Properties

  /** A missing token or database id is reported before the body is looked at. */
  lemma ConfigurationCheckedBeforeBody(token: Option<string>, databaseId: Option<string>, body1: Submission, body2: Submission)
    requires !(Configured(token) && Configured(databaseId))
    ensures Admit("POST", token, databaseId, body1) == Admit("POST", token, databaseId, body2)
    ensures Admit("POST", token, databaseId, body1).Reply?
    ensures Admit("POST", token, databaseId, body1).response.status == 500
  {
  }

  /** An invalid body is refused with 400 whatever Notion would have answered: no
      upstream call is made. */
  lemma ValidationBeforeUpstream(token: Option<string>, databaseId: Option<string>, body: Submission,
                                 notion1: CreateRequest -> UpstreamReply<string>, notion2: CreateRequest -> UpstreamReply<string>)
    requires Configured(token) && Configured(databaseId) && !Valid(body)
    ensures Handle("POST", token, databaseId, body, notion1) == Handle("POST", token, databaseId, body, notion2)
    ensures Handle("POST", token, databaseId, body, notion1) == Fail(400, MissingFields)
  {
  }

  /** A `defectsFound` that is not an array counts as no findings and always fails. */
  lemma NonArrayDefectsRejected(verb: string, token: Option<string>, databaseId: Option<string>, body: Submission)
    requires body.defectsFound.None?
    ensures !Valid(body)
    ensures Admit(verb, token, databaseId, body).Reply?
  {
  }

  /** The request sent to Notion carries the submission: the title is the trimmed
      manager comment or the placeholder; project and equipment are passed untrimmed;
      each rich-text field is empty exactly when its trimmed source is empty and
      otherwise holds that trimmed text; a numeric field is sent as null exactly when
      its raw value is absent, null or the empty string; the defects are the selected options, in order. */
  lemma PropertiesSpec(body: Submission)
    ensures var p := Properties(body);
      && p.managerComment == [TextItem(if Field(body.managerComment) != "" then Field(body.managerComment) else DefaultTitle)]
      && p.project == body.project.GetOr("")
      && p.equipment == body.equipment.GetOr("")
      && (p.employeeName == [] <==> Field(body.employeeName) == "")
      && (p.location == [] <==> Field(body.locationText) == "")
      && (p.describeLocation == [] <==> Field(body.describeLocation) == "")
      && (p.describeEquipment == [] <==> Field(body.describeEquipment) == "")
      && (p.describeDefect == [] <==> Field(body.describeDefect) == "")
      && (Field(body.employeeName) != "" ==> p.employeeName == [TextItem(Field(body.employeeName))])
      && (Field(body.locationText) != "" ==> p.location == [TextItem(Field(body.locationText))])
      && (Field(body.describeLocation) != "" ==> p.describeLocation == [TextItem(Field(body.describeLocation))])
      && (Field(body.describeEquipment) != "" ==> p.describeEquipment == [TextItem(Field(body.describeEquipment))])
      && (Field(body.describeDefect) != "" ==> p.describeDefect == [TextItem(Field(body.describeDefect))])
      && (p.hourMeter.NullNumber? <==> body.hourMeter in {Str(""), Null, Absent})
      && (p.gpsLat.NullNumber? <==> body.gpsLat in {Str(""), Null, Absent})
      && (p.gpsLon.NullNumber? <==> body.gpsLon in {Str(""), Null, Absent})
      && (p.gpsAcc.NullNumber? <==> body.gpsAcc in {Str(""), Null, Absent})
      && |p.defectsFound| == |Defects(body)|
      && (forall i :: 0 <= i < |Defects(body)| ==> p.defectsFound[i].name == Defects(body)[i])
  {
  }

  /** Every item holds non-empty text with no whitespace at either end. */
  predicate CleanItems(items: seq<TextItem>) {
    forall i :: 0 <= i < |items| ==> items[i].content != "" && Trimmed(items[i].content)
  }

  /** A rich-text field built from a trimmed field is clean. */
  lemma RichTextClean(field: Option<string>)
    ensures CleanItems(RichText(Field(field)))
  {
  }

  /** The title is one clean item: the trimmed comment, or the placeholder. */
  lemma TitleClean(comment: Option<string>)
    ensures var t := Field(comment);
      CleanItems([TextItem(if t != "" then t else DefaultTitle)])
  {
    assert DefaultTitle[0] == 'N' && DefaultTitle[|DefaultTitle| - 1] == 'n';
  }

  /** The title is a single clean item, and every rich-text field is clean. */
  lemma TextShapes(body: Submission)
    ensures var p := Properties(body);
      && |p.managerComment| == 1 && CleanItems(p.managerComment)
      && CleanItems(p.employeeName) && CleanItems(p.location) && CleanItems(p.describeLocation)
      && CleanItems(p.describeEquipment) && CleanItems(p.describeDefect)
  {
    var p := Properties(body);
    TitleClean(body.managerComment);
    RichTextClean(body.employeeName);
    RichTextClean(body.locationText);
    RichTextClean(body.describeLocation);
    RichTextClean(body.describeEquipment);
    RichTextClean(body.describeDefect);
  }

  /** A successful create reports `doNotOperate` exactly when the findings include the
      marker; a rejected create reports no flag at all. */
  lemma DoNotOperateOnlyAfterCreate(verb: string, token: Option<string>, databaseId: Option<string>, body: Submission,
                                    notion: CreateRequest -> UpstreamReply<string>)
    ensures Handle(verb, token, databaseId, body, notion).body.Success? <==>
      Admit(verb, token, databaseId, body).Ask? && notion(Admit(verb, token, databaseId, body).request).Delivered?
    ensures Handle(verb, token, databaseId, body, notion).body.Success? ==>
      Handle(verb, token, databaseId, body, notion).body.value.doNotOperate == (DoNotOperate in Defects(body))
  {
  }
}
