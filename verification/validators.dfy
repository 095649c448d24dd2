/** Request validation (validators/index.ts): the constraints each request
    schema puts on its fields, the issues a failed check reports, and the
    `validate` middleware that answers 400 with those issues or replaces the
    request data with the parsed value.

    A schema is modelled over a record whose fields already have the JSON type
    the schema asks for (string, number, ...); the checks here are the
    refinements on top of that type. Format checks (`uuid`, `datetime`) and
    `new Date(...)` are parameters, bundled in `Formats`. Messages the schema
    does not spell out are Zod 3's defaults. */
module Validators {
  import opened Wrappers
  import opened Http
  import opened Strings

  datatype PathSegment = Key(name: string) | Index(position: nat)

  /** One Zod issue: where, and what. */
  datatype Issue = Issue(path: seq<PathSegment>, message: string)

  /** The format checks and date parsing the schemas delegate to. `instant`
      is `None` for an Invalid Date. */
  datatype Formats = Formats(isUuid: string -> bool, isDateTime: string -> bool, instant: string -> Option<int>)

  function AtLeastMessage(n: nat): string {
    "String must contain at least " + NatToString(n) + " character(s)"
  }

  function AtMostMessage(n: nat): string {
    "String must contain at most " + NatToString(n) + " character(s)"
  }

  const PositiveMessage := "Number must be greater than 0"
  const IntegerMessage := "Expected integer, received float"
  const UuidMessage := "Invalid uuid"
  const RoleMessage := "Role must be \"user\" or \"admin\""
  const Roles := ["user", "admin"]

  function EnumMessage(received: string): string {
    "Invalid enum value. Expected 'user' | 'admin', received '" + received + "'"
  }

  /** One check on the field `key`: no issue when it holds, else one. */
  function Check(ok: bool, key: string, message: string): (r: seq<Issue>)
    ensures r == [] <==> ok
    ensures |r| == if ok then 0 else 1
    ensures forall i :: 0 <= i < |r| ==> r[i] == Issue([Key(key)], message)
  {
    if ok then [] else [Issue([Key(key)], message)]
  }

  predicate IsInteger(x: real) {
    x == x.Floor as real
  }

  /** Names and labels: 1 to 100 characters. */
  predicate ValidName(s: string) {
    1 <= |s| <= 100
  }

  predicate PositiveIfPresent(x: Option<real>) {
    x.None? || x.value > 0.0
  }

  predicate PositiveIntegerIfPresent(x: Option<real>) {
    x.None? || (IsInteger(x.value) && x.value > 0.0)
  }

  predicate AtMostIfPresent(s: Option<string>, n: nat) {
    s.None? || |s.value| <= n
  }

  /** `name: z.string().min(1, "Name is required").max(100)` and its label twin. */
  function NameIssues(key: string, s: string, requiredMessage: string): (r: seq<Issue>)
    ensures r == [] <==> ValidName(s)
  {
    Check(|s| >= 1, key, requiredMessage) + Check(|s| <= 100, key, AtMostMessage(100))
  }

  /** An optional string with only a maximum length. */
  function MaxIssues(key: string, s: Option<string>, n: nat): (r: seq<Issue>)
    ensures r == [] <==> AtMostIfPresent(s, n)
  {
    if s.None? then [] else Check(|s.value| <= n, key, AtMostMessage(n))
  }

  // ---- floors ----

  datatype FloorInput = FloorInput(name: string, width: Option<real>, height: Option<real>)

  /** `createFloorSchema`. */
  function CreateFloorIssues(x: FloorInput): (r: seq<Issue>)
    ensures r == [] <==> ValidName(x.name) && PositiveIfPresent(x.width) && PositiveIfPresent(x.height)
  {
    NameIssues("name", x.name, "Name is required") +
    (if x.width.None? then [] else Check(x.width.value > 0.0, "width", "Width must be positive")) +
    (if x.height.None? then [] else Check(x.height.value > 0.0, "height", "Height must be positive"))
  }

  /** `updateFloorSchema`. */
  function UpdateFloorIssues(name: string): (r: seq<Issue>)
    ensures r == [] <==> ValidName(name)
  {
    NameIssues("name", name, "Name is required")
  }

  // ---- spaces ----

  datatype SpaceInput = SpaceInput(
    id: Option<string>, floorId: string, name: string, spaceType: string,
    capacity: Option<real>, description: Option<string>)

  /** `capacity: z.number().int().positive(message)`: both checks run. */
  function CapacityIssues(capacity: Option<real>, positiveMessage: string): (r: seq<Issue>)
    ensures r == [] <==> PositiveIntegerIfPresent(capacity)
  {
    if capacity.None? then []
    else Check(IsInteger(capacity.value), "capacity", IntegerMessage) +
         Check(capacity.value > 0.0, "capacity", positiveMessage)
  }

  /** `createSpaceSchema`; `coordinates` and `amenities` accept any value of their type. */
  function CreateSpaceIssues(f: Formats, x: SpaceInput): (r: seq<Issue>)
    ensures r == [] <==>
              (x.id.None? || f.isUuid(x.id.value)) && f.isUuid(x.floorId) &&
              ValidName(x.name) && |x.spaceType| >= 1 &&
              PositiveIntegerIfPresent(x.capacity) && AtMostIfPresent(x.description, 500)
  {
    (if x.id.None? then [] else Check(f.isUuid(x.id.value), "id", UuidMessage)) +
    Check(f.isUuid(x.floorId), "floor_id", "Invalid floor ID") +
    NameIssues("name", x.name, "Name is required") +
    Check(|x.spaceType| >= 1, "type", "Type is required") +
    CapacityIssues(x.capacity, "Capacity must be positive") +
    MaxIssues("description", x.description, 500)
  }

  datatype SpaceUpdate = SpaceUpdate(
    name: Option<string>, spaceType: Option<string>, capacity: Option<real>, description: Option<string>)

  /** `updateSpaceSchema`: every field optional, same bounds. */
  function UpdateSpaceIssues(x: SpaceUpdate): (r: seq<Issue>)
    ensures r == [] <==>
              (x.name.None? || ValidName(x.name.value)) &&
              (x.spaceType.None? || |x.spaceType.value| >= 1) &&
              PositiveIntegerIfPresent(x.capacity) && AtMostIfPresent(x.description, 500)
  {
    (if x.name.None? then [] else NameIssues("name", x.name.value, AtLeastMessage(1))) +
    (if x.spaceType.None? then [] else Check(|x.spaceType.value| >= 1, "type", AtLeastMessage(1))) +
    CapacityIssues(x.capacity, PositiveMessage) +
    MaxIssues("description", x.description, 500)
  }

  // ---- bookings ----

  datatype BookingInput = BookingInput(spaceId: string, userId: string, startTime: string, endTime: string)

  /** `new Date(end_time) > new Date(start_time)`; false when either is an Invalid Date. */
  predicate EndAfterStart(f: Formats, x: BookingInput) {
    f.instant(x.startTime).Some? && f.instant(x.endTime).Some? &&
    f.instant(x.endTime).value > f.instant(x.startTime).value
  }

  const RangeMessage := "End time must be after start time"

  /** `createBookingSchema`: the four field checks, then the refinement, which
      Zod runs even when a format check failed (the fields have the right type). */
  function CreateBookingIssues(f: Formats, x: BookingInput): (r: seq<Issue>)
    ensures r == [] <==>
              f.isUuid(x.spaceId) && f.isUuid(x.userId) &&
              f.isDateTime(x.startTime) && f.isDateTime(x.endTime) && EndAfterStart(f, x)
    ensures !EndAfterStart(f, x) ==> |r| > 0 && r[|r| - 1] == Issue([Key("end_time")], RangeMessage)
  {
    Check(f.isUuid(x.spaceId), "space_id", "Invalid space ID") +
    Check(f.isUuid(x.userId), "user_id", "Invalid user ID") +
    Check(f.isDateTime(x.startTime), "start_time", "Invalid start time format") +
    Check(f.isDateTime(x.endTime), "end_time", "Invalid end time format") +
    Check(EndAfterStart(f, x), "end_time", RangeMessage)
  }

  /** `checkAvailabilitySchema`. */
  function CheckAvailabilityIssues(f: Formats, startTime: string, endTime: string): (r: seq<Issue>)
    ensures r == [] <==> f.isDateTime(startTime) && f.isDateTime(endTime)
  {
    Check(f.isDateTime(startTime), "start_time", "Invalid start time format") +
    Check(f.isDateTime(endTime), "end_time", "Invalid end time format")
  }

  // ---- configuration ----

  /** `createRoomTypeSchema`. */
  function CreateRoomTypeIssues(labelText: string): (r: seq<Issue>)
    ensures r == [] <==> ValidName(labelText)
  {
    NameIssues("label", labelText, "Label is required")
  }

  /** `createAmenitySchema`. */
  function CreateAmenityIssues(labelText: string, icon: Option<string>): (r: seq<Issue>)
    ensures r == [] <==> ValidName(labelText) && AtMostIfPresent(icon, 50)
  {
    NameIssues("label", labelText, "Label is required") + MaxIssues("icon", icon, 50)
  }

  /** `updateUserRoleSchema`: exactly "user" or "admin". */
  function UpdateUserRoleIssues(role: string): (r: seq<Issue>)
    ensures r == [] <==> role == "user" || role == "admin"
    ensures r != [] ==> r == [Issue([Key("role")], RoleMessage)]
  {
    Check(role in Roles, "role", RoleMessage)
  }

  // ---- profiles ----

  datatype ProfileUpdate = ProfileUpdate(
    fullName: Option<string>, phone: Option<string>, department: Option<string>, role: Option<string>)

  /** `updateProfileSchema`. */
  function UpdateProfileIssues(x: ProfileUpdate): (r: seq<Issue>)
    ensures r == [] <==>
              AtMostIfPresent(x.fullName, 100) && AtMostIfPresent(x.phone, 20) &&
              AtMostIfPresent(x.department, 100) &&
              (x.role.None? || x.role.value == "user" || x.role.value == "admin")
  {
    MaxIssues("full_name", x.fullName, 100) +
    MaxIssues("phone", x.phone, 20) +
    MaxIssues("department", x.department, 100) +
    (if x.role.None? then [] else Check(x.role.value in Roles, "role", EnumMessage(x.role.value)))
  }

  // ---- route parameters ----

  /** `uuidParamSchema`. */
  function UuidParamIssues(f: Formats, id: string): (r: seq<Issue>)
    ensures r == [] <==> f.isUuid(id)
  {
    Check(f.isUuid(id), "id", "Invalid ID format")
  }

  /** `userIdParamSchema`. */
  function UserIdParamIssues(f: Formats, userId: string): (r: seq<Issue>)
    ensures r == [] <==> f.isUuid(userId)
  {
    Check(f.isUuid(userId), "user_id", "Invalid user ID format")
  }

  // ---- the validate middleware ----

  datatype Target = Body | Query | Params

  /** What `schema.safeParse` gives, or that it threw. */
  datatype ParseResult = Parsed(data: Json) | Rejected(issues: seq<Issue>) | Threw

  /** How a schema over typed input answers: its issues, or the data. */
  function SchemaResult(issues: seq<Issue>, data: Json): (r: ParseResult)
    ensures r.Parsed? <==> issues == []
  {
    if issues == [] then Parsed(data) else Rejected(issues)
  }

  function SegmentText(s: PathSegment): string {
    match s
    case Key(k) => k
    case Index(i) => NatToString(i)
  }

  function SegmentTexts(path: seq<PathSegment>): (r: seq<string>)
    ensures |r| == |path| && forall i :: 0 <= i < |path| ==> r[i] == SegmentText(path[i])
  {
    seq(|path|, i requires 0 <= i < |path| => SegmentText(path[i]))
  }

  /** `err.path.join(".")`. */
  function FieldName(path: seq<PathSegment>): string {
    Join(SegmentTexts(path), '.')
  }

  /** The field name gives the path back when no key holds a dot. */
  lemma FieldNameRoundTrip(path: seq<PathSegment>)
    requires |path| >= 1
    requires forall i :: 0 <= i < |path| ==> path[i].Key? ==> '.' !in path[i].name
    ensures Split(FieldName(path), '.') == SegmentTexts(path)
  {
    var texts := SegmentTexts(path);
    forall k | 0 <= k < |texts| ensures '.' !in texts[k] {
      if path[k].Index? {
        var digits := NatToString(path[k].position);
        assert forall j :: 0 <= j < |digits| ==> digits[j] != '.';
      }
    }
    SplitJoin(texts, '.');
  }

  /** The `details` list: one entry per issue, in order. */
  function Details(issues: seq<Issue>): (d: seq<FieldError>)
    ensures |d| == |issues|
    ensures forall i :: 0 <= i < |issues| ==>
              d[i] == FieldError(FieldName(issues[i].path), issues[i].message)
  {
    seq(|issues|, i requires 0 <= i < |issues| => FieldError(FieldName(issues[i].path), issues[i].message))
  }

  const ValidationFailed := "Validation failed"
  const InvalidRequestData := "Invalid request data"

  /** The answer of `validate` for a parse outcome. */
  function ValidationStep(result: ParseResult): (step: Step)
    ensures step == Next <==> result.Parsed?
    ensures result.Rejected? ==>
              step == Respond(Response(400, ValidationBody(ValidationFailed, Details(result.issues))))
    ensures result.Threw? ==> step == Respond(Response(400, ErrorBody(InvalidRequestData)))
  {
    match result
    case Parsed(_) => Next
    case Rejected(issues) => Respond(Response(400, ValidationBody(ValidationFailed, Details(issues))))
    case Threw => Respond(Response(400, ErrorBody(InvalidRequestData)))
  }

  /** A booking whose end is not after its start is answered 400 with one
      detail on `end_time`, when its ids and times are well formed. */
  lemma BookingRangeReported(f: Formats, x: BookingInput, data: Json)
    requires f.isUuid(x.spaceId) && f.isUuid(x.userId)
    requires f.isDateTime(x.startTime) && f.isDateTime(x.endTime)
    requires !EndAfterStart(f, x)
    ensures ValidationStep(SchemaResult(CreateBookingIssues(f, x), data)) ==
            Respond(Response(400, ValidationBody(ValidationFailed, [FieldError("end_time", RangeMessage)])))
  {
    var issues := CreateBookingIssues(f, x);
    assert issues == [Issue([Key("end_time")], RangeMessage)];
    assert FieldName([Key("end_time")]) == "end_time";
    assert Details(issues) == [FieldError("end_time", RangeMessage)];
  }

  function Payload(req: Request, target: Target): Json
    reads req
  {
    match target
    case Body => req.body
    case Query => req.query
    case Params => req.params
  }

  /** `validate(schema, target)`: on success the request data is replaced by
      the parsed value and `next` runs; otherwise it answers 400 and the
      request is left as it was. */
  method Validate(req: Request, target: Target, parse: Json -> ParseResult) returns (step: Step)
    modifies req
    ensures var result := parse(old(Payload(req, target)));
            step == ValidationStep(result) &&
            Payload(req, target) == (if result.Parsed? then result.data else old(Payload(req, target)))
    ensures forall t :: t != target ==> Payload(req, t) == old(Payload(req, t))
    ensures req.authorization == old(req.authorization) && req.user == old(req.user)
  {
    var result := parse(Payload(req, target));
    if result.Parsed? {
      match target
      case Body => req.body := result.data;
      case Query => req.query := result.data;
      case Params => req.params := result.data;
    }
    step := ValidationStep(result);
  }
}
