/** The cache-test response: three record types behind one `anyOf`, read and written as JSON. */
module CacheTestCodec {
  import opened Json
  import opened Options

  // ----- Records

  /** Unset, set to null, or set to a text. */
  datatype NullableString = NullableString(value: Option<string>, isSet: bool)

  datatype ErrorResponse = ErrorResponse(deviceUuid: string, error: string)

  datatype FoundResponse = FoundResponse(deviceName: string, deviceUuid: string, found: Option<bool>,
                                         platform: NullableString, site: string)

  datatype NotFoundResponse = NotFoundResponse(deviceUuid: string, found: Option<bool>, message: string)

  // ----- Writing

  function NullableText(value: Option<string>): Value {
    if value.Some? then String(value.value) else Null
  }

  function WithFlag(fields: map<string, Value>, found: Option<bool>): map<string, Value> {
    if found.Some? then fields["found" := Bool(found.value)] else fields
  }

  function ErrorToMap(r: ErrorResponse): map<string, Value> {
    map["device_uuid" := String(r.deviceUuid), "error" := String(r.error)]
  }

  function FoundToMap(r: FoundResponse): map<string, Value> {
    WithFlag(map["device_name" := String(r.deviceName), "device_uuid" := String(r.deviceUuid),
                 "platform" := NullableText(r.platform.value), "site" := String(r.site)], r.found)
  }

  function NotFoundToMap(r: NotFoundResponse): map<string, Value> {
    WithFlag(map["device_uuid" := String(r.deviceUuid), "message" := String(r.message)], r.found)
  }

  /** All the property names are different; names of one length differ in a letter. */
  lemma NamesDiffer()
    ensures "device_name" != "device_uuid" && "error" != "found"
  {
    assert "device_name"[7] != "device_uuid"[7] && "error"[0] != "found"[0];
  }

  // ----- Reading

  /** A required property and whether null will do for it. */
  type Required = map<string, bool>

  const ERROR_REQUIRED: Required := map["device_uuid" := false, "error" := false]
  const FOUND_REQUIRED: Required :=
    map["device_name" := false, "device_uuid" := false, "platform" := true, "site" := false]
  const NOT_FOUND_REQUIRED: Required := map["device_uuid" := false, "message" := false]

  predicate Given(fields: map<string, Value>, property: string, nullable: bool) {
    property in fields && (fields[property] != Null || nullable)
  }

  predicate HasRequired(fields: map<string, Value>, required: Required) {
    forall property :: property in required ==> Given(fields, property, required[property])
  }

  /** The check of the required properties, in whatever order the map is walked. */
  method CheckRequired(fields: map<string, Value>, required: Required) returns (ok: bool)
    ensures ok == HasRequired(fields, required)
  {
    var left := required.Keys;
    while left != {}
      invariant left <= required.Keys
      invariant forall p :: p in required && p !in left ==> Given(fields, p, required[p])
      decreases |left|
    {
      var property :| property in left;
      if !Given(fields, property, required[property]) {
        return false;
      }
      left := left - {property};
    }
    ok := true;
  }

  /** A `string` field of a Go struct: null and a missing key leave it empty. */
  function TextField(fields: map<string, Value>, key: string): Option<string> {
    match Field(fields, key)
    case Some(String(s)) => Some(s)
    case None => Some("")
    case Some(Null) => Some("")
    case Some(_) => None
  }

  /** A `*bool` field: null and a missing key leave it nil. */
  function FlagField(fields: map<string, Value>, key: string): Option<Option<bool>> {
    match Field(fields, key)
    case Some(Bool(b)) => Some(Some(b))
    case None => Some(None)
    case Some(Null) => Some(None)
    case Some(_) => None
  }

  /** A `NullableString` field: any value given, null too, marks it as set. */
  function NullableField(fields: map<string, Value>, key: string): Option<NullableString> {
    match Field(fields, key)
    case Some(String(s)) => Some(NullableString(Some(s), true))
    case None => Some(NullableString(None, false))
    case Some(Null) => Some(NullableString(None, true))
    case Some(_) => None
  }

  /** Decoding into the Go struct, which refuses unknown keys. */
  function ErrorStruct(fields: map<string, Value>): Option<ErrorResponse> {
    var deviceUuid, error := TextField(fields, "device_uuid"), TextField(fields, "error");
    if !(fields.Keys <= {"device_uuid", "error"}) || deviceUuid.None? || error.None? then None
    else Some(ErrorResponse(deviceUuid.value, error.value))
  }

  function FoundStruct(fields: map<string, Value>): Option<FoundResponse> {
    var deviceName, deviceUuid := TextField(fields, "device_name"), TextField(fields, "device_uuid");
    var found, platform := FlagField(fields, "found"), NullableField(fields, "platform");
    var site := TextField(fields, "site");
    if !(fields.Keys <= {"device_name", "device_uuid", "found", "platform", "site"})
       || deviceName.None? || deviceUuid.None? || found.None? || platform.None? || site.None? then None
    else Some(FoundResponse(deviceName.value, deviceUuid.value, found.value, platform.value, site.value))
  }

  function NotFoundStruct(fields: map<string, Value>): Option<NotFoundResponse> {
    var deviceUuid, found := TextField(fields, "device_uuid"), FlagField(fields, "found");
    var message := TextField(fields, "message");
    if !(fields.Keys <= {"device_uuid", "found", "message"})
       || deviceUuid.None? || found.None? || message.None? then None
    else Some(NotFoundResponse(deviceUuid.value, found.value, message.value))
  }

  function DecodeError(j: Value): Option<ErrorResponse> {
    if j.Object? && HasRequired(j.fields, ERROR_REQUIRED) then ErrorStruct(j.fields) else None
  }

  function DecodeFound(j: Value): Option<FoundResponse> {
    if j.Object? && HasRequired(j.fields, FOUND_REQUIRED) then FoundStruct(j.fields) else None
  }

  function DecodeNotFound(j: Value): Option<NotFoundResponse> {
    if j.Object? && HasRequired(j.fields, NOT_FOUND_REQUIRED) then NotFoundStruct(j.fields) else None
  }

  /** The records' own `UnmarshalJSON`. */
  method ReadError(data: Value) returns (r: Option<ErrorResponse>)
    ensures r == DecodeError(data)
    ensures r.Some? <==> Conforms(data, Schema(KindError))
  {
    hide Conforms;
    ErrorSchema(data);
    if !data.Object? {
      return None;
    }
    var complete := CheckRequired(data.fields, ERROR_REQUIRED);
    if !complete {
      return None;
    }
    r := ErrorStruct(data.fields);
  }

  method ReadFound(data: Value) returns (r: Option<FoundResponse>)
    ensures r == DecodeFound(data)
    ensures r.Some? <==> Conforms(data, Schema(KindFound))
  {
    hide Conforms;
    FoundSchema(data);
    if !data.Object? {
      return None;
    }
    var complete := CheckRequired(data.fields, FOUND_REQUIRED);
    if !complete {
      return None;
    }
    r := FoundStruct(data.fields);
  }

  method ReadNotFound(data: Value) returns (r: Option<NotFoundResponse>)
    ensures r == DecodeNotFound(data)
    ensures r.Some? <==> Conforms(data, Schema(KindNotFound))
  {
    hide Conforms;
    NotFoundSchema(data);
    if !data.Object? {
      return None;
    }
    var complete := CheckRequired(data.fields, NOT_FOUND_REQUIRED);
    if !complete {
      return None;
    }
    r := NotFoundStruct(data.fields);
  }

  // ----- The anyOf

  datatype Variant =
    | IsError(error: ErrorResponse)
    | IsFound(found: FoundResponse)
    | IsNotFound(notFound: NotFoundResponse)

  function Encode(v: Variant): Value {
    match v
    case IsError(r) => Object(ErrorToMap(r))
    case IsFound(r) => Object(FoundToMap(r))
    case IsNotFound(r) => Object(NotFoundToMap(r))
  }

  datatype Kind = KindError | KindFound | KindNotFound

  function Try(kind: Kind, j: Value): Option<Variant> {
    match kind
    case KindError => if DecodeError(j).Some? then Some(IsError(DecodeError(j).value)) else None
    case KindFound => if DecodeFound(j).Some? then Some(IsFound(DecodeFound(j).value)) else None
    case KindNotFound => if DecodeNotFound(j).Some? then Some(IsNotFound(DecodeNotFound(j).value)) else None
  }

  /** The first kind of the list that accepts the value. */
  function FirstMatch(order: seq<Kind>, j: Value): Option<Variant> {
    if order == [] then None
    else if Try(order[0], j).Some? then Try(order[0], j)
    else FirstMatch(order[1..], j)
  }

  function Decode(j: Value): Option<Variant> {
    FirstMatch([KindError, KindFound, KindNotFound], j)
  }

  /** `ResponseTestCacheLookupV1AdminCacheTestDeviceUuidGet`, rewritten in place. */
  class LookupResponse {
    var error: Option<ErrorResponse>
    var found: Option<FoundResponse>
    var notFound: Option<NotFoundResponse>

    constructor ()
      ensures error == None && found == None && notFound == None
    {
      error, found, notFound := None, None, None;
    }

    /** Whatever was held before, exactly the decoded variant is held afterwards, or nothing. */
    method UnmarshalJSON(data: Value) returns (ok: bool)
      modifies this
      ensures ok == Decode(data).Some?
      ensures error == match Decode(data) case Some(IsError(r)) => Some(r) case _ => None
      ensures found == match Decode(data) case Some(IsFound(r)) => Some(r) case _ => None
      ensures notFound == match Decode(data) case Some(IsNotFound(r)) => Some(r) case _ => None
    {
      error, found, notFound := None, None, None;
      ListedOrder(data);
      NeverEmptyObject();
      if data == Null {
        return false;
      }
      error := ReadError(data);
      if error.Some? && ErrorToMap(error.value) != map[] {
        return true;
      }
      error := None;
      found := ReadFound(data);
      if found.Some? && FoundToMap(found.value) != map[] {
        return true;
      }
      found := None;
      notFound := ReadNotFound(data);
      if notFound.Some? && NotFoundToMap(notFound.value) != map[] {
        return true;
      }
      notFound := None;
      ok := false;
    }

    /** The first variant held, written as JSON; None is the error for an empty response. */
    method MarshalJSON() returns (json: Option<Value>)
      ensures json.None? <==> error.None? && found.None? && notFound.None?
      ensures error.Some? ==> json == Some(Encode(IsError(error.value)))
      ensures error.None? && found.Some? ==> json == Some(Encode(IsFound(found.value)))
      ensures error.None? && found.None? && notFound.Some? ==> json == Some(Encode(IsNotFound(notFound.value)))
    {
      if error.Some? {
        return Some(Object(ErrorToMap(error.value)));
      }
      if found.Some? {
        return Some(Object(FoundToMap(found.value)));
      }
      if notFound.Some? {
        return Some(Object(NotFoundToMap(notFound.value)));
      }
      json := None;
    }
  }

  lemma ListedOrder(j: Value)
    ensures Decode(j) ==
      if Try(KindError, j).Some? then Try(KindError, j)
      else if Try(KindFound, j).Some? then Try(KindFound, j)
      else Try(KindNotFound, j)
  {
    assert [KindError, KindFound, KindNotFound][1..] == [KindFound, KindNotFound];
    assert [KindFound, KindNotFound][1..] == [KindNotFound];
    assert [KindNotFound][1..] == [];
    assert FirstMatch([KindNotFound], j) == Try(KindNotFound, j);
    assert FirstMatch([KindFound, KindNotFound], j)
      == if Try(KindFound, j).Some? then Try(KindFound, j) else Try(KindNotFound, j);
  }

  /** No record is written as the empty object, so the test for `{}` never discards one. */
  lemma NeverEmptyObject()
    ensures forall r :: ErrorToMap(r) != map[]
    ensures forall r :: FoundToMap(r) != map[]
    ensures forall r :: NotFoundToMap(r) != map[]
  {
    forall r ensures ErrorToMap(r) != map[] {
      assert "device_uuid" in ErrorToMap(r);
    }
    forall r ensures FoundToMap(r) != map[] {
      assert "device_uuid" in FoundToMap(r);
    }
    forall r ensures NotFoundToMap(r) != map[] {
      assert "device_uuid" in NotFoundToMap(r);
    }
  }

  // ----- At most one decoder accepts

  /** A property that only records of this kind have. */
  function TellTale(kind: Kind): string {
    match kind case KindError => "error" case KindFound => "platform" case KindNotFound => "message"
  }

  lemma AcceptedTellsItsKind(kind: Kind, j: Value)
    requires Try(kind, j).Some?
    ensures j.Object? && TellTale(kind) in j.fields
    ensures forall other :: other != kind ==> TellTale(other) !in j.fields
  {
    NamesDiffer();
    match kind
    case KindError => assert Given(j.fields, "error", ERROR_REQUIRED["error"]);
    case KindFound => assert Given(j.fields, "platform", FOUND_REQUIRED["platform"]);
    case KindNotFound => assert Given(j.fields, "message", NOT_FOUND_REQUIRED["message"]);
  }

  lemma AtMostOneAccepts(j: Value, a: Kind, b: Kind)
    requires Try(a, j).Some? && Try(b, j).Some?
    ensures a == b
  {
    AcceptedTellsItsKind(a, j);
    AcceptedTellsItsKind(b, j);
  }

  /** A kind that accepts the value is what any list of kinds with it in finds. */
  lemma {:induction false} OnlyMatch(order: seq<Kind>, kind: Kind, j: Value)
    requires kind in order && Try(kind, j).Some?
    ensures FirstMatch(order, j) == Try(kind, j)
  {
    if Try(order[0], j).Some? {
      AtMostOneAccepts(j, order[0], kind);
    } else {
      OnlyMatch(order[1..], kind, j);
    }
  }

  lemma {:induction false} NoMatch(order: seq<Kind>, j: Value)
    requires forall kind :: Try(kind, j).None?
    ensures FirstMatch(order, j) == None
  {
    if order != [] {
      NoMatch(order[1..], j);
    }
  }

  /** Trying the three kinds in any order, with repetitions too, decodes the same. */
  lemma TrialOrderDoesNotMatter(order: seq<Kind>, j: Value)
    requires KindError in order && KindFound in order && KindNotFound in order
    ensures FirstMatch(order, j) == Decode(j)
  {
    if kind: Kind :| Try(kind, j).Some? {
      OnlyMatch(order, kind, j);
      OnlyMatch([KindError, KindFound, KindNotFound], kind, j);
    } else {
      NoMatch(order, j);
      NoMatch([KindError, KindFound, KindNotFound], j);
    }
  }

  // ----- Round trips

  /** Reading marks `platform` as set: unset and set to null are written alike. */
  function Normalized(v: Variant): Variant {
    match v
    case IsFound(r) => IsFound(r.(platform := NullableString(r.platform.value, true)))
    case _ => v
  }

  lemma ReadBackError(r: ErrorResponse)
    ensures DecodeError(Object(ErrorToMap(r))) == Some(r)
  {
  }

  lemma ReadBackFound(r: FoundResponse)
    ensures DecodeFound(Object(FoundToMap(r))) == Some(r.(platform := NullableString(r.platform.value, true)))
  {
    NamesDiffer();
  }

  lemma ReadBackNotFound(r: NotFoundResponse)
    ensures DecodeNotFound(Object(NotFoundToMap(r))) == Some(r)
  {
  }

  /** What is written is read back as the same variant with the same values. */
  lemma DecodeOfEncode(v: Variant)
    ensures Decode(Encode(v)) == Some(Normalized(v))
  {
    hide DecodeError, DecodeFound, DecodeNotFound, ErrorToMap, FoundToMap, NotFoundToMap, FirstMatch;
    var kind := match v case IsError(_) => KindError case IsFound(_) => KindFound case IsNotFound(_) => KindNotFound;
    match v {
      case IsError(r) => ReadBackError(r);
      case IsFound(r) => ReadBackFound(r);
      case IsNotFound(r) => ReadBackNotFound(r);
    }
    OnlyMatch([KindError, KindFound, KindNotFound], kind, Encode(v));
  }

  /** Everything of an object but a null `found`. */
  function WithoutNullFlag(fields: map<string, Value>): map<string, Value> {
    if Field(fields, "found") == Some(Null) then fields - {"found"} else fields
  }

  lemma WriteBackError(j: Value)
    requires DecodeError(j).Some?
    ensures ErrorToMap(DecodeError(j).value) == WithoutNullFlag(j.fields)
  {
    NamesDiffer();
    assert Given(j.fields, "error", ERROR_REQUIRED["error"]);
    assert Given(j.fields, "device_uuid", ERROR_REQUIRED["device_uuid"]);
  }

  lemma WriteBackFound(j: Value)
    requires DecodeFound(j).Some?
    ensures FoundToMap(DecodeFound(j).value) == WithoutNullFlag(j.fields)
  {
    NamesDiffer();
    assert Given(j.fields, "device_name", FOUND_REQUIRED["device_name"]);
    assert Given(j.fields, "device_uuid", FOUND_REQUIRED["device_uuid"]);
    assert Given(j.fields, "platform", FOUND_REQUIRED["platform"]);
    assert Given(j.fields, "site", FOUND_REQUIRED["site"]);
  }

  lemma WriteBackNotFound(j: Value)
    requires DecodeNotFound(j).Some?
    ensures NotFoundToMap(DecodeNotFound(j).value) == WithoutNullFlag(j.fields)
  {
    NamesDiffer();
    assert Given(j.fields, "device_uuid", NOT_FOUND_REQUIRED["device_uuid"]);
    assert Given(j.fields, "message", NOT_FOUND_REQUIRED["message"]);
  }

  /** Writing back what was read restores the JSON object, except that a null `found` goes. */
  lemma EncodeOfDecode(j: Value)
    requires Decode(j).Some?
    ensures j.Object? && Encode(Decode(j).value) == Object(WithoutNullFlag(j.fields))
  {
    ListedOrder(j);
    hide DecodeError, DecodeFound, DecodeNotFound, ErrorToMap, FoundToMap, NotFoundToMap, WithoutNullFlag, FirstMatch;
    match Decode(j).value {
      case IsError(_) => WriteBackError(j); AcceptedTellsItsKind(KindError, j);
      case IsFound(_) => WriteBackFound(j); AcceptedTellsItsKind(KindFound, j);
      case IsNotFound(_) => WriteBackNotFound(j); AcceptedTellsItsKind(KindNotFound, j);
    }
  }

  /** Each value stands under its own key. */
  lemma FieldsHaveTheirKeys(v: Variant)
    ensures v.IsError? ==>
      Encode(v) == Object(map["device_uuid" := String(v.error.deviceUuid), "error" := String(v.error.error)])
    ensures v.IsFound? ==>
      var fields := Encode(v).fields;
      && "device_name" in fields && fields["device_name"] == String(v.found.deviceName)
      && "device_uuid" in fields && fields["device_uuid"] == String(v.found.deviceUuid)
      && "site" in fields && fields["site"] == String(v.found.site)
      && "platform" in fields
      && fields["platform"] == (match v.found.platform.value case Some(s) => String(s) case None => Null)
      && (match v.found.found case Some(b) => "found" in fields && fields["found"] == Bool(b)
                              case None => "found" !in fields)
    ensures v.IsNotFound? ==>
      var fields := Encode(v).fields;
      && "device_uuid" in fields && fields["device_uuid"] == String(v.notFound.deviceUuid)
      && "message" in fields && fields["message"] == String(v.notFound.message)
      && (match v.notFound.found case Some(b) => "found" in fields && fields["found"] == Bool(b)
                                 case None => "found" !in fields)
  {
    NamesDiffer();
  }

  // ----- What is accepted

  datatype Shape = Text | TextOrNull | FlagOrNull

  /** The properties of a record: the shape of each, and whether it must be given. */
  datatype Property = Property(shape: Shape, required: bool)

  function Schema(kind: Kind): map<string, Property> {
    match kind
    case KindError => map["device_uuid" := Property(Text, true), "error" := Property(Text, true)]
    case KindFound => map["device_name" := Property(Text, true), "device_uuid" := Property(Text, true),
                          "found" := Property(FlagOrNull, false), "platform" := Property(TextOrNull, true),
                          "site" := Property(Text, true)]
    case KindNotFound => map["device_uuid" := Property(Text, true), "found" := Property(FlagOrNull, false),
                             "message" := Property(Text, true)]
  }

  predicate HasShape(v: Value, shape: Shape) {
    match shape
    case Text => v.String?
    case TextOrNull => v.String? || v.Null?
    case FlagOrNull => v.Bool? || v.Null?
  }

  ghost predicate Conforms(j: Value, schema: map<string, Property>) {
    && j.Object?
    && (forall key :: key in j.fields ==> key in schema && HasShape(j.fields[key], schema[key].shape))
    && (forall key :: key in schema && schema[key].required ==> key in j.fields)
  }

  lemma ErrorSchema(j: Value)
    ensures DecodeError(j).Some? <==> Conforms(j, Schema(KindError))
  {
    NamesDiffer();
    var schema := Schema(KindError);
    if DecodeError(j).Some? {
      assert Given(j.fields, "device_uuid", ERROR_REQUIRED["device_uuid"]);
      assert Given(j.fields, "error", ERROR_REQUIRED["error"]);
    }
    if Conforms(j, schema) {
      assert "device_uuid" in schema && schema["device_uuid"].required;
      assert "error" in schema && schema["error"].required;
    }
  }

  lemma FoundSchema(j: Value)
    ensures DecodeFound(j).Some? <==> Conforms(j, Schema(KindFound))
  {
    NamesDiffer();
    var schema := Schema(KindFound);
    if DecodeFound(j).Some? {
      assert Given(j.fields, "device_name", FOUND_REQUIRED["device_name"]);
      assert Given(j.fields, "device_uuid", FOUND_REQUIRED["device_uuid"]);
      assert Given(j.fields, "platform", FOUND_REQUIRED["platform"]);
      assert Given(j.fields, "site", FOUND_REQUIRED["site"]);
    }
    if Conforms(j, schema) {
      assert "device_name" in schema && schema["device_name"].required;
      assert "device_uuid" in schema && schema["device_uuid"].required;
      assert "platform" in schema && schema["platform"].required;
      assert "site" in schema && schema["site"].required;
    }
  }

  lemma NotFoundSchema(j: Value)
    ensures DecodeNotFound(j).Some? <==> Conforms(j, Schema(KindNotFound))
  {
    NamesDiffer();
    var schema := Schema(KindNotFound);
    if DecodeNotFound(j).Some? {
      assert Given(j.fields, "device_uuid", NOT_FOUND_REQUIRED["device_uuid"]);
      assert Given(j.fields, "message", NOT_FOUND_REQUIRED["message"]);
    }
    if Conforms(j, schema) {
      assert "device_uuid" in schema && schema["device_uuid"].required;
      assert "message" in schema && schema["message"].required;
    }
  }

  /** A record decoder accepts exactly the objects of its schema. */
  lemma AcceptsItsSchema(kind: Kind, j: Value)
    ensures Try(kind, j).Some? <==> Conforms(j, Schema(kind))
  {
    match kind
    case KindError => ErrorSchema(j);
    case KindFound => FoundSchema(j);
    case KindNotFound => NotFoundSchema(j);
  }

  /** The response accepts exactly the objects that conform to some schema of the `anyOf`. */
  lemma AcceptsExactlyTheSchemas(j: Value)
    ensures Decode(j).Some? <==> exists kind :: Conforms(j, Schema(kind))
  {
    if kind: Kind :| Conforms(j, Schema(kind)) {
      AcceptsItsSchema(kind, j);
      OnlyMatch([KindError, KindFound, KindNotFound], kind, j);
    } else {
      forall kind ensures Try(kind, j).None? {
        AcceptsItsSchema(kind, j);
      }
      NoMatch([KindError, KindFound, KindNotFound], j);
    }
  }
}
