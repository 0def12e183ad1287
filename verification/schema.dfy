/** The write-path schema of `Media` (`jsonSchema`): the declared properties as
    data, the checks a JSON-schema validator runs against them, and the same
    rules stated field by field. */
module Schema {
  import opened Wrappers
  import opened Store

  /** The properties the schema declares. */
  datatype Field =
    | Id | Name | File | Thumbnail | MimeType | Size | Width | Height
    | Description | ProjectId | UserId | CreatedAt | ModifiedAt

  /** The property name of each declared field. */
  function FieldName(f: Field): string {
    match f
    case Id => "id"
    case Name => "name"
    case File => "file"
    case Thumbnail => "thumbnail"
    case MimeType => "mimeType"
    case Size => "size"
    case Width => "width"
    case Height => "height"
    case Description => "description"
    case ProjectId => "projectId"
    case UserId => "userId"
    case CreatedAt => "createdAt"
    case ModifiedAt => "modifiedAt"
  }

  /** A property name of an incoming object: one the schema declares, or any other. */
  datatype Key = Declared(field: Field) | Undeclared(name: string)

  /** Classify a property name by the schema's declared names. */
  function KeyOf(name: string): (k: Key)
    ensures k.Declared? ==> FieldName(k.field) == name
    ensures k.Undeclared? ==> k.name == name && forall f :: FieldName(f) != name
  {
    if name == "id" then Declared(Id)
    else if name == "name" then Declared(Name)
    else if name == "file" then Declared(File)
    else if name == "thumbnail" then Declared(Thumbnail)
    else if name == "mimeType" then Declared(MimeType)
    else if name == "size" then Declared(Size)
    else if name == "width" then Declared(Width)
    else if name == "height" then Declared(Height)
    else if name == "description" then Declared(Description)
    else if name == "projectId" then Declared(ProjectId)
    else if name == "userId" then Declared(UserId)
    else if name == "createdAt" then Declared(CreatedAt)
    else if name == "modifiedAt" then Declared(ModifiedAt)
    else Undeclared(name)
  }

  /** Each declared name classifies back to its own field. */
  lemma KeyOfFieldName(f: Field)
    ensures KeyOf(FieldName(f)) == Declared(f)
  {
  }

  /** A JSON value as the validator sees it: an integral number, a string, or
      anything else (boolean, null, fractional number, array, object). */
  datatype JsonValue = JInt(n: int) | JStr(s: string) | JOther

  /** An incoming JSON object, its property names classified. */
  type JsonObject = map<Key, JsonValue>

  datatype JsonType = IntegerType | StringType

  /** One declared property: its JSON type and optional bounds. */
  datatype Property = Property(field: Field, ty: JsonType, maxLength: Option<nat>, minimum: Option<int>)

  /** The `properties` block of the media schema, in declaration order. */
  const MediaProperties: seq<Property> := [
    Property(Id, IntegerType, None, None),
    Property(Name, StringType, Some(512), None),
    Property(File, StringType, Some(512), None),
    Property(Thumbnail, StringType, Some(512), None),
    Property(MimeType, StringType, Some(128), None),
    Property(Size, IntegerType, None, None),
    Property(Width, IntegerType, None, Some(0)),
    Property(Height, IntegerType, None, Some(0)),
    Property(Description, StringType, Some(64), None),
    Property(ProjectId, IntegerType, None, None),
    Property(UserId, IntegerType, None, None),
    Property(CreatedAt, StringType, None, None),
    Property(ModifiedAt, StringType, None, None)
  ]

  /** The `required` list of the media schema. */
  const MediaRequired: seq<Field> := [Name, File, MimeType, Size, ProjectId, UserId]

  /** A schema violation, naming the offending property. */
  datatype Violation =
    | UnknownProperty(key: Key)
    | MissingProperty(key: Key)
    | WrongType(key: Key, expected: JsonType)
    | TooLong(key: Key, maxLength: nat)
    | BelowMinimum(key: Key, minimum: int)

  /** The violations of one present value against its declared property. */
  function ValueViolations(prop: Property, v: JsonValue): (r: set<Violation>)
    ensures forall x :: x in r ==> x.key == Declared(prop.field) && !x.MissingProperty? && !x.UnknownProperty?
  {
    var key := Declared(prop.field);
    match prop.ty
    case IntegerType =>
      if !v.JInt? then {WrongType(key, IntegerType)}
      else if prop.minimum.Some? && v.n < prop.minimum.value then {BelowMinimum(key, prop.minimum.value)}
      else {}
    case StringType =>
      if !v.JStr? then {WrongType(key, StringType)}
      else if prop.maxLength.Some? && |v.s| > prop.maxLength.value then {TooLong(key, prop.maxLength.value)}
      else {}
  }

  /** The present value of `p`, if any, raises no violation. */
  predicate Conforms(p: Property, obj: JsonObject) {
    Declared(p.field) in obj ==> ValueViolations(p, obj[Declared(p.field)]) == {}
  }

  /** The violations of the present values of `obj` against `props`. */
  function PropertyViolations(props: seq<Property>, obj: JsonObject): (r: set<Violation>)
    ensures forall x :: x in r ==> x.key in obj && !x.MissingProperty? && !x.UnknownProperty?
    ensures r == {} <==> forall p :: p in props ==> Conforms(p, obj)
  {
    if props == [] then {}
    else
      var p := props[0];
      var here := if Declared(p.field) in obj then ValueViolations(p, obj[Declared(p.field)]) else {};
      assert forall q :: q in props <==> q == p || q in props[1..];
      assert here == {} <==> Conforms(p, obj);
      assert forall x :: x in here ==> x.key == Declared(p.field) && x.key in obj;
      here + PropertyViolations(props[1..], obj)
  }

  /** Every violation of the media schema by `obj`. */
  function Violations(obj: JsonObject): set<Violation> {
    (set k | k in obj && k.Undeclared? :: UnknownProperty(k))
    + (set f | f in MediaRequired && Declared(f) !in obj :: MissingProperty(Declared(f)))
    + PropertyViolations(MediaProperties, obj)
  }

  /** A present `f` holds a string of at most `maxLength` characters. */
  predicate StringAtMost(obj: JsonObject, f: Field, maxLength: nat) {
    Declared(f) in obj ==> obj[Declared(f)].JStr? && |obj[Declared(f)].s| <= maxLength
  }

  /** A present `f` holds a string. */
  predicate AnyString(obj: JsonObject, f: Field) {
    Declared(f) in obj ==> obj[Declared(f)].JStr?
  }

  /** A present `f` holds an integer. */
  predicate AnyInteger(obj: JsonObject, f: Field) {
    Declared(f) in obj ==> obj[Declared(f)].JInt?
  }

  /** A present `f` holds a non-negative integer. */
  predicate NonNegativeInteger(obj: JsonObject, f: Field) {
    Declared(f) in obj ==> obj[Declared(f)].JInt? && obj[Declared(f)].n >= 0
  }

  /** No properties beyond the declared ones (`additionalProperties: false`). */
  predicate KeysDeclared(obj: JsonObject) {
    forall k :: k in obj ==> k.Declared?
  }

  /** The required properties are present. */
  predicate RequiredPresent(obj: JsonObject) {
    && Declared(Name) in obj && Declared(File) in obj && Declared(MimeType) in obj
    && Declared(Size) in obj && Declared(ProjectId) in obj && Declared(UserId) in obj
  }

  /** Each present property has its type and keeps its bounds. */
  predicate ValuesConform(obj: JsonObject) {
    && AnyInteger(obj, Id)
    && StringAtMost(obj, Name, 512)
    && StringAtMost(obj, File, 512)
    && StringAtMost(obj, Thumbnail, 512)
    && StringAtMost(obj, MimeType, 128)
    && AnyInteger(obj, Size)
    && NonNegativeInteger(obj, Width)
    && NonNegativeInteger(obj, Height)
    && StringAtMost(obj, Description, 64)
    && AnyInteger(obj, ProjectId)
    && AnyInteger(obj, UserId)
    && AnyString(obj, CreatedAt)
    && AnyString(obj, ModifiedAt)
  }

  /** The media schema, rule by rule. */
  predicate Valid(obj: JsonObject) {
    KeysDeclared(obj) && RequiredPresent(obj) && ValuesConform(obj)
  }

  /** Validation on the write path: the object is accepted unchanged, or rejected
      with every violation, each naming its property. */
  function Validate(obj: JsonObject): (r: Result<JsonObject, set<Violation>>)
    ensures r.Ok? <==> Valid(obj)
    ensures r.Ok? ==> r.value == obj
    ensures r.Err? ==> r.error != {}
    ensures r.Err? ==> forall x :: x in r.error ==> (x.key in obj <==> !x.MissingProperty?)
  {
    ViolationsMatchRules(obj);
    var errs := Violations(obj);
    if errs == {} then Ok(obj) else Err(errs)
  }

  lemma UnknownEmpty(obj: JsonObject)
    ensures (set k | k in obj && k.Undeclared? :: UnknownProperty(k)) == {} <==> KeysDeclared(obj)
  {
    var unknown := set k | k in obj && k.Undeclared? :: UnknownProperty(k);
    if unknown == {} {
      forall k | k in obj ensures k.Declared? {
        assert UnknownProperty(k) !in unknown;
      }
    }
  }

  lemma MissingEmpty(obj: JsonObject)
    ensures (set f | f in MediaRequired && Declared(f) !in obj :: MissingProperty(Declared(f))) == {} <==> RequiredPresent(obj)
  {
    var missing := set f | f in MediaRequired && Declared(f) !in obj :: MissingProperty(Declared(f));
    if missing == {} {
      forall f | f in MediaRequired ensures Declared(f) in obj {
        assert MissingProperty(Declared(f)) !in missing;
      }
    }
  }

  lemma ConformsEverywhere(obj: JsonObject)
    ensures (forall p :: p in MediaProperties ==> Conforms(p, obj)) <==> ValuesConform(obj)
  {
    var P := MediaProperties;
    if forall p :: p in P ==> Conforms(p, obj) {
      assert Conforms(P[0], obj) && Conforms(P[1], obj) && Conforms(P[2], obj) && Conforms(P[3], obj);
      assert Conforms(P[4], obj) && Conforms(P[5], obj) && Conforms(P[6], obj) && Conforms(P[7], obj);
      assert Conforms(P[8], obj) && Conforms(P[9], obj) && Conforms(P[10], obj);
      assert Conforms(P[11], obj) && Conforms(P[12], obj);
    }
    if ValuesConform(obj) {
      forall i | 0 <= i < |P| ensures Conforms(P[i], obj) {
      }
    }
  }

  /** An incoming object as it arrives: values by raw property name. */
  type RawObject = map<string, JsonValue>

  /** Key every property of `raw` by its classified name. No two names share a
      key, so nothing is lost. */
  function Classify(raw: RawObject): (obj: JsonObject)
    ensures forall f :: Declared(f) in obj <==> FieldName(f) in raw
    ensures forall f :: Declared(f) in obj ==> obj[Declared(f)] == raw[FieldName(f)]
    ensures forall k :: k in obj && k.Undeclared? ==> k.name in raw && KeyOf(k.name) == k
    ensures forall n :: n in raw ==> KeyOf(n) in obj
  {
    forall f ensures KeyOf(FieldName(f)) == Declared(f) {
      KeyOfFieldName(f);
    }
    map n | n in raw :: KeyOf(n) := raw[n]
  }

  /** The media schema, rule by rule, over raw property names. */
  predicate NamesValid(raw: RawObject) {
    && (forall n :: n in raw ==> exists f :: FieldName(f) == n)
    && (forall f :: f in MediaRequired ==> FieldName(f) in raw)
    && ValuesConform(Classify(raw))
  }

  /** Validation of an object as it arrives, property names still raw. */
  function ValidateNames(raw: RawObject): (r: Result<JsonObject, set<Violation>>)
    ensures r.Ok? <==> NamesValid(raw)
    ensures r.Ok? ==> forall n :: n in raw ==> KeyOf(n) in r.value && r.value[KeyOf(n)] == raw[n]
    ensures r.Err? ==> r.error != {}
  {
    NamesKeysDeclared(raw);
    NamesRequiredPresent(raw);
    Validate(Classify(raw))
  }

  /** A payload with a property the schema does not declare is rejected,
      whatever else it holds. */
  lemma UnknownNameRejected(raw: RawObject, n: string, v: JsonValue)
    requires forall f :: FieldName(f) != n
    ensures ValidateNames(raw[n := v]).Err?
  {
  }

  /** Every raw name is declared iff every classified key is. */
  lemma NamesKeysDeclared(raw: RawObject)
    ensures KeysDeclared(Classify(raw)) <==> forall n :: n in raw ==> exists f :: FieldName(f) == n
  {
    var obj := Classify(raw);
    if KeysDeclared(obj) {
      forall n | n in raw ensures exists f :: FieldName(f) == n {
        var k := KeyOf(n);
        assert k in obj;
        assert FieldName(k.field) == n;
      }
    } else {
      var k :| k in obj && k.Undeclared?;
      assert k.name in raw && KeyOf(k.name) == k;
      assert forall f :: FieldName(f) != k.name;
    }
  }

  /** The required raw names are present iff the required keys are. */
  lemma NamesRequiredPresent(raw: RawObject)
    ensures RequiredPresent(Classify(raw)) <==> forall f :: f in MediaRequired ==> FieldName(f) in raw
  {
  }

  /** The data-driven checks and the field-by-field rules agree on every object. */
  lemma ViolationsMatchRules(obj: JsonObject)
    ensures Violations(obj) == {} <==> Valid(obj)
  {
    UnknownEmpty(obj);
    MissingEmpty(obj);
    ConformsEverywhere(obj);
  }

  /** Every declared field. */
  const AllFields: set<Field> :=
    {Id, Name, File, Thumbnail, MimeType, Size, Width, Height,
     Description, ProjectId, UserId, CreatedAt, ModifiedAt}

  /** The JSON value a row supplies for `f` on insert: nothing for the
      store-assigned `id` or for a NULL column. */
  function Column(row: MediaRow, f: Field): Option<JsonValue> {
    match f
    case Id => None
    case Name => Some(JStr(row.name))
    case File => Some(JStr(row.file))
    case Thumbnail => if row.thumbnail.Some? then Some(JStr(row.thumbnail.value)) else None
    case MimeType => Some(JStr(row.mimeType))
    case Size => Some(JInt(row.size))
    case Width => Some(JInt(row.width))
    case Height => Some(JInt(row.height))
    case Description => Some(JStr(row.description))
    case ProjectId => Some(JInt(row.projectId))
    case UserId => Some(JInt(row.userId))
    case CreatedAt => if row.createdAt.Some? then Some(JStr(row.createdAt.value)) else None
    case ModifiedAt => if row.modifiedAt.Some? then Some(JStr(row.modifiedAt.value)) else None
  }

  /** The insert payload of a stored row. */
  function Encode(row: MediaRow): JsonObject {
    map f | f in AllFields && Column(row, f).Some? :: Declared(f) := Column(row, f).value
  }

  lemma EncodeAt(row: MediaRow, f: Field)
    ensures Declared(f) in Encode(row) <==> Column(row, f).Some?
    ensures Column(row, f).Some? ==> Encode(row)[Declared(f)] == Column(row, f).value
  {
  }

  lemma EncodeKeysDeclared(row: MediaRow)
    ensures KeysDeclared(Encode(row))
  {
  }

  lemma EncodeRequiredPresent(row: MediaRow)
    ensures RequiredPresent(Encode(row))
  {
    EncodeAt(row, Name); EncodeAt(row, File); EncodeAt(row, MimeType);
    EncodeAt(row, Size); EncodeAt(row, ProjectId); EncodeAt(row, UserId);
  }

  lemma EncodeConformsIffWellFormed(row: MediaRow)
    ensures ValuesConform(Encode(row)) <==> WellFormed(row)
  {
    EncodeAt(row, Id); EncodeAt(row, Name); EncodeAt(row, File); EncodeAt(row, Thumbnail);
    EncodeAt(row, MimeType); EncodeAt(row, Size); EncodeAt(row, Width); EncodeAt(row, Height);
    EncodeAt(row, Description); EncodeAt(row, ProjectId); EncodeAt(row, UserId);
    EncodeAt(row, CreatedAt); EncodeAt(row, ModifiedAt);
  }

  /** A row's payload passes the schema exactly when the row keeps the column bounds. */
  lemma EncodeValid(row: MediaRow)
    ensures Validate(Encode(row)).Ok? <==> WellFormed(row)
  {
    EncodeKeysDeclared(row);
    EncodeRequiredPresent(row);
    EncodeConformsIffWellFormed(row);
  }
}
