/**
 * The `$project` stage of the journal aggregation: how each output field of a journal
 * row falls back when its source field is null or missing. The `$lookup`/`$unwind` joins
 * are taken as done: a journal carries the user and location documents it matched, if any.
 */
module Projection {
  import opened Wrappers
  import opened ObjectIds

  /** A BSON value. `Scalar` stands for every other type (numbers, dates, booleans, ids), kept opaque. */
  datatype Value = Null | Str(s: string) | Arr(elems: seq<Value>) | Scalar(code: int)

  /** A field of a document: `None` when the field is missing, `Some(Null)` when it holds null. */
  type Field = Option<Value>

  /** A `locations` document, with the sub-fields of `coordinates` flattened. */
  datatype Location = Location(
    name: Field, city: Field, stateInitials: Field, state: Field, zip: Field,
    country: Field, address: Field,
    lat: Field, latitude: Field, lng: Field, longitude: Field,
    /** `coordinates.coordinates`: a GeoJSON position when it is an array. */
    position: Field,
    parkNumber: Field, category: Field)

  /** A `userdetails` document. */
  datatype User = User(name: Field, email: Field)

  /**
   * A `journals` document with its joined user and location. `duration` is the outcome of
   * the `$round` of `(end_time - start_time) / 60000`, a floating-point computation kept
   * opaque: `Ok` holds the value, and `Err` stands for operands that `$subtract` or
   * `$divide` reject (a string time, say), which aborts the aggregation.
   */
  datatype Journal = Journal(
    id: ObjectId, startTime: Field, endTime: Field, duration: Result<Field>,
    activity: Field, notes: Field, user: Option<User>, loc: Option<Location>)

  const NO_LOCATION := Location(None, None, None, None, None, None, None, None, None, None, None, None, None, None)
  const NO_USER := User(None, None)

  /** The joined location, or a document with every field missing when the join found nothing. */
  function Loc(j: Journal): Location {
    if j.loc.Some? then j.loc.value else NO_LOCATION
  }

  function UserOf(j: Journal): User {
    if j.user.Some? then j.user.value else NO_USER
  }

  /** Null or missing: what `$ifNull` replaces. */
  predicate Nullish(f: Field) {
    f.None? || f.value == Null
  }

  /** `{"$ifNull": [a, b]}`: `a` unless it is null or missing, else `b` (evaluated only then). */
  function IfNull(a: Field, b: Field): (r: Field)
    ensures !Nullish(a) ==> r == a
    ensures Nullish(a) ==> r == b
  {
    if Nullish(a) then b else a
  }

  function OrEmpty(f: Field): Field {
    IfNull(f, Some(Str("")))
  }

  /** `State`: `stateInitials`, else `state`, else the empty string. */
  function StateField(l: Location): (r: Field)
    ensures !Nullish(r)
    ensures !Nullish(l.stateInitials) ==> r == l.stateInitials
    ensures Nullish(l.stateInitials) && !Nullish(l.state) ==> r == l.state
    ensures Nullish(l.stateInitials) && Nullish(l.state) ==> r == Some(Str(""))
  {
    IfNull(l.stateInitials, IfNull(l.state, Some(Str(""))))
  }

  /**
   * `n_Place`: `$concat` of name, ", ", city, " " and the state, each defaulted to "".
   * `$concat` accepts only strings: any other value makes the aggregation fail.
   */
  function PlaceField(l: Location): (r: Result<string>)
    ensures r.Ok? <==> OrEmpty(l.name).value.Str? && OrEmpty(l.city).value.Str? && StateField(l).value.Str?
  {
    var name := OrEmpty(l.name).value;
    var city := OrEmpty(l.city).value;
    var state := StateField(l).value;
    if name.Str? && city.Str? && state.Str? then Ok(name.s + ", " + city.s + " " + state.s)
    else Err("$concat only supports strings")
  }

  /** `lat_from_geojson` (i = 1) and `lng_from_geojson` (i = 0): an element of the position only when it is an array. */
  function PositionElem(l: Location, i: nat): Field {
    if l.position.Some? && l.position.value.Arr? then
      var es := l.position.value.elems;
      if i < |es| then Some(es[i]) else None
    else Some(Null)
  }

  /** `n_Lati`: `lat`, else `latitude`, else the second element of the position. */
  function LatitudeField(l: Location): Field {
    IfNull(l.lat, IfNull(l.latitude, PositionElem(l, 1)))
  }

  /** `n_Long`: `lng`, else `longitude`, else the first element of the position. */
  function LongitudeField(l: Location): Field {
    IfNull(l.lng, IfNull(l.longitude, PositionElem(l, 0)))
  }

  /**
   * `{"$arrayElemAt": [f, i]}`: null for a null or missing array, missing past the end,
   * and an aggregation error for anything that is not an array.
   */
  function ElemAt(f: Field, i: nat): (r: Result<Field>)
    ensures r.Err? <==> !Nullish(f) && !f.value.Arr?
  {
    if Nullish(f) then Ok(Some(Null))
    else if f.value.Arr? then (if i < |f.value.elems| then Ok(Some(f.value.elems[i])) else Ok(None))
    else Err("$arrayElemAt's first argument must be an array")
  }

  /** `n_park_nbr`: `parkNumber`, else the first category. */
  function ParkField(l: Location): (r: Result<Field>)
    ensures !Nullish(l.parkNumber) ==> r == Ok(l.parkNumber)
  {
    if Nullish(l.parkNumber) then ElemAt(l.category, 0) else Ok(l.parkNumber)
  }

  /** The fields `$project` emits. */
  datatype Out =
    | JournalId | Timestamp | EndDateTime | Duration | UserName | UserEmail
    | PlaceName | City | State | Zip | LocCountry | Address | Place
    | Lati | Long | ParkNumber | Activity | Notes

  /** The name of an emitted field, which becomes a column name of the frame. */
  function OutName(c: Out): string {
    match c
    case JournalId => "journal_id"
    case Timestamp => "Timestamp"
    case EndDateTime => "End Date Time"
    case Duration => "n_Duration"
    case UserName => "User Name"
    case UserEmail => "User email"
    case PlaceName => "n_Name"
    case City => "City"
    case State => "State"
    case Zip => "Zip"
    case LocCountry => "LocCountry"
    case Address => "Address"
    case Place => "n_Place"
    case Lati => "n_Lati"
    case Long => "n_Long"
    case ParkNumber => "n_park_nbr"
    case Activity => "n_activity"
    case Notes => "n_notes"
  }

  /** The emitted field a column name stands for, if any. */
  function NameToOut(k: string): (r: Option<Out>)
    ensures r.Some? ==> OutName(r.value) == k
  {
    match k
    case "journal_id" => Some(JournalId)
    case "Timestamp" => Some(Timestamp)
    case "End Date Time" => Some(EndDateTime)
    case "n_Duration" => Some(Duration)
    case "User Name" => Some(UserName)
    case "User email" => Some(UserEmail)
    case "n_Name" => Some(PlaceName)
    case "City" => Some(City)
    case "State" => Some(State)
    case "Zip" => Some(Zip)
    case "LocCountry" => Some(LocCountry)
    case "Address" => Some(Address)
    case "n_Place" => Some(Place)
    case "n_Lati" => Some(Lati)
    case "n_Long" => Some(Long)
    case "n_park_nbr" => Some(ParkNumber)
    case "n_activity" => Some(Activity)
    case "n_notes" => Some(Notes)
    case _ => None
  }

  /** The emitted fields in the order `$project` lists them. */
  const PROJECT_OUTS: seq<Out> := [
    JournalId, Timestamp, EndDateTime, Duration, UserName, UserEmail,
    PlaceName, City, State, Zip, LocCountry, Address, Place,
    Lati, Long, ParkNumber, Activity, Notes
  ]

  /** The value `$project` computes for field `c` of a journal; `None` leaves the field out. */
  function ProjectedField(j: Journal, c: Out): Field {
    var l := Loc(j);
    var u := UserOf(j);
    match c
    case JournalId => Some(Str(Hex(j.id)))
    case Timestamp => j.startTime
    case EndDateTime => j.endTime
    case Duration => if j.duration.Ok? then j.duration.value else None
    case UserName => OrEmpty(u.name)
    case UserEmail => OrEmpty(u.email)
    case PlaceName => OrEmpty(l.name)
    case City => OrEmpty(l.city)
    case State => StateField(l)
    case Zip => OrEmpty(l.zip)
    case LocCountry => OrEmpty(l.country)
    case Address => OrEmpty(l.address)
    case Place => if PlaceField(l).Ok? then Some(Str(PlaceField(l).value)) else None
    case Lati => LatitudeField(l)
    case Long => LongitudeField(l)
    case ParkNumber => if ParkField(l).Ok? then ParkField(l).value else None
    case Activity => OrEmpty(j.activity)
    case Notes => OrEmpty(j.notes)
  }

  /** The fields that `$ifNull` or `$concat` always fill. */
  predicate AlwaysPresent(c: Out) {
    !(c.Timestamp? || c.EndDateTime? || c.Duration? || c.Lati? || c.Long? || c.ParkNumber?)
  }

  /** A projected document: the emitted fields and their values. */
  type Doc = map<Out, Value>

  /** The document `$project` produces for one journal, or the error that aborts the aggregation. */
  function ProjectDoc(j: Journal): (r: Result<Doc>)
    ensures r.Err? <==> j.duration.Err? || PlaceField(Loc(j)).Err? || ParkField(Loc(j)).Err?
    ensures r.Ok? ==> forall c :: c in r.value <==> ProjectedField(j, c).Some?
  {
    var l := Loc(j);
    if j.duration.Err? then Err(j.duration.msg)
    else if PlaceField(l).Err? then Err(PlaceField(l).msg)
    else if ParkField(l).Err? then Err(ParkField(l).msg)
    else Ok(map c | c in PROJECT_OUTS && ProjectedField(j, c).Some? :: ProjectedField(j, c).value)
  }

  /** In a projected document the `$ifNull` and `$concat` fields are present and not null. */
  lemma ProjectDocFilled(j: Journal)
    requires ProjectDoc(j).Ok?
    ensures forall c | AlwaysPresent(c) :: c in ProjectDoc(j).value && ProjectDoc(j).value[c] != Null
  {
    forall c | AlwaysPresent(c)
      ensures c in ProjectDoc(j).value && ProjectDoc(j).value[c] != Null
    {
      Listed(c);
      Filled(j, c);
    }
  }

  /**
   * Every field of a projected document holds what `$project` computes: in particular
   * `journal_id` is the id in lowercase hexadecimal and `n_Place` the concatenation.
   */
  lemma ProjectDocValues(j: Journal)
    requires ProjectDoc(j).Ok?
    ensures forall c | c in ProjectDoc(j).value :: ProjectDoc(j).value[c] == ProjectedField(j, c).value
    ensures ProjectDoc(j).value[JournalId] == Str(Hex(j.id))
    ensures ProjectDoc(j).value[Place] == Str(PlaceField(Loc(j)).value)
  {
    Listed(JournalId);
    Listed(Place);
  }

  /** An `$ifNull` or `$concat` field is computed and not null, once the concatenation succeeds. */
  lemma Filled(j: Journal, c: Out)
    requires AlwaysPresent(c) && PlaceField(Loc(j)).Ok?
    ensures ProjectedField(j, c).Some? && ProjectedField(j, c).value != Null
  {
    match c
    case JournalId =>
    case UserName =>
    case UserEmail =>
    case PlaceName =>
    case City =>
    case State =>
    case Zip =>
    case LocCountry =>
    case Address =>
    case Place =>
    case Activity =>
    case Notes =>
  }

  /** `$project` lists every field. */
  lemma Listed(c: Out)
    ensures c in PROJECT_OUTS
  {
    match c
    case JournalId => assert PROJECT_OUTS[0] == c;
    case Timestamp => assert PROJECT_OUTS[1] == c;
    case EndDateTime => assert PROJECT_OUTS[2] == c;
    case Duration => assert PROJECT_OUTS[3] == c;
    case UserName => assert PROJECT_OUTS[4] == c;
    case UserEmail => assert PROJECT_OUTS[5] == c;
    case PlaceName => assert PROJECT_OUTS[6] == c;
    case City => assert PROJECT_OUTS[7] == c;
    case State => assert PROJECT_OUTS[8] == c;
    case Zip => assert PROJECT_OUTS[9] == c;
    case LocCountry => assert PROJECT_OUTS[10] == c;
    case Address => assert PROJECT_OUTS[11] == c;
    case Place => assert PROJECT_OUTS[12] == c;
    case Lati => assert PROJECT_OUTS[13] == c;
    case Long => assert PROJECT_OUTS[14] == c;
    case ParkNumber => assert PROJECT_OUTS[15] == c;
    case Activity => assert PROJECT_OUTS[16] == c;
    case Notes => assert PROJECT_OUTS[17] == c;
  }

  /** Each emitted field's column name leads back to it. */
  lemma {:induction false} NameRoundTrip(c: Out)
    ensures NameToOut(OutName(c)) == Some(c)
  {
  }

  /**
   * A GeoJSON position is [longitude, latitude] (section 3.1.1 of RFC 7946): with no
   * explicit coordinate fields, index 1 becomes `n_Lati` and index 0 becomes `n_Long`.
   * A third element (the altitude) and any further ones are ignored.
   */
  lemma PositionOrder(l: Location)
    requires Nullish(l.lat) && Nullish(l.latitude) && Nullish(l.lng) && Nullish(l.longitude)
    requires l.position.Some? && l.position.value.Arr? && |l.position.value.elems| >= 2
    ensures LatitudeField(l) == Some(l.position.value.elems[1])
    ensures LongitudeField(l) == Some(l.position.value.elems[0])
  {
  }

  /**
   * A one-element position gives its element as `n_Long`; index 1 is past the end, so
   * `$arrayElemAt` yields a missing value and `n_Lati` is left out of the document.
   */
  lemma ShortPosition(l: Location)
    requires Nullish(l.lat) && Nullish(l.latitude) && Nullish(l.lng) && Nullish(l.longitude)
    requires l.position.Some? && l.position.value.Arr? && |l.position.value.elems| == 1
    ensures LatitudeField(l) == None
    ensures LongitudeField(l) == Some(l.position.value.elems[0])
  {
  }

  /** The position is used only when it is an array; otherwise a location without explicit fields has null coordinates. */
  lemma PositionOnlyWhenArray(l: Location)
    requires Nullish(l.lat) && Nullish(l.latitude) && Nullish(l.lng) && Nullish(l.longitude)
    requires l.position.None? || !l.position.value.Arr?
    ensures LatitudeField(l) == Some(Null) && LongitudeField(l) == Some(Null)
  {
  }

  /** An explicit `lat`/`latitude` (`lng`/`longitude`) takes precedence over the position. */
  lemma ExplicitCoordinatesWin(l: Location)
    ensures !Nullish(l.lat) ==> LatitudeField(l) == l.lat
    ensures Nullish(l.lat) && !Nullish(l.latitude) ==> LatitudeField(l) == l.latitude
    ensures !Nullish(l.lng) ==> LongitudeField(l) == l.lng
    ensures Nullish(l.lng) && !Nullish(l.longitude) ==> LongitudeField(l) == l.longitude
  {
  }

  /** Without a park number, the first category stands in; an empty category list leaves the field out. */
  lemma ParkFallback(l: Location)
    requires Nullish(l.parkNumber)
    ensures l.category.Some? && l.category.value.Arr? && |l.category.value.elems| > 0 ==>
              ParkField(l) == Ok(Some(l.category.value.elems[0]))
    ensures l.category == Some(Arr([])) ==> ParkField(l) == Ok(None)
    ensures Nullish(l.category) ==> ParkField(l) == Ok(Some(Null))
  {
  }

  /** A journal whose location did not join gets the place ",  ". */
  lemma NoLocationPlace(j: Journal)
    requires j.loc.None?
    ensures PlaceField(Loc(j)) == Ok(",  ")
  {
    assert "" + ", " + "" + " " + "" == ",  ";
  }
}
