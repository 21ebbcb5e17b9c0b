/**
 * The catalogue's hand-written JSON-like snapshot format: the text
 * saveToJson writes and the character-level reader of loadFromJson, with
 * the file step removed. The same record text is what the web server
 * sends for a vehicle.
 */
module Snapshot {
  import opened Wrappers
  import opened Decimal
  import opened JavaText
  import opened Vehicles

  // ---------------------------------------------------------------------
  // Writer
  // ---------------------------------------------------------------------

  /** How a value is written after its key. */
  datatype FieldValue =
    | Escaped(text: JStr)  // a text field passed through escape, inside quotes
    | Verbatim(raw: string) // id and type: inside quotes, not escaped
    | Bare(token: string)  // a number or a boolean, without quotes

  /** String.valueOf(boolean). */
  function BoolText(b: bool): string {
    if b then "true" else "false"
  }

  /** The keys and values of a record, in the order they are written. */
  function Fields(v: Vehicle, dt: DoubleText): (r: seq<(string, FieldValue)>)
    ensures |r| == 7
  {
    [("id", Verbatim(v.id)), ("type", Verbatim(TypeName(v))), ("brand", Escaped(v.brand)),
     ("model", Escaped(v.model)), ("year", Bare(IntToString(v.year)))] +
    match v
    case Car(_, _, _, _, doors, fuel) => [("doors", Bare(IntToString(doors))), ("fuel", Escaped(fuel))]
    case Bike(_, _, _, _, side, cat) => [("sidecar", Bare(BoolText(side))), ("category", Escaped(cat))]
    case Truck(_, _, _, _, payload, trailer) => [("payload", Bare(dt.show(payload))), ("trailer", Bare(BoolText(trailer)))]
    case Motorcycle(_, _, _, _, cc, cat) => [("cc", Bare(IntToString(cc))), ("category", Escaped(cat))]
  }

  /** One "key":value pair; None when escape is handed a null string. */
  function FieldText(key: string, fv: FieldValue): (r: Option<string>)
    ensures r.None? <==> fv == Escaped(None)
  {
    match fv
    case Escaped(None) => None
    case Escaped(Some(s)) => Some("\"" + key + "\":\"" + Escape(s) + "\"")
    case Verbatim(s) => Some("\"" + key + "\":\"" + s + "\"")
    case Bare(t) => Some("\"" + key + "\":" + t)
  }

  /** All pairs of a record, or None if one of them fails. */
  function FieldTexts(fs: seq<(string, FieldValue)>): (r: Option<seq<string>>)
    ensures r.None? <==> exists i :: 0 <= i < |fs| && fs[i].1 == Escaped(None)
    ensures r.Some? ==> |r.value| == |fs|
    ensures r.Some? ==> forall i :: 0 <= i < |fs| ==> FieldText(fs[i].0, fs[i].1) == Some(r.value[i])
  {
    if fs == [] then Some([])
    else
      var head, tail := FieldText(fs[0].0, fs[0].1), FieldTexts(fs[1..]);
      if head.Some? && tail.Some? then Some([head.value] + tail.value) else None
  }

  /** A text field of v that is null, which makes escape throw. */
  predicate HasNullText(v: Vehicle) {
    v.brand.None? || v.model.None? ||
    (v.Car? && v.fuelType.None?) || ((v.Bike? || v.Motorcycle?) && v.category.None?)
  }

  /** The text between a record's braces. */
  function RecordBody(v: Vehicle, dt: DoubleText): Option<string> {
    match FieldTexts(Fields(v, dt))
    case None => None
    case Some(ts) => Some(Join(ts, ","))
  }

  /** One record, braces included: fails exactly when a text field is null. */
  function RecordJson(v: Vehicle, dt: DoubleText): (r: Option<string>)
    ensures r.None? <==> HasNullText(v)
  {
    var fs := Fields(v, dt);
    assert HasNullText(v) ==> exists i :: 0 <= i < |fs| && fs[i].1 == Escaped(None) by {
      if v.brand.None? { assert fs[2].1 == Escaped(None); }
      else if v.model.None? { assert fs[3].1 == Escaped(None); }
      else if HasNullText(v) { assert fs[6].1 == Escaped(None); }
    }
    match RecordBody(v, dt)
    case None => None
    case Some(b) => Some("{" + b + "}")
  }

  /** The records of every vehicle, or None as soon as one fails. */
  function RecordsJson(vs: seq<Vehicle>, dt: DoubleText): (r: Option<seq<string>>)
    ensures r.None? <==> exists i :: 0 <= i < |vs| && HasNullText(vs[i])
    ensures r.Some? ==> |r.value| == |vs|
    ensures r.Some? ==> forall i :: 0 <= i < |vs| ==> RecordJson(vs[i], dt) == Some(r.value[i])
  {
    if vs == [] then Some([])
    else
      var head, tail := RecordJson(vs[0], dt), RecordsJson(vs[1..], dt);
      if head.Some? && tail.Some? then Some([head.value] + tail.value)
      else
        assert tail.None? ==> exists i :: 0 <= i < |vs[1..]| && HasNullText(vs[1..][i]);
        None
  }

  /**
   * The text saveToJson writes: "[" then the records separated by a comma
   * and a line break, then a line break and "]". None when escape throws.
   */
  function SaveText(vs: seq<Vehicle>, dt: DoubleText): Option<string> {
    match RecordsJson(vs, dt)
    case None => None
    case Some(rs) => Some("[" + Join(rs, ",\n") + "\n]")
  }

  // ---------------------------------------------------------------------
  // Reader
  // ---------------------------------------------------------------------

  /**
   * The pair splitter of loadFromJson, from the current character on: a
   * double quote flips inQuotes; a comma outside quotes ends the current
   * pair; every other character is appended to it; the last pair is kept
   * only if it is not empty.
   */
  function SplitPairs(s: string, inQuotes: bool, cur: string, pairs: seq<string>): seq<string>
    decreases |s|
  {
    if s == [] then (if cur != [] then pairs + [cur] else pairs)
    else
      var q := if s[0] == '"' then !inQuotes else inQuotes;
      if s[0] == ',' && !q then SplitPairs(s[1..], q, [], pairs + [cur])
      else SplitPairs(s[1..], q, cur + [s[0]], pairs)
  }

  /** The pairs of one object's text. */
  function Pairs(obj: string): seq<string> {
    SplitPairs(obj, false, [], [])
  }

  /**
   * One pair as a key and a value: split at the first colon (a pair
   * without one is skipped); the key trimmed and stripped of quotes; the
   * value trimmed, and stripped of quotes if it starts with one.
   */
  function Entry(p: string): Option<(string, string)> {
    match SplitOnce(p, ':')
    case None => None
    case Some((k, v)) =>
      var val := Trim(v);
      Some((RemoveQuotes(Trim(k)), if |val| > 0 && val[0] == '"' then RemoveQuotes(val) else val))
  }

  /** The map of an object's pairs, put in order: a later key overwrites an earlier one. */
  function Collect(pairs: seq<string>, m: map<string, string>): map<string, string>
    decreases |pairs|
  {
    if pairs == [] then m
    else
      var m' := match Entry(pairs[0]) case None => m case Some((k, v)) => m[k := v];
      Collect(pairs[1..], m')
  }

  function Get(m: map<string, string>, k: string): JStr {
    if k in m then Some(m[k]) else None
  }

  function GetOrDefault(m: map<string, string>, k: string, d: string): string {
    if k in m then m[k] else d
  }

  /** Boolean.parseBoolean: true exactly for "true" in any letter case. */
  function ParseBool(s: string): bool {
    EqualsIgnoreCase(s, "true")
  }

  /**
   * One record from its map. The year is parsed first; then the type,
   * lower-cased, picks the variant and its defaults. None when the type is
   * missing or unknown or a number does not parse (the record is skipped).
   * A record without an id is given `missingId`.
   */
  function DecodeRecord(m: map<string, string>, dt: DoubleText, missingId: string): (r: Option<Vehicle>)
    ensures r.Some? ==> "type" in m && Lower(m["type"]) == Lower(TypeName(r.value))
    ensures r.Some? ==> ParseInt(GetOrDefault(m, "year", "0")) == Some(r.value.year)
    ensures r.Some? ==> r.value.brand == Get(m, "brand") && r.value.model == Get(m, "model")
    ensures r.Some? ==> r.value.id == if "id" in m then m["id"] else missingId
  {
    LowerTypeNames();
    var id := if "id" in m then m["id"] else missingId;
    var brand, model := Get(m, "brand"), Get(m, "model");
    match ParseInt(GetOrDefault(m, "year", "0"))
    case None => None
    case Some(year) =>
      if "type" !in m then None
      else
        var t := Lower(m["type"]);
        if t == "car" then
          match ParseInt(GetOrDefault(m, "doors", "4"))
          case None => None
          case Some(doors) => Some(Car(id, brand, model, year, doors, Some(GetOrDefault(m, "fuel", "Petrol"))))
        else if t == "bike" then
          Some(Bike(id, brand, model, year, ParseBool(GetOrDefault(m, "sidecar", "false")),
                    Some(GetOrDefault(m, "category", "Cruiser"))))
        else if t == "truck" then
          match dt.parse(GetOrDefault(m, "payload", "0"))
          case None => None
          case Some(payload) => Some(Truck(id, brand, model, year, payload, ParseBool(GetOrDefault(m, "trailer", "false"))))
        else if t == "motorcycle" then
          match ParseInt(GetOrDefault(m, "cc", "500"))
          case None => None
          case Some(cc) => Some(Motorcycle(id, brand, model, year, cc, Some(GetOrDefault(m, "category", "Sports"))))
        else None
  }

  /** The vehicle of one object's text, if it is not skipped. */
  function ReadObject(obj: string, dt: DoubleText, missingId: string): Option<Vehicle> {
    DecodeRecord(Collect(Pairs(obj), map[]), dt, missingId)
  }

  /** The reader of loadFromJson for one object's text, as a function value. */
  function Reader(dt: DoubleText, missingId: string): string -> Option<Vehicle> {
    (obj: string) => ReadObject(obj, dt, missingId)
  }

  /**
   * `read` reads every object's text as ReadObject does. The trigger keeps
   * a proof that only applies `read` from unfolding the record decoder.
   */
  ghost predicate ReadsObjects(read: string -> Option<Vehicle>, dt: DoubleText, missingId: string) {
    forall obj {:trigger ReadObject(obj, dt, missingId)} :: read(obj) == ReadObject(obj, dt, missingId)
  }

  /** The vehicle an object was read as, if any. */
  function Kept(r: Option<Vehicle>): seq<Vehicle> {
    match r
    case None => []
    case Some(v) => [v]
  }

  /**
   * The object loop of loadFromJson from position idx, with `read` reading
   * one object: the next '{' at or after idx, the next '}' after it, the
   * record between them, and on from the position after the '}'. It stops
   * at the first '{' without a later '}'.
   */
  function ObjectsFrom(s: string, idx: nat, read: string -> Option<Vehicle>): seq<Vehicle>
    decreases |s| - idx
  {
    var start := IndexOf(s, '{', idx);
    if start < 0 then []
    else
      var end := IndexOf(s, '}', start);
      if end < 0 then []
      else
        (match read(s[start + 1..end]) case None => [] case Some(v) => [v]) +
        ObjectsFrom(s, end + 1, read)
  }

  /** The vehicles loadFromJson reads from the text of the file. */
  function LoadText(s: string, dt: DoubleText, missingId: string): seq<Vehicle> {
    ObjectsFrom(s, 0, Reader(dt, missingId))
  }
}
