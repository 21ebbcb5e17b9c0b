/**
 * The pure pieces of the HTTP server: which paths carry an id, the form
 * parser, the decoding of request parameters into a vehicle, the list
 * endpoint's filters and the JSON it answers with.
 */
module WebText {
  import opened Wrappers
  import opened JavaText
  import opened Decimal
  import opened Vehicles
  import opened Catalogue
  import opened Snapshot
  import SnapshotProofs

  // ---------------------------------------------------------------------
  // Paths
  // ---------------------------------------------------------------------

  const Prefix: string := "/api/vehicles/"

  /** The path segments that name an endpoint and are never an id. */
  predicate Reserved(seg: string) {
    seg == "add" || seg == "delete" || seg == "update" || seg == "saveJson" || seg == "loadJson"
  }

  /** The text after "/api/vehicles/", when the path starts with it and is longer. */
  function Segment(path: string): (r: Option<string>)
    ensures r.Some? <==> |path| > |Prefix| && path[..|Prefix|] == Prefix
    ensures r.Some? ==> path == Prefix + r.value && r.value != []
  {
    if |path| > |Prefix| && path[..|Prefix|] == Prefix then Some(path[|Prefix|..]) else None
  }

  /** The id that handleVehicles and handleUpdate read from a path: the segment unless it is reserved. */
  function PathId(path: string): (r: Option<string>)
    ensures r.Some? ==> path == Prefix + r.value && r.value != [] && !Reserved(r.value)
  {
    match Segment(path)
    case None => None
    case Some(seg) => if Reserved(seg) then None else Some(seg)
  }

  /** Below the prefix, a segment is an id exactly when it is not empty and not reserved. */
  lemma PathIdOf(seg: string)
    ensures PathId(Prefix + seg).Some? <==> seg != [] && !Reserved(seg)
    ensures PathId(Prefix + seg).Some? ==> PathId(Prefix + seg).value == seg
  {
    var path := Prefix + seg;
    assert path[..|Prefix|] == Prefix;
    assert path[|Prefix|..] == seg;
  }

  /** The id handleDelete reads from a path: any segment, unless the path is the delete endpoint itself. */
  function DeletePathId(path: string): (r: Option<string>)
    ensures r.Some? ==> path == Prefix + r.value && r.value != [] && r.value != "delete"
  {
    if path == Prefix + "delete" then None else Segment(path)
  }

  /** handleDelete refuses only "delete" as an id; the other reserved names are ids to it. */
  lemma DeletePathIdOf(seg: string)
    ensures DeletePathId(Prefix + seg).Some? <==> seg != [] && seg != "delete"
    ensures DeletePathId(Prefix + seg).Some? ==> DeletePathId(Prefix + seg).value == seg
  {
    var path := Prefix + seg;
    assert path[..|Prefix|] == Prefix;
    assert path[|Prefix|..] == seg;
    assert (Prefix + "delete")[|Prefix|..] == "delete";
  }

  // ---------------------------------------------------------------------
  // The form parser
  // ---------------------------------------------------------------------

  /**
   * One piece of a form: split on its first '=', key and value each passed
   * through the URL decoder (None where it throws); a piece without '='
   * gives its decoded key the empty value.
   */
  function Pair(p: string, decode: string -> Option<string>): (r: Option<(string, string)>)
  {
    match SplitOnce(p, '=')
    case None =>
      (match decode(p)
       case None => None
       case Some(k) => Some((k, "")))
    case Some((k, v)) =>
      (match decode(k)
       case None => None
       case Some(dk) =>
         match decode(v)
         case None => None
         case Some(dv) => Some((dk, dv)))
  }

  /** A piece without '=' maps its decoded key to the empty string. */
  lemma PairWithoutValue(p: string, decode: string -> Option<string>, k: string)
    requires forall i :: 0 <= i < |p| ==> p[i] != '='
    requires decode(p) == Some(k)
    ensures Pair(p, decode) == Some((k, ""))
  {
  }

  /** The first c in k + [c] + v is the one after k, when k holds none. */
  lemma {:induction false} FindPast(k: string, v: string, c: char)
    requires forall i :: 0 <= i < |k| ==> k[i] != c
    ensures Find(k + [c] + v, c) == |k|
    decreases |k|
  {
    var p := k + [c] + v;
    if k != [] {
      assert p[0] == k[0];
      assert p[1..] == k[1..] + [c] + v;
      FindPast(k[1..], v, c);
    }
  }

  /** A piece "k=v", with k free of '=', maps the decoded k to the decoded v. */
  lemma PairOf(k: string, v: string, decode: string -> Option<string>)
    requires forall i :: 0 <= i < |k| ==> k[i] != '='
    requires decode(k).Some? && decode(v).Some?
    ensures Pair(k + "=" + v, decode) == Some((decode(k).value, decode(v).value))
  {
    var p := k + "=" + v;
    FindPast(k, v, '=');
    assert p[..|k|] == k && p[|k| + 1..] == v;
  }

  /** The pieces put into the map in order, a later key overwriting an earlier one; None once decoding throws. */
  function PutAll(parts: seq<string>, decode: string -> Option<string>, m: map<string, string>): Option<map<string, string>>
    decreases |parts|
  {
    if parts == [] then Some(m)
    else
      match Pair(parts[0], decode)
      case None => None
      case Some(kv) => PutAll(parts[1..], decode, m[kv.0 := kv.1])
  }

  /** parse: an absent or empty form is the empty map; otherwise its '&'-separated pieces, put in order. */
  function ParseForm(raw: JStr, decode: string -> Option<string>): Option<map<string, string>> {
    if raw.None? || raw.value == [] then Some(map[]) else PutAll(JavaSplit(raw.value, '&'), decode, map[])
  }

  /** parse, as the loop over the pieces that it is. */
  method Parse(raw: JStr, decode: string -> Option<string>) returns (r: Option<map<string, string>>)
    ensures r == ParseForm(raw, decode)
  {
    var m: map<string, string> := map[];
    if raw.None? || raw.value == [] {
      return Some(m);
    }
    var parts := JavaSplit(raw.value, '&');
    var i := 0;
    assert parts[i..] == parts;
    while i < |parts|
      invariant 0 <= i <= |parts|
      invariant PutAll(parts[i..], decode, m) == ParseForm(raw, decode)
    {
      assert parts[i..][0] == parts[i] && parts[i..][1..] == parts[i + 1..];
      var kv := Pair(parts[i], decode);
      if kv.None? {
        return None;
      }
      m := m[kv.value.0 := kv.value.1];
      i := i + 1;
    }
    r := Some(m);
  }

  /** The key of a piece that decodes. */
  function KeyOf(p: string, decode: string -> Option<string>): Option<string> {
    match Pair(p, decode)
    case None => None
    case Some(kv) => Some(kv.0)
  }

  /** Putting pieces none of which has key k leaves k as it was. */
  lemma {:induction false} PutAllOthers(parts: seq<string>, decode: string -> Option<string>, m: map<string, string>, k: string)
    requires PutAll(parts, decode, m).Some?
    requires forall j :: 0 <= j < |parts| ==> KeyOf(parts[j], decode) != Some(k)
    ensures k in PutAll(parts, decode, m).value <==> k in m
    ensures k in m ==> PutAll(parts, decode, m).value[k] == m[k]
    decreases |parts|
  {
    if parts != [] {
      var kv := Pair(parts[0], decode).value;
      assert KeyOf(parts[0], decode) == Some(kv.0);
      forall j | 0 <= j < |parts[1..]|
        ensures KeyOf(parts[1..][j], decode) != Some(k)
      {
        assert parts[1..][j] == parts[j + 1];
      }
      PutAllOthers(parts[1..], decode, m[kv.0 := kv.1], k);
    }
  }

  /** Putting a sequence of pieces is putting its front and then its back. */
  lemma {:induction false} PutAllAppend(a: seq<string>, b: seq<string>, decode: string -> Option<string>, m: map<string, string>)
    ensures PutAll(a + b, decode, m) ==
              match PutAll(a, decode, m)
              case None => None
              case Some(m1) => PutAll(b, decode, m1)
    decreases |a|
  {
    if a == [] {
      assert a + b == b;
    } else {
      assert (a + b)[0] == a[0] && (a + b)[1..] == a[1..] + b;
      match Pair(a[0], decode)
      case None =>
      case Some(kv) => PutAllAppend(a[1..], b, decode, m[kv.0 := kv.1]);
    }
  }

  /**
   * Later pieces win: a key takes the value of the last piece that has it.
   */
  lemma LaterWins(parts: seq<string>, decode: string -> Option<string>, m: map<string, string>, i: nat)
    requires PutAll(parts, decode, m).Some?
    requires i < |parts| && Pair(parts[i], decode).Some?
    requires forall j :: i < j < |parts| ==> KeyOf(parts[j], decode) != KeyOf(parts[i], decode)
    ensures var kv := Pair(parts[i], decode).value;
            kv.0 in PutAll(parts, decode, m).value && PutAll(parts, decode, m).value[kv.0] == kv.1
  {
    var kv := Pair(parts[i], decode).value;
    var front, back := parts[..i + 1], parts[i + 1..];
    assert PutAll(front, decode, m).Some? && PutAll(parts, decode, m) == PutAll(back, decode, PutAll(front, decode, m).value) by {
      assert parts == front + back;
      PutAllAppend(front, back, decode, m);
    }
    var m1 := PutAll(front, decode, m).value;
    assert kv.0 in m1 && m1[kv.0] == kv.1 by {
      assert front == parts[..i] + [parts[i]];
      PutAllAppend(parts[..i], [parts[i]], decode, m);
      assert [parts[i]][1..] == [];
    }
    forall j | 0 <= j < |back|
      ensures KeyOf(back[j], decode) != Some(kv.0)
    {
      assert back[j] == parts[i + 1 + j];
    }
    PutAllOthers(back, decode, m1, kv.0);
  }

  /** A piece free of c, then c: that piece comes first. */
  lemma PiecesCons(k: string, v: string, c: char)
    requires forall i :: 0 <= i < |k| ==> k[i] != c
    ensures Pieces(k + [c] + v, c) == [k] + Pieces(v, c)
  {
    FindPast(k, v, c);
    var s := k + [c] + v;
    assert s[..|k|] == k && s[|k| + 1..] == v;
  }

  /** A text free of c is one piece. */
  lemma PiecesWhole(s: string, c: char)
    requires forall i :: 0 <= i < |s| ==> s[i] != c
    ensures Pieces(s, c) == [s]
  {
    FindSplits(s, c);
  }

  /** Three pieces free of '&', the last not empty, joined by '&', split back into those pieces. */
  lemma SplitThree(a: string, b: string, d: string)
    requires forall i :: 0 <= i < |a| ==> a[i] != '&'
    requires forall i :: 0 <= i < |b| ==> b[i] != '&'
    requires forall i :: 0 <= i < |d| ==> d[i] != '&'
    requires d != ""
    ensures JavaSplit(a + "&" + b + "&" + d, '&') == [a, b, d]
  {
    var bd := b + ['&'] + d;
    var s := a + ['&'] + bd;
    assert a + "&" + b + "&" + d == s;
    var parts := [a, b, d];
    assert Pieces(s, '&') == parts by {
      PiecesWhole(d, '&');
      PiecesCons(b, d, '&');
      PiecesCons(a, bd, '&');
    }
    assert Find(s, '&') >= 0 by {
      FindPast(a, bd, '&');
    }
    assert DropTrailingEmpty(parts) == parts by {
      assert parts[2] != "";
    }
  }

  /** A URL decoder that returns its input, for the example below. */
  function AsIs(s: string): Option<string> {
    Some(s)
  }

  /** The three pieces of the example, one by one. */
  lemma PairsExample()
    ensures Pair("a=1", AsIs) == Some(("a", "1")) && Pair("b", AsIs) == Some(("b", "")) && Pair("a=2", AsIs) == Some(("a", "2"))
  {
    assert "a" + "=" + "1" == "a=1" && "a" + "=" + "2" == "a=2";
    PairOf("a", "1", AsIs);
    PairOf("a", "2", AsIs);
    PairWithoutValue("b", AsIs, "b");
  }

  /** Putting the three pieces of the example, one by one. */
  lemma PutExample()
    ensures PutAll(["a=1", "b", "a=2"], AsIs, map[]) == Some(map["a" := "1"]["b" := ""]["a" := "2"])
  {
    PairsExample();
    var parts := ["a=1", "b", "a=2"];
    assert parts[1..] == ["b", "a=2"] && parts[1..][1..] == ["a=2"] && parts[1..][1..][1..] == [];
    var m1, m2, m3 := map["a" := "1"], map["a" := "1"]["b" := ""], map["a" := "1"]["b" := ""]["a" := "2"];
    assert PutAll([], AsIs, m3) == Some(m3);
    assert PutAll(["a=2"], AsIs, m2) == Some(m3);
    assert PutAll(["b", "a=2"], AsIs, m1) == Some(m3);
  }

  lemma MapExample()
    ensures map["a" := "1"]["b" := ""]["a" := "2"] == map["a" := "2", "b" := ""]
  {
    assert "a" != "b" by { assert "a"[0] != "b"[0]; }
  }

  /** parse("a=1&b&a=2"), with a decoder that changes nothing: the later "a" wins and "b" maps to "". */
  lemma ParseExample()
    ensures ParseForm(Some("a=1&b&a=2"), AsIs) == Some(map["a" := "2", "b" := ""])
  {
    var raw := "a=1&b&a=2";
    assert raw == "a=1" + "&" + "b" + "&" + "a=2";
    SplitThree("a=1", "b", "a=2");
    PutExample();
    assert raw[0] == 'a';
    assert ParseForm(Some(raw), AsIs) == PutAll(["a=1", "b", "a=2"], AsIs, map[]);
    MapExample();
  }

  // ---------------------------------------------------------------------
  // Request parameters to a vehicle
  // ---------------------------------------------------------------------

  /** The lower-cased type names decodeVehicleFromParams knows. */
  predicate KnownType(t: string) {
    t == "car" || t == "bike" || t == "truck" || t == "motorcycle"
  }

  /**
   * The switch of decodeVehicleFromParams, once the shared fields are
   * decoded: the variant of type t with its own parameters or their
   * defaults; Err with the text a number parser refused; Ok(None) for an
   * unknown type.
   */
  function DecodeVariant(t: string, params: map<string, string>, vid: string, brand: JStr, model: JStr, year: Int32, dt: DoubleText)
    : (r: Result<Option<Vehicle>, string>)
    ensures r == Ok(None) <==> !KnownType(t)
    ensures r.Ok? && r.value.Some? ==>
              var v := r.value.value;
              Lower(TypeName(v)) == t && v.id == vid && v.brand == brand && v.model == model && v.year == year
  {
    assert Lower("Car") == "car" && Lower("Bike") == "bike" && Lower("Truck") == "truck" && Lower("Motorcycle") == "motorcycle";
    if t == "car" then
      var doorsText := GetOrDefault(params, "doors", "4");
      match ParseInt(doorsText)
      case None => Err(doorsText)
      case Some(doors) => Ok(Some(Car(vid, brand, model, year, doors, Some(GetOrDefault(params, "fuel", "Petrol")))))
    else if t == "bike" then
      Ok(Some(Bike(vid, brand, model, year, ParseBool(GetOrDefault(params, "sidecar", "false")),
                   Some(GetOrDefault(params, "category", "Cruiser")))))
    else if t == "truck" then
      var payloadText := GetOrDefault(params, "payload", "0");
      match dt.parse(payloadText)
      case None => Err(payloadText)
      case Some(payload) => Ok(Some(Truck(vid, brand, model, year, payload, ParseBool(GetOrDefault(params, "trailer", "false")))))
    else if t == "motorcycle" then
      var ccText := GetOrDefault(params, "cc", "500");
      match ParseInt(ccText)
      case None => Err(ccText)
      case Some(cc) => Ok(Some(Motorcycle(vid, brand, model, year, cc, Some(GetOrDefault(params, "category", "Sports")))))
    else Ok(None)
  }

  /**
   * decodeVehicleFromParams: brand and model default to "", the year is
   * parsed first (default "0"), then the type picks the variant. Err carries
   * the text a number parser refused (NumberFormatException); Ok(None) is
   * the null of an unknown type. Without an id the vehicle gets `freshId`.
   */
  function DecodeParams(t: string, params: map<string, string>, id: Option<string>, freshId: string, dt: DoubleText)
    : (r: Result<Option<Vehicle>, string>)
    ensures ParseInt(GetOrDefault(params, "year", "0")).None? ==> r == Err(GetOrDefault(params, "year", "0"))
    ensures r == Ok(None) <==> ParseInt(GetOrDefault(params, "year", "0")).Some? && !KnownType(t)
    ensures r.Ok? && r.value.Some? ==>
              var v := r.value.value;
              Lower(TypeName(v)) == t &&
              v.id == (if id.Some? then id.value else freshId) &&
              v.brand == Some(GetOrDefault(params, "brand", "")) &&
              v.model == Some(GetOrDefault(params, "model", "")) &&
              ParseInt(GetOrDefault(params, "year", "0")) == Some(v.year)
  {
    var vid := if id.Some? then id.value else freshId;
    var yearText := GetOrDefault(params, "year", "0");
    match ParseInt(yearText)
    case None => Err(yearText)
    case Some(year) =>
      DecodeVariant(t, params, vid, Some(GetOrDefault(params, "brand", "")), Some(GetOrDefault(params, "model", "")), year, dt)
  }

  /** With no parameters at all, each known type decodes to its defaults. */
  lemma DecodeDefaults(id: Option<string>, freshId: string, dt: DoubleText, payload0: real)
    requires dt.parse("0") == Some(payload0)
    ensures var vid := if id.Some? then id.value else freshId;
            DecodeParams("car", map[], id, freshId, dt) == Ok(Some(Car(vid, Some(""), Some(""), 0, 4, Some("Petrol")))) &&
            DecodeParams("bike", map[], id, freshId, dt) == Ok(Some(Bike(vid, Some(""), Some(""), 0, false, Some("Cruiser")))) &&
            DecodeParams("truck", map[], id, freshId, dt) == Ok(Some(Truck(vid, Some(""), Some(""), 0, payload0, false))) &&
            DecodeParams("motorcycle", map[], id, freshId, dt) == Ok(Some(Motorcycle(vid, Some(""), Some(""), 0, 500, Some("Sports"))))
  {
    SnapshotProofs.ParseIntDefaults();
    SnapshotProofs.ParseBoolFalse();
  }

  /**
   * Decoding with an id and decoding without one agree but for the id: a
   * request that decodes without an id decodes with it too. This is why the
   * replace fallback of handleUpdate is never taken.
   */
  lemma DecodeWithId(t: string, params: map<string, string>, id: string, freshId: string, dt: DoubleText)
    ensures DecodeParams(t, params, Some(id), freshId, dt) ==
              match DecodeParams(t, params, None, freshId, dt)
              case Ok(Some(v)) => Ok(Some(v.(id := id)))
              case other => other
  {
  }

  // ---------------------------------------------------------------------
  // The list endpoint's filters
  // ---------------------------------------------------------------------

  /** The brand filter of the list endpoint: the whole brand, ignoring case. */
  function BrandIsExactly(b: string): Vehicle -> bool {
    (v: Vehicle) => v.brand.Some? && EqualsIgnoreCase(v.brand.value, b)
  }

  /** The type filter of the list endpoint: the variant name, ignoring case. */
  function TypeIs(t: string): Vehicle -> bool {
    (v: Vehicle) => EqualsIgnoreCase(TypeName(v), t)
  }

  /** A filter parameter that is present and not empty. */
  predicate Given(q: JStr) {
    q.Some? && q.value != []
  }

  /**
   * The list endpoint: a given brand keeps the vehicles with exactly that
   * brand, then a given type keeps that variant, in order. None when a brand
   * is given and some vehicle has none (getBrand() is dereferenced).
   */
  function ListFilter(vs: seq<Vehicle>, brand: JStr, vtype: JStr): (r: Option<seq<Vehicle>>)
    ensures r.None? <==> Given(brand) && exists i :: 0 <= i < |vs| && vs[i].brand.None?
    ensures r.Some? ==> |r.value| <= |vs|
  {
    if Given(brand) && exists i :: 0 <= i < |vs| && vs[i].brand.None? then None
    else
      var byBrand := if Given(brand) then Where(vs, BrandIsExactly(brand.value)) else vs;
      Some(if Given(vtype) then Where(byBrand, TypeIs(vtype.value)) else byBrand)
  }

  /** The list endpoint keeps exactly the vehicles that pass every given filter. */
  lemma ListFilterMembers(vs: seq<Vehicle>, brand: JStr, vtype: JStr)
    requires ListFilter(vs, brand, vtype).Some?
    ensures forall v :: v in ListFilter(vs, brand, vtype).value <==>
              v in vs && (!Given(brand) || BrandIsExactly(brand.value)(v)) && (!Given(vtype) || TypeIs(vtype.value)(v))
    ensures !Given(brand) && !Given(vtype) ==> ListFilter(vs, brand, vtype).value == vs
  {
    var byBrand := if Given(brand) then Where(vs, BrandIsExactly(brand.value)) else vs;
    if Given(brand) {
      WhereMembers(vs, BrandIsExactly(brand.value));
    }
    if Given(vtype) {
      WhereMembers(byBrand, TypeIs(vtype.value));
    }
  }

  /** The type filter keeps exactly one variant: "truck" keeps the trucks, whatever their letter case. */
  lemma TypeIsVariant(v: Vehicle, w: Vehicle)
    ensures TypeIs(TypeName(w))(v) <==> TypeName(v) == TypeName(w)
  {
    TypeNameDetermines(v, w);
  }

  /**
   * Unlike getVehiclesByBrand, the list endpoint does not match a part of
   * the brand: on the brand-filter test catalogue "harley" selects nothing,
   * where getVehiclesByBrand selects both Harley spellings.
   */
  lemma ListBrandIsWhole(id1: string, id2: string, id3: string)
    ensures var vs := BrandTestCatalogue(id1, id2, id3);
            ListFilter(vs, Some("harley"), None) == Some([]) &&
            BrandFilter(vs, Some("harley")) == [vs[0], vs[2]]
  {
    var vs := BrandTestCatalogue(id1, id2, id3);
    BrandFilterHarley(id1, id2, id3);
    var p := BrandIsExactly("harley");
    assert !p(vs[0]) && !p(vs[1]) && !p(vs[2]) by {
      assert |Lower("harley")| == 6;
      assert |Lower("Harley-Davidson")| == 15 && |Lower("Honda")| == 5 && |Lower("Harley Davidson")| == 15;
    }
    WhereOfThree(vs[0], vs[1], vs[2], p);
    assert vs == [vs[0], vs[1], vs[2]];
  }

  // ---------------------------------------------------------------------
  // JSON output
  // ---------------------------------------------------------------------

  /** The opening fields every record shares, appended as vehicleToJson appends them. */
  function RecordHead(id: string, t: string, brand: string, model: string, year: Int32): string {
    "{" + "\"id\":\"" + id + "\"" + ",\"type\":\"" + t + "\"" + ",\"brand\":\"" + Escape(brand) + "\"" +
    ",\"model\":\"" + Escape(model) + "\"" + ",\"year\":" + IntToString(year)
  }

  /**
   * vehicleToJson: the shared fields, then the variant's own, text fields
   * escaped. None when a text field is null (escape throws).
   */
  function VehicleToJson(v: Vehicle, dt: DoubleText): (r: Option<string>)
    ensures r.None? <==> HasNullText(v)
  {
    match v
    case Car(id, Some(b), Some(m), y, doors, Some(fuel)) =>
      Some(RecordHead(id, "Car", b, m, y) + ",\"doors\":" + IntToString(doors) + ",\"fuel\":\"" + Escape(fuel) + "\"" + "}")
    case Bike(id, Some(b), Some(m), y, side, Some(cat)) =>
      Some(RecordHead(id, "Bike", b, m, y) + ",\"sidecar\":" + BoolText(side) + ",\"category\":\"" + Escape(cat) + "\"" + "}")
    case Truck(id, Some(b), Some(m), y, payload, trailer) =>
      Some(RecordHead(id, "Truck", b, m, y) + ",\"payload\":" + dt.show(payload) + ",\"trailer\":" + BoolText(trailer) + "}")
    case Motorcycle(id, Some(b), Some(m), y, cc, Some(cat)) =>
      Some(RecordHead(id, "Motorcycle", b, m, y) + ",\"cc\":" + IntToString(cc) + ",\"category\":\"" + Escape(cat) + "\"" + "}")
    case _ => None
  }

  /** The JSON array the list endpoint answers with: "[", the records separated by commas, "]". */
  function ListJson(vs: seq<Vehicle>, dt: DoubleText): (r: Option<string>)
    ensures vs == [] ==> r == Some("[]")
    ensures r.None? <==> exists i :: 0 <= i < |vs| && HasNullText(vs[i])
  {
    match RecordsJson(vs, dt)
    case None => None
    case Some(rs) =>
      assert "[" + Join([], ",") + "]" == "[]";
      Some("[" + Join(rs, ",") + "]")
  }

  /** A record of seven fields joined by sep. */
  lemma Join7(ts: seq<string>, sep: string)
    requires |ts| == 7
    ensures Join(ts, sep) == ts[0] + sep + ts[1] + sep + ts[2] + sep + ts[3] + sep + ts[4] + sep + ts[5] + sep + ts[6]
  {
    var j6 := Join(ts[6..], sep);
    assert j6 == ts[6] by { assert ts[6..] == [ts[6]]; }
    var j5 := Join(ts[5..], sep);
    assert j5 == ts[5] + sep + j6 by { assert ts[5..] == [ts[5]] + ts[6..]; JoinCons(ts[5], ts[6..], sep); }
    var j4 := Join(ts[4..], sep);
    assert j4 == ts[4] + sep + j5 by { assert ts[4..] == [ts[4]] + ts[5..]; JoinCons(ts[4], ts[5..], sep); }
    var j3 := Join(ts[3..], sep);
    assert j3 == ts[3] + sep + j4 by { assert ts[3..] == [ts[3]] + ts[4..]; JoinCons(ts[3], ts[4..], sep); }
    var j2 := Join(ts[2..], sep);
    assert j2 == ts[2] + sep + j3 by { assert ts[2..] == [ts[2]] + ts[3..]; JoinCons(ts[2], ts[3..], sep); }
    var j1 := Join(ts[1..], sep);
    assert j1 == ts[1] + sep + j2 by { assert ts[1..] == [ts[1]] + ts[2..]; JoinCons(ts[1], ts[2..], sep); }
    assert Join(ts, sep) == ts[0] + sep + j1 by { assert ts == [ts[0]] + ts[1..]; JoinCons(ts[0], ts[1..], sep); }
  }

  /** The first pair after the opening brace. */
  lemma OpenField(key: string, x: string, t: string)
    requires t == "\"" + key + "\":\"" + x + "\""
    ensures "{" + ("\"" + key + "\":\"") + x + "\"" == "{" + t
  {
  }

  /** Appending `,"key":"x"` after the brace and the pairs so far appends the pair `"key":"x"`. */
  lemma AppendQuoted(j: string, p: string, key: string, x: string, t: string)
    requires j == "{" + p
    requires t == "\"" + key + "\":\"" + x + "\""
    ensures j + (",\"" + key + "\":\"") + x + "\"" == "{" + (p + "," + t)
  {
  }

  /** Appending `,"key":x` after the brace and the pairs so far appends the pair `"key":x`. */
  lemma AppendBare(j: string, p: string, key: string, x: string, t: string)
    requires j == "{" + p
    requires t == "\"" + key + "\":" + x
    ensures j + (",\"" + key + "\":") + x == "{" + (p + "," + t)
  {
  }

  /** The literals vehicleToJson appends, each split around its key. */
  lemma KeyLiterals()
    ensures "\"id\":\"" == "\"" + "id" + "\":\""
    ensures ",\"type\":\"" == ",\"" + "type" + "\":\""
    ensures ",\"brand\":\"" == ",\"" + "brand" + "\":\""
    ensures ",\"model\":\"" == ",\"" + "model" + "\":\""
    ensures ",\"year\":" == ",\"" + "year" + "\":"
    ensures ",\"doors\":" == ",\"" + "doors" + "\":"
    ensures ",\"fuel\":\"" == ",\"" + "fuel" + "\":\""
    ensures ",\"sidecar\":" == ",\"" + "sidecar" + "\":"
    ensures ",\"category\":\"" == ",\"" + "category" + "\":\""
    ensures ",\"payload\":" == ",\"" + "payload" + "\":"
    ensures ",\"trailer\":" == ",\"" + "trailer" + "\":"
    ensures ",\"cc\":" == ",\"" + "cc" + "\":"
  {
  }

  /** The pairs of a record that has no null text field. */
  function PairTexts(v: Vehicle, dt: DoubleText): (ts: seq<string>)
    requires !HasNullText(v)
    ensures |ts| == 7 && Join(ts, ",") == ts[0] + "," + ts[1] + "," + ts[2] + "," + ts[3] + "," + ts[4] + "," + ts[5] + "," + ts[6]
    ensures RecordJson(v, dt) == Some("{" + Join(ts, ",") + "}")
    ensures forall i :: 0 <= i < 7 ==> FieldText(Fields(v, dt)[i].0, Fields(v, dt)[i].1) == Some(ts[i])
  {
    var ts := FieldTexts(Fields(v, dt)).value;
    Join7(ts, ",");
    ts
  }

  /** The shared opening of vehicleToJson is the brace and the first five pairs. */
  lemma HeadIsPairs(v: Vehicle, dt: DoubleText)
    requires !HasNullText(v)
    ensures var ts := PairTexts(v, dt);
            RecordHead(v.id, TypeName(v), v.brand.value, v.model.value, v.year) ==
              "{" + (ts[0] + "," + ts[1] + "," + ts[2] + "," + ts[3] + "," + ts[4])
  {
    var ts := PairTexts(v, dt);
    var fs := Fields(v, dt);
    KeyLiterals();
    var j0 := "{" + "\"id\":\"" + v.id + "\"";
    assert j0 == "{" + ts[0] by {
      assert FieldText(fs[0].0, fs[0].1) == Some(ts[0]);
      OpenField("id", v.id, ts[0]);
    }
    var j1 := j0 + ",\"type\":\"" + TypeName(v) + "\"";
    var p1 := ts[0] + "," + ts[1];
    assert j1 == "{" + p1 by {
      assert FieldText(fs[1].0, fs[1].1) == Some(ts[1]);
      AppendQuoted(j0, ts[0], "type", TypeName(v), ts[1]);
    }
    var j2 := j1 + ",\"brand\":\"" + Escape(v.brand.value) + "\"";
    var p2 := p1 + "," + ts[2];
    assert j2 == "{" + p2 by {
      assert FieldText(fs[2].0, fs[2].1) == Some(ts[2]);
      AppendQuoted(j1, p1, "brand", Escape(v.brand.value), ts[2]);
    }
    var j3 := j2 + ",\"model\":\"" + Escape(v.model.value) + "\"";
    var p3 := p2 + "," + ts[3];
    assert j3 == "{" + p3 by {
      assert FieldText(fs[3].0, fs[3].1) == Some(ts[3]);
      AppendQuoted(j2, p2, "model", Escape(v.model.value), ts[3]);
    }
    assert j3 + ",\"year\":" + IntToString(v.year) == "{" + (p3 + "," + ts[4]) by {
      assert FieldText(fs[4].0, fs[4].1) == Some(ts[4]);
      AppendBare(j3, p3, "year", IntToString(v.year), ts[4]);
    }
  }

  /** The record of a car, as both writers write it. */
  lemma CarIsRecord(v: Vehicle, dt: DoubleText)
    requires v.Car? && !HasNullText(v)
    ensures VehicleToJson(v, dt) == RecordJson(v, dt)
  {
    var ts, fs := PairTexts(v, dt), Fields(v, dt);
    HeadIsPairs(v, dt);
    KeyLiterals();
    var j4 := RecordHead(v.id, TypeName(v), v.brand.value, v.model.value, v.year);
    var p4 := ts[0] + "," + ts[1] + "," + ts[2] + "," + ts[3] + "," + ts[4];
    var j5 := j4 + ",\"doors\":" + IntToString(v.numDoors);
    assert j5 == "{" + (p4 + "," + ts[5]) by {
      assert FieldText(fs[5].0, fs[5].1) == Some(ts[5]);
      AppendBare(j4, p4, "doors", IntToString(v.numDoors), ts[5]);
    }
    assert j5 + ",\"fuel\":\"" + Escape(v.fuelType.value) + "\"" == "{" + (p4 + "," + ts[5] + "," + ts[6]) by {
      assert FieldText(fs[6].0, fs[6].1) == Some(ts[6]);
      AppendQuoted(j5, p4 + "," + ts[5], "fuel", Escape(v.fuelType.value), ts[6]);
    }
  }

  /** The record of a bike, as both writers write it. */
  lemma BikeIsRecord(v: Vehicle, dt: DoubleText)
    requires v.Bike? && !HasNullText(v)
    ensures VehicleToJson(v, dt) == RecordJson(v, dt)
  {
    var ts, fs := PairTexts(v, dt), Fields(v, dt);
    HeadIsPairs(v, dt);
    KeyLiterals();
    var j4 := RecordHead(v.id, TypeName(v), v.brand.value, v.model.value, v.year);
    var p4 := ts[0] + "," + ts[1] + "," + ts[2] + "," + ts[3] + "," + ts[4];
    var j5 := j4 + ",\"sidecar\":" + BoolText(v.hasSidecar);
    assert j5 == "{" + (p4 + "," + ts[5]) by {
      assert FieldText(fs[5].0, fs[5].1) == Some(ts[5]);
      AppendBare(j4, p4, "sidecar", BoolText(v.hasSidecar), ts[5]);
    }
    assert j5 + ",\"category\":\"" + Escape(v.category.value) + "\"" == "{" + (p4 + "," + ts[5] + "," + ts[6]) by {
      assert FieldText(fs[6].0, fs[6].1) == Some(ts[6]);
      AppendQuoted(j5, p4 + "," + ts[5], "category", Escape(v.category.value), ts[6]);
    }
  }

  /** The record of a truck, as both writers write it. */
  lemma TruckIsRecord(v: Vehicle, dt: DoubleText)
    requires v.Truck? && !HasNullText(v)
    ensures VehicleToJson(v, dt) == RecordJson(v, dt)
  {
    var ts, fs := PairTexts(v, dt), Fields(v, dt);
    HeadIsPairs(v, dt);
    KeyLiterals();
    var j4 := RecordHead(v.id, TypeName(v), v.brand.value, v.model.value, v.year);
    var p4 := ts[0] + "," + ts[1] + "," + ts[2] + "," + ts[3] + "," + ts[4];
    var j5 := j4 + ",\"payload\":" + dt.show(v.payloadKg);
    assert j5 == "{" + (p4 + "," + ts[5]) by {
      assert FieldText(fs[5].0, fs[5].1) == Some(ts[5]);
      AppendBare(j4, p4, "payload", dt.show(v.payloadKg), ts[5]);
    }
    assert j5 + ",\"trailer\":" + BoolText(v.hasTrailer) == "{" + (p4 + "," + ts[5] + "," + ts[6]) by {
      assert FieldText(fs[6].0, fs[6].1) == Some(ts[6]);
      AppendBare(j5, p4 + "," + ts[5], "trailer", BoolText(v.hasTrailer), ts[6]);
    }
  }

  /** The record of a motorcycle, as both writers write it. */
  lemma MotorcycleIsRecord(v: Vehicle, dt: DoubleText)
    requires v.Motorcycle? && !HasNullText(v)
    ensures VehicleToJson(v, dt) == RecordJson(v, dt)
  {
    var ts, fs := PairTexts(v, dt), Fields(v, dt);
    HeadIsPairs(v, dt);
    KeyLiterals();
    var j4 := RecordHead(v.id, TypeName(v), v.brand.value, v.model.value, v.year);
    var p4 := ts[0] + "," + ts[1] + "," + ts[2] + "," + ts[3] + "," + ts[4];
    var j5 := j4 + ",\"cc\":" + IntToString(v.engineCc);
    assert j5 == "{" + (p4 + "," + ts[5]) by {
      assert FieldText(fs[5].0, fs[5].1) == Some(ts[5]);
      AppendBare(j4, p4, "cc", IntToString(v.engineCc), ts[5]);
    }
    assert j5 + ",\"category\":\"" + Escape(v.category.value) + "\"" == "{" + (p4 + "," + ts[5] + "," + ts[6]) by {
      assert FieldText(fs[6].0, fs[6].1) == Some(ts[6]);
      AppendQuoted(j5, p4 + "," + ts[5], "category", Escape(v.category.value), ts[6]);
    }
  }

  /**
   * The server writes a vehicle exactly as the snapshot writer does: the
   * same pairs in the same order, and a failure for the same vehicles.
   */
  lemma VehicleToJsonIsRecord(v: Vehicle, dt: DoubleText)
    ensures VehicleToJson(v, dt) == RecordJson(v, dt)
  {
    if !HasNullText(v) {
      match v
      case Car(_, _, _, _, _, _) => CarIsRecord(v, dt);
      case Bike(_, _, _, _, _, _) => BikeIsRecord(v, dt);
      case Truck(_, _, _, _, _, _) => TruckIsRecord(v, dt);
      case Motorcycle(_, _, _, _, _, _) => MotorcycleIsRecord(v, dt);
    }
  }

  /** toJson, as the loop over the list that it is. None when vehicleToJson throws. */
  method ToJson(vs: seq<Vehicle>, dt: DoubleText) returns (r: Option<string>)
    ensures r == ListJson(vs, dt)
  {
    var sb := "[";
    var first := true;
    var i := 0;
    while i < |vs|
      invariant 0 <= i <= |vs|
      invariant first <==> i == 0
      invariant RecordsJson(vs[..i], dt).Some?
      invariant sb == "[" + Join(RecordsJson(vs[..i], dt).value, ",")
    {
      var rec := VehicleToJson(vs[i], dt);
      VehicleToJsonIsRecord(vs[i], dt);
      if rec.None? {
        return None;
      }
      SnapshotProofs.SaveStep(vs, i, dt, sb, ",");
      if !first {
        sb := sb + ",";
      }
      first := false;
      sb := sb + rec.value;
      i := i + 1;
    }
    assert vs[..i] == vs;
    r := Some(sb + "]");
  }
}
