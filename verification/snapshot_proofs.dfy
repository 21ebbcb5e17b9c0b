/**
 * What the snapshot reader makes of the writer's text: skipped and
 * defaulted records, and the round trip, which holds when no string value
 * contains a double quote or a closing brace.
 */
module SnapshotProofs {
  import opened Wrappers
  import opened Decimal
  import opened JavaText
  import opened Vehicles
  import opened Snapshot

  // ---------------------------------------------------------------------
  // What the decoder does with a record's map
  // ---------------------------------------------------------------------

  /** A record without a type, with an unparsable year or with an unknown type is skipped. */
  lemma DecodeSkips(m: map<string, string>, dt: DoubleText, missingId: string)
    ensures "type" !in m ==> DecodeRecord(m, dt, missingId).None?
    ensures ParseInt(GetOrDefault(m, "year", "0")).None? ==> DecodeRecord(m, dt, missingId).None?
    ensures "type" in m && Lower(m["type"]) !in {"car", "bike", "truck", "motorcycle"} ==>
              DecodeRecord(m, dt, missingId).None?
  {
  }

  /** "0" reads as the int 0. */
  lemma ParseIntDefaults()
    ensures ParseInt("0") == Some(0) && ParseInt("4") == Some(4) && ParseInt("500") == Some(500)
  {
    assert ParseInt("0") == Some(0) by { assert DigitsValue("0") == 0; }
    assert ParseInt("4") == Some(4) by { assert DigitsValue("4") == 4; }
    assert ParseInt("500") == Some(500) by {
      assert "500"[..2] == "50" && "50"[..1] == "5";
      assert DigitsValue("500") == 500;
    }
  }

  /** "false" is not "true" in any letter case. */
  lemma ParseBoolFalse()
    ensures !ParseBool("false")
  {
    assert Lower("false")[0] == 'f';
  }

  /**
   * A record that names only its type gets the documented defaults:
   * year 0, four doors and petrol for a car, no sidecar and "Cruiser" for a
   * bike, payload "0" and no trailer for a truck, 500 cc and "Sports" for a
   * motorcycle; brand and model stay null.
   */
  lemma DecodeDefaults(dt: DoubleText, missingId: string, payload0: real)
    requires dt.parse("0") == Some(payload0)
    ensures DecodeRecord(map["type" := "car"], dt, missingId) ==
              Some(Car(missingId, None, None, 0, 4, Some("Petrol")))
    ensures DecodeRecord(map["type" := "bike"], dt, missingId) ==
              Some(Bike(missingId, None, None, 0, false, Some("Cruiser")))
    ensures DecodeRecord(map["type" := "truck"], dt, missingId) ==
              Some(Truck(missingId, None, None, 0, payload0, false))
    ensures DecodeRecord(map["type" := "motorcycle"], dt, missingId) ==
              Some(Motorcycle(missingId, None, None, 0, 500, Some("Sports")))
  {
    ParseIntDefaults();
    ParseBoolFalse();
    DefaultCar(dt, missingId);
    DefaultBike(dt, missingId);
    DefaultTruck(dt, missingId, payload0);
    DefaultMotorcycle(dt, missingId);
  }

  lemma DefaultCar(dt: DoubleText, missingId: string)
    requires ParseInt("0") == Some(0) && ParseInt("4") == Some(4)
    ensures DecodeRecord(map["type" := "car"], dt, missingId) ==
              Some(Car(missingId, None, None, 0, 4, Some("Petrol")))
  {
    assert Lower("car") == "car";
  }

  lemma DefaultBike(dt: DoubleText, missingId: string)
    requires ParseInt("0") == Some(0) && !ParseBool("false")
    ensures DecodeRecord(map["type" := "bike"], dt, missingId) ==
              Some(Bike(missingId, None, None, 0, false, Some("Cruiser")))
  {
    assert Lower("bike") == "bike";
  }

  lemma DefaultTruck(dt: DoubleText, missingId: string, payload0: real)
    requires ParseInt("0") == Some(0) && !ParseBool("false") && dt.parse("0") == Some(payload0)
    ensures DecodeRecord(map["type" := "truck"], dt, missingId) ==
              Some(Truck(missingId, None, None, 0, payload0, false))
  {
    assert Lower("truck") == "truck";
  }

  lemma DefaultMotorcycle(dt: DoubleText, missingId: string)
    requires ParseInt("0") == Some(0) && ParseInt("500") == Some(500)
    ensures DecodeRecord(map["type" := "motorcycle"], dt, missingId) ==
              Some(Motorcycle(missingId, None, None, 0, 500, Some("Sports")))
  {
    assert Lower("motorcycle") == "motorcycle";
  }

  // ---------------------------------------------------------------------
  // The pair splitter on text whose quotes are balanced
  // ---------------------------------------------------------------------

  /** The inQuotes flag after scanning p from state q. */
  function QuoteState(p: string, q: bool): bool
    decreases |p|
  {
    if p == [] then q else QuoteState(p[1..], if p[0] == '"' then !q else q)
  }

  /** Scanning p from state q meets no comma outside quotes. */
  predicate NoBareComma(p: string, q: bool)
    decreases |p|
  {
    p == [] ||
    (var q' := if p[0] == '"' then !q else q;
     !(p[0] == ',' && !q') && NoBareComma(p[1..], q'))
  }

  /** A chunk that the splitter appends whole to the current pair. */
  lemma {:induction false} SplitChunk(p: string, s: string, q: bool, cur: string, pairs: seq<string>)
    requires NoBareComma(p, q)
    ensures SplitPairs(p + s, q, cur, pairs) == SplitPairs(s, QuoteState(p, q), cur + p, pairs)
    decreases |p|
  {
    if p == [] {
      assert p + s == s && cur + p == cur;
    } else {
      var q' := if p[0] == '"' then !q else q;
      assert (p + s)[0] == p[0] && (p + s)[1..] == p[1..] + s;
      SplitChunk(p[1..], s, q', cur + [p[0]], pairs);
      assert cur + [p[0]] + p[1..] == cur + p;
    }
  }

  /** Scanning a concatenation scans the parts in turn. */
  lemma {:induction false} ScanConcat(a: string, b: string, q: bool)
    ensures QuoteState(a + b, q) == QuoteState(b, QuoteState(a, q))
    ensures NoBareComma(a + b, q) <==> NoBareComma(a, q) && NoBareComma(b, QuoteState(a, q))
    decreases |a|
  {
    if a == [] {
      assert a + b == b;
    } else {
      assert (a + b)[0] == a[0] && (a + b)[1..] == a[1..] + b;
      ScanConcat(a[1..], b, if a[0] == '"' then !q else q);
    }
  }

  predicate NoChar(s: string, c: char) {
    forall i :: 0 <= i < |s| ==> s[i] != c
  }

  /** Text without double quotes keeps the state, and meets no bare comma inside quotes or when comma-free. */
  lemma {:induction false} ScanQuoteFree(t: string, q: bool)
    requires NoChar(t, '"')
    requires q || NoChar(t, ',')
    ensures QuoteState(t, q) == q && NoBareComma(t, q)
    decreases |t|
  {
    if t != [] {
      ScanQuoteFree(t[1..], q);
    }
  }

  /** Text the splitter returns as one whole pair. */
  predicate Balanced(p: string) {
    NoBareComma(p, false) && !QuoteState(p, false)
  }

  function Quote(x: string): string {
    "\"" + x + "\""
  }

  /** A quoted text without inner quotes is balanced. */
  lemma QuotedBalanced(x: string)
    requires NoChar(x, '"')
    ensures Balanced(Quote(x))
  {
    ScanQuoteFree(x, true);
    ScanConcat("\"", x, false);
    ScanConcat("\"" + x, "\"", false);
  }

  /** Joining balanced, non-empty pairs with commas and splitting again gives them back. */
  lemma {:induction false} SplitJoin(fs: seq<string>, pairs: seq<string>)
    requires |fs| > 0
    requires forall i :: 0 <= i < |fs| ==> Balanced(fs[i]) && fs[i] != []
    ensures SplitPairs(Join(fs, ","), false, [], pairs) == pairs + fs
    decreases |fs|
  {
    if |fs| == 1 {
      SplitChunk(fs[0], [], false, [], pairs);
      assert fs[0] + [] == fs[0] && [] + fs[0] == fs[0];
    } else {
      var rest := Join(fs[1..], ",");
      assert Join(fs, ",") == fs[0] + ("," + rest);
      SplitChunk(fs[0], "," + rest, false, [], pairs);
      assert [] + fs[0] == fs[0];
      assert ("," + rest)[0] == ',' && ("," + rest)[1..] == rest;
      SplitJoin(fs[1..], pairs + [fs[0]]);
      assert pairs + [fs[0]] + fs[1..] == pairs + fs;
    }
  }

  // ---------------------------------------------------------------------
  // One pair
  // ---------------------------------------------------------------------

  /** A key as the writer spells them: lower-case letters only. */
  predicate KeyOk(k: string) {
    forall i :: 0 <= i < |k| ==> 'a' <= k[i] <= 'z'
  }

  /** A string the snapshot carries unchanged: no double quote and no closing brace. */
  predicate SafeText(s: string) {
    NoChar(s, '"') && NoChar(s, '}')
  }

  /** A value the reader gives back unchanged. */
  predicate Readable(fv: FieldValue) {
    match fv
    case Escaped(t) => t.Some? && SafeText(t.value)
    case Verbatim(s) => SafeText(s)
    case Bare(t) => PlainToken(t)
  }

  /** The string a readable value comes back as. */
  function Decoded(fv: FieldValue): string
    requires Readable(fv)
  {
    match fv
    case Escaped(t) => t.value
    case Verbatim(s) => s
    case Bare(t) => t
  }

  /** Splitting at the first colon of a + ":" + b, where a has none. */
  lemma SplitOnceAt(a: string, b: string)
    requires NoChar(a, ':')
    ensures SplitOnce(a + ":" + b, ':') == Some((a, b))
  {
    var s := a + ":" + b;
    assert s[|a|] == ':';
    FindFirst(s, ':');
    assert Find(s, ':') == |a| by {
      assert forall k :: 0 <= k < |a| ==> s[k] == a[k];
    }
    assert s[..|a|] == a;
    assert s[|a| + 1..] == b;
  }

  /** A quoted text is its own trim. */
  lemma QuoteTrimmed(x: string)
    ensures Trim(Quote(x)) == Quote(x)
  {
    var q := Quote(x);
    assert q[0] == '"' && q[|q| - 1] == '"';
    TrimOfVisible(q);
  }

  /** Removing the quotes of a quoted text without inner quotes gives the text. */
  lemma Unquote(x: string)
    requires NoChar(x, '"')
    ensures RemoveQuotes(Quote(x)) == x
  {
    RemoveQuotesAppend("\"", x);
    RemoveQuotesAppend("\"" + x, "\"");
    RemoveQuotesNone(x);
  }

  /** A plain token is its own trim. */
  lemma PlainTokenTrimmed(t: string)
    requires PlainToken(t)
    ensures Trim(t) == t
  {
    TrimOfVisible(t);
  }

  /** The reader's entry for a pair split into a quoted key and a value text. */
  lemma EntryOfSplit(p: string, k: string, value: string, decoded: string)
    requires SplitOnce(p, ':') == Some((Quote(k), value))
    requires RemoveQuotes(Trim(Quote(k))) == k
    requires var val := Trim(value); decoded == if |val| > 0 && val[0] == '"' then RemoveQuotes(val) else val
    ensures Entry(p) == Some((k, decoded))
  {
  }

  /** The reader's entry for a quoted key and a quoted value. */
  lemma EntryQuoted(k: string, x: string)
    requires KeyOk(k) && NoChar(x, '"')
    ensures Entry(Quote(k) + ":" + Quote(x)) == Some((k, x))
  {
    SplitOnceAt(Quote(k), Quote(x));
    QuoteTrimmed(k);
    Unquote(k);
    QuoteTrimmed(x);
    Unquote(x);
    assert Quote(x)[0] == '"';
    EntryOfSplit(Quote(k) + ":" + Quote(x), k, Quote(x), x);
  }

  /** Removing the quotes of any quoted text removes its inner quotes too. */
  lemma UnquoteAny(x: string)
    ensures RemoveQuotes(Quote(x)) == RemoveQuotes(x)
  {
    RemoveQuotesAppend("\"", x);
    RemoveQuotesAppend("\"" + x, "\"");
    assert RemoveQuotes("\"") == [];
  }

  /**
   * The lossy case: a text field holding a double quote is written with
   * the quote escaped, and the reader strips every quote, so the value read
   * back differs from the value written (the backslash stays).
   */
  lemma QuoteInTextLost(k: string, s: string)
    requires KeyOk(k) && !NoChar(s, '"')
    ensures FieldText(k, Escaped(Some(s))).Some?
    ensures Entry(FieldText(k, Escaped(Some(s))).value) == Some((k, RemoveQuotes(Escape(s))))
    ensures RemoveQuotes(Escape(s)) != s
  {
    var e := Escape(s);
    assert FieldText(k, Escaped(Some(s))).value == Quote(k) + ":" + Quote(e);
    SplitOnceAt(Quote(k), Quote(e));
    QuoteTrimmed(k);
    Unquote(k);
    QuoteTrimmed(e);
    UnquoteAny(e);
    assert Quote(e)[0] == '"';
    EntryOfSplit(Quote(k) + ":" + Quote(e), k, Quote(e), RemoveQuotes(e));
  }

  /** The reader's entry for a quoted key and a bare token. */
  lemma EntryBare(k: string, t: string)
    requires KeyOk(k) && PlainToken(t)
    ensures Entry(Quote(k) + ":" + t) == Some((k, t))
  {
    SplitOnceAt(Quote(k), t);
    QuoteTrimmed(k);
    Unquote(k);
    PlainTokenTrimmed(t);
    assert |t| > 0 ==> t[0] != '"';
    EntryOfSplit(Quote(k) + ":" + t, k, t, t);
  }

  /** A key and a balanced, brace-free value make a balanced, brace-free pair. */
  lemma PairBalanced(k: string, value: string)
    requires KeyOk(k) && Balanced(value) && NoChar(value, '}')
    ensures var t := Quote(k) + ":" + value; Balanced(t) && t != [] && NoChar(t, '}')
  {
    QuotedBalanced(k);
    ScanQuoteFree(":", false);
    ScanConcat(Quote(k), ":", false);
    ScanConcat(Quote(k) + ":", value, false);
  }

  /** A quoted value without quotes or braces is balanced and brace-free. */
  lemma QuotedSafe(x: string)
    requires SafeText(x)
    ensures Balanced(Quote(x)) && NoChar(Quote(x), '}')
  {
    QuotedBalanced(x);
  }

  /** The text of a readable value after its key. */
  function ValueText(fv: FieldValue): string
    requires Readable(fv)
  {
    match fv
    case Escaped(t) => Quote(t.value)
    case Verbatim(s) => Quote(s)
    case Bare(t) => t
  }

  /** A readable value's text is balanced, brace-free and read back as the value. */
  lemma ValueTextOk(k: string, fv: FieldValue)
    requires KeyOk(k) && Readable(fv)
    ensures Balanced(ValueText(fv)) && NoChar(ValueText(fv), '}')
    ensures Entry(Quote(k) + ":" + ValueText(fv)) == Some((k, Decoded(fv)))
  {
    match fv {
      case Escaped(x) =>
        QuotedSafe(x.value);
        EntryQuoted(k, x.value);
      case Verbatim(x) =>
        QuotedSafe(x);
        EntryQuoted(k, x);
      case Bare(tok) =>
        ScanQuoteFree(tok, false);
        EntryBare(k, tok);
    }
  }

  /** A readable value's pair is written as the quoted key, a colon and the value's text. */
  lemma FieldTextShape(k: string, fv: FieldValue)
    requires Readable(fv)
    ensures FieldText(k, fv) == Some(Quote(k) + ":" + ValueText(fv))
  {
    match fv {
      case Escaped(x) =>
        EscapeNone(x.value);
        assert "\"" + k + "\":\"" + x.value + "\"" == Quote(k) + ":" + Quote(x.value);
      case Verbatim(x) =>
        assert "\"" + k + "\":\"" + x + "\"" == Quote(k) + ":" + Quote(x);
      case Bare(tok) =>
        assert "\"" + k + "\":" + tok == Quote(k) + ":" + tok;
    }
  }

  /** A pair's text: present, kept whole by the splitter, brace-free, and read back as the key and the value. */
  lemma FieldRoundTrip(k: string, fv: FieldValue)
    requires KeyOk(k) && Readable(fv)
    ensures FieldText(k, fv).Some?
    ensures var t := FieldText(k, fv).value;
            Balanced(t) && t != [] && NoChar(t, '}') && Entry(t) == Some((k, Decoded(fv)))
  {
    FieldTextShape(k, fv);
    ValueTextOk(k, fv);
    PairBalanced(k, ValueText(fv));
  }

  // ---------------------------------------------------------------------
  // The map of a record
  // ---------------------------------------------------------------------

  /** Putting pairs whose keys differ from k leaves k's entry alone. */
  lemma {:induction false} CollectKeeps(ps: seq<string>, m: map<string, string>, k: string)
    requires k in m
    requires forall j :: 0 <= j < |ps| ==> Entry(ps[j]).None? || Entry(ps[j]).value.0 != k
    ensures k in Collect(ps, m) && Collect(ps, m)[k] == m[k]
    decreases |ps|
  {
    if ps != [] {
      var m' := match Entry(ps[0]) case None => m case Some((k0, v0)) => m[k0 := v0];
      CollectKeeps(ps[1..], m', k);
    }
  }

  /** The last pair with a key decides its value: HashMap.put overwrites. */
  lemma CollectLastWins(ps: seq<string>, m: map<string, string>, k: string, v: string)
    requires |ps| > 0 && Entry(ps[|ps| - 1]) == Some((k, v))
    ensures k in Collect(ps, m) && Collect(ps, m)[k] == v
  {
    CollectSnoc(ps[..|ps| - 1], ps[|ps| - 1], m);
    assert ps[..|ps| - 1] + [ps[|ps| - 1]] == ps;
  }

  lemma {:induction false} CollectSnoc(ps: seq<string>, p: string, m: map<string, string>)
    ensures Collect(ps + [p], m) ==
              match Entry(p) case None => Collect(ps, m) case Some((k, v)) => Collect(ps, m)[k := v]
    decreases |ps|
  {
    if ps == [] {
      assert [] + [p] == [p] && [p][1..] == [];
    } else {
      assert (ps + [p])[0] == ps[0] && (ps + [p])[1..] == ps[1..] + [p];
      var m' := match Entry(ps[0]) case None => m case Some((k0, v0)) => m[k0 := v0];
      CollectSnoc(ps[1..], p, m');
    }
  }

  /** Pairs with pairwise different keys all end up in the map. */
  lemma {:induction false} CollectDistinct(ps: seq<string>, es: seq<(string, string)>, m: map<string, string>)
    requires |ps| == |es|
    requires forall i :: 0 <= i < |ps| ==> Entry(ps[i]) == Some(es[i])
    requires forall i, j :: 0 <= i < j < |es| ==> es[i].0 != es[j].0
    ensures forall i :: 0 <= i < |es| ==> es[i].0 in Collect(ps, m) && Collect(ps, m)[es[i].0] == es[i].1
    decreases |ps|
  {
    if ps != [] {
      var m' := m[es[0].0 := es[0].1];
      CollectDistinct(ps[1..], es[1..], m');
      CollectKeeps(ps[1..], m', es[0].0);
      forall i | 1 <= i < |es|
        ensures es[i].0 in Collect(ps, m) && Collect(ps, m)[es[i].0] == es[i].1
      {
        assert es[1..][i - 1] == es[i];
      }
    }
  }

  // ---------------------------------------------------------------------
  // One record
  // ---------------------------------------------------------------------

  /**
   * A vehicle the snapshot can carry: every text field present and free of
   * double quotes and closing braces, and a truck's payload printed as a
   * plain token that parses back to the payload.
   */
  predicate Storable(v: Vehicle, dt: DoubleText) {
    && SafeText(v.id)
    && v.brand.Some? && SafeText(v.brand.value)
    && v.model.Some? && SafeText(v.model.value)
    && (v.Car? ==> v.fuelType.Some? && SafeText(v.fuelType.value))
    && (v.Bike? || v.Motorcycle? ==> v.category.Some? && SafeText(v.category.value))
    && (v.Truck? ==> PlainToken(dt.show(v.payloadKg)) && dt.parse(dt.show(v.payloadKg)) == Some(v.payloadKg))
  }

  lemma TypeNameSafe(v: Vehicle)
    ensures SafeText(TypeName(v))
  {
  }

  /** The keys of a record, in order: lower-case words, all different. */
  lemma FieldKeys(v: Vehicle, dt: DoubleText)
    ensures forall i :: 0 <= i < 7 ==> KeyOk(Fields(v, dt)[i].0)
    ensures forall i, j :: 0 <= i < j < 7 ==> Fields(v, dt)[i].0 != Fields(v, dt)[j].0
  {
    var fs := Fields(v, dt);
    var last := match v
      case Car(_, _, _, _, _, _) => ["doors", "fuel"]
      case Bike(_, _, _, _, _, _) => ["sidecar", "category"]
      case Truck(_, _, _, _, _, _) => ["payload", "trailer"]
      case Motorcycle(_, _, _, _, _, _) => ["cc", "category"];
    var ks := ["id", "type", "brand", "model", "year"] + last;
    forall i | 0 <= i < 7 ensures fs[i].0 == ks[i] {
    }
    DistinctKeys(last);
  }

  /** The seven keys of a record of some variant: lower-case words, all different. */
  lemma DistinctKeys(last: seq<string>)
    requires last == ["doors", "fuel"] || last == ["sidecar", "category"] ||
             last == ["payload", "trailer"] || last == ["cc", "category"]
    ensures var ks := ["id", "type", "brand", "model", "year"] + last;
            (forall i :: 0 <= i < 7 ==> KeyOk(ks[i])) &&
            (forall i, j :: 0 <= i < j < 7 ==> ks[i] != ks[j])
  {
    var ks := ["id", "type", "brand", "model", "year"] + last;
    KeysOk();
    // Length and first letter tell the keys apart.
    var sig := seq(7, i requires 0 <= i < 7 => (|ks[i]|, ks[i][0]));
    forall i, j | 0 <= i < j < 7 ensures ks[i] != ks[j] {
      assert sig[i] != sig[j];
    }
  }

  lemma KeysOk()
    ensures KeyOk("id") && KeyOk("type") && KeyOk("brand") && KeyOk("model") && KeyOk("year")
    ensures KeyOk("doors") && KeyOk("fuel") && KeyOk("sidecar") && KeyOk("category")
    ensures KeyOk("payload") && KeyOk("trailer") && KeyOk("cc")
  {
  }

  /** Every value of a storable vehicle's record is readable. */
  lemma FieldValues(v: Vehicle, dt: DoubleText)
    requires Storable(v, dt)
    ensures forall i :: 0 <= i < 7 ==> Readable(Fields(v, dt)[i].1)
  {
    TypeNameSafe(v);
  }

  /** The record's body has no closing brace, and reading it gives the vehicle back. */
  lemma RecordRoundTrip(v: Vehicle, dt: DoubleText, missingId: string)
    requires Storable(v, dt)
    ensures RecordBody(v, dt).Some?
    ensures NoChar(RecordBody(v, dt).value, '}')
    ensures ReadObject(RecordBody(v, dt).value, dt, missingId) == Some(v)
  {
    var fs := Fields(v, dt);
    FieldKeys(v, dt);
    FieldValues(v, dt);
    forall i | 0 <= i < 7 ensures fs[i].1 != Escaped(None) {
      assert Readable(fs[i].1);
    }
    var ts := FieldTexts(fs).value;
    forall i | 0 <= i < 7
      ensures Balanced(ts[i]) && ts[i] != [] && NoChar(ts[i], '}')
      ensures Entry(ts[i]) == Some((fs[i].0, Decoded(fs[i].1)))
    {
      FieldRoundTrip(fs[i].0, fs[i].1);
    }
    var body := Join(ts, ",");
    JoinNoChar(ts, ",", '}');
    SplitJoin(ts, []);
    assert Pairs(body) == ts;
    var es := seq(7, i requires 0 <= i < 7 => (fs[i].0, Decoded(fs[i].1)));
    CollectDistinct(ts, es, map[]);
    var m := Collect(ts, map[]);
    DecodeOfFields(v, dt, missingId, m);
  }

  /** Join keeps out a character that no part and not the separator contains. */
  lemma {:induction false} JoinNoChar(parts: seq<string>, sep: string, c: char)
    requires NoChar(sep, c)
    requires forall i :: 0 <= i < |parts| ==> NoChar(parts[i], c)
    ensures NoChar(Join(parts, sep), c)
    decreases |parts|
  {
    if |parts| > 1 {
      JoinNoChar(parts[1..], sep, c);
    }
  }

  /** The map holds the five fields every record starts with, as written for v. */
  predicate CommonFields(m: map<string, string>, v: Vehicle) {
    && "id" in m && m["id"] == v.id
    && "type" in m && m["type"] == TypeName(v)
    && "brand" in m && v.brand == Some(m["brand"])
    && "model" in m && v.model == Some(m["model"])
    && "year" in m && m["year"] == IntToString(v.year)
  }

  lemma DecodeCar(v: Vehicle, dt: DoubleText, missingId: string, m: map<string, string>)
    requires v.Car? && CommonFields(m, v)
    requires "doors" in m && m["doors"] == IntToString(v.numDoors)
    requires "fuel" in m && v.fuelType == Some(m["fuel"])
    ensures DecodeRecord(m, dt, missingId) == Some(v)
  {
    ParseIntOfIntToString(v.year);
    ParseIntOfIntToString(v.numDoors);
    assert Lower("Car") == "car";
  }

  lemma DecodeBike(v: Vehicle, dt: DoubleText, missingId: string, m: map<string, string>)
    requires v.Bike? && CommonFields(m, v)
    requires "sidecar" in m && m["sidecar"] == BoolText(v.hasSidecar)
    requires "category" in m && v.category == Some(m["category"])
    ensures DecodeRecord(m, dt, missingId) == Some(v)
  {
    ParseIntOfIntToString(v.year);
    ParseBoolFalse();
    assert Lower("Bike") == "bike" && Lower("true") == "true";
  }

  lemma DecodeTruck(v: Vehicle, dt: DoubleText, missingId: string, m: map<string, string>)
    requires v.Truck? && CommonFields(m, v) && dt.parse(dt.show(v.payloadKg)) == Some(v.payloadKg)
    requires "payload" in m && m["payload"] == dt.show(v.payloadKg)
    requires "trailer" in m && m["trailer"] == BoolText(v.hasTrailer)
    ensures DecodeRecord(m, dt, missingId) == Some(v)
  {
    ParseIntOfIntToString(v.year);
    ParseBoolFalse();
    assert Lower("Truck") == "truck" && Lower("true") == "true";
  }

  lemma DecodeMotorcycle(v: Vehicle, dt: DoubleText, missingId: string, m: map<string, string>)
    requires v.Motorcycle? && CommonFields(m, v)
    requires "cc" in m && m["cc"] == IntToString(v.engineCc)
    requires "category" in m && v.category == Some(m["category"])
    ensures DecodeRecord(m, dt, missingId) == Some(v)
  {
    ParseIntOfIntToString(v.year);
    ParseIntOfIntToString(v.engineCc);
    assert Lower("Motorcycle") == "motorcycle";
  }

  /** The decoder given the map of a storable vehicle's fields returns the vehicle. */
  lemma DecodeOfFields(v: Vehicle, dt: DoubleText, missingId: string, m: map<string, string>)
    requires Storable(v, dt)
    requires forall i :: 0 <= i < 7 ==> Readable(Fields(v, dt)[i].1)
    requires forall i :: 0 <= i < 7 ==>
               Fields(v, dt)[i].0 in m && m[Fields(v, dt)[i].0] == Decoded(Fields(v, dt)[i].1)
    ensures DecodeRecord(m, dt, missingId) == Some(v)
  {
    var fs := Fields(v, dt);
    assert fs[0] == ("id", Verbatim(v.id)) && fs[1] == ("type", Verbatim(TypeName(v)));
    assert fs[2] == ("brand", Escaped(v.brand)) && fs[3] == ("model", Escaped(v.model));
    assert fs[4] == ("year", Bare(IntToString(v.year)));
    assert CommonFields(m, v);
    match v {
      case Car(_, _, _, _, doors, fuel) =>
        assert fs[5] == ("doors", Bare(IntToString(doors))) && fs[6] == ("fuel", Escaped(fuel));
        DecodeCar(v, dt, missingId, m);
      case Bike(_, _, _, _, side, cat) =>
        assert fs[5] == ("sidecar", Bare(BoolText(side))) && fs[6] == ("category", Escaped(cat));
        DecodeBike(v, dt, missingId, m);
      case Truck(_, _, _, _, payload, trailer) =>
        assert fs[5] == ("payload", Bare(dt.show(payload))) && fs[6] == ("trailer", Bare(BoolText(trailer)));
        DecodeTruck(v, dt, missingId, m);
      case Motorcycle(_, _, _, _, cc, cat) =>
        assert fs[5] == ("cc", Bare(IntToString(cc))) && fs[6] == ("category", Escaped(cat));
        DecodeMotorcycle(v, dt, missingId, m);
    }
  }

  // ---------------------------------------------------------------------
  // The whole snapshot
  // ---------------------------------------------------------------------

  /**
   * One turn of the object loop seen on the rest of the text rather than
   * on a position in it: the text between the first '{' and the first '}'
   * after it, and the text after that '}'; None when either is missing.
   */
  function NextObject(s: string): (r: Option<(string, string)>)
    ensures r.Some? ==> |r.value.1| < |s|
  {
    var start := IndexOf(s, '{', 0);
    if start < 0 then None
    else
      var end := IndexOf(s, '}', start);
      if end < 0 then None
      else Some((s[start + 1..end], s[end + 1..]))
  }

  /**
   * The object loop on the rest of the text: each record NextObject finds,
   * read, and on after it. ObjectsFromSuffix shows it is the loop.
   */
  function ParseObjects(s: string, read: string -> Option<Vehicle>): seq<Vehicle>
    decreases |s|
  {
    match NextObject(s)
    case None => []
    case Some((obj, rest)) => Kept(read(obj)) + ParseObjects(rest, read)
  }

  /** Text with no opening brace holds no record. */
  lemma NoObjects(p: string, read: string -> Option<Vehicle>)
    requires NoChar(p, '{')
    ensures ParseObjects(p, read) == []
  {
    assert NextObject(p) == None by {
      IndexOfFirst(p, '{', 0);
    }
  }

  /** The reader takes the first braced record and goes on after its '}'. */
  lemma ParseObjectsStep(p: string, b: string, r: string, read: string -> Option<Vehicle>)
    requires NoChar(p, '{') && NoChar(b, '}')
    ensures ParseObjects(p + "{" + b + "}" + r, read) ==
              Kept(read(b)) + ParseObjects(r, read)
  {
    var s := p + "{" + b + "}" + r;
    assert NextObject(s) == Some((b, r)) by {
      var start := |p|;
      assert s[start] == '{';
      IndexOfFirst(s, '{', 0);
      assert IndexOf(s, '{', 0) == start by {
        assert forall k :: 0 <= k < start ==> s[k] == p[k];
      }
      var end := |p| + 1 + |b|;
      assert s[end] == '}';
      IndexOfFirst(s, '}', start);
      assert IndexOf(s, '}', start) == end by {
        assert forall k :: start < k < end ==> s[k] == b[k - start - 1];
      }
      assert s[start + 1..end] == b;
      assert s[end + 1..] == r;
    }
  }

  /** Joining parts and appending a tail, seen from the first part. */
  lemma JoinHead(rs: seq<string>, sep: string, tail: string)
    requires |rs| > 0
    ensures Join(rs, sep) + tail ==
              rs[0] + (if |rs| == 1 then tail else sep + Join(rs[1..], sep) + tail)
  {
  }

  /** A vehicle with every text field present writes a record. */
  lemma StorableWrites(vs: seq<Vehicle>, dt: DoubleText)
    requires forall i :: 0 <= i < |vs| ==> Storable(vs[i], dt)
    ensures RecordsJson(vs, dt).Some?
  {
  }

  /** The snapshot text after a prefix, split at its first record. */
  lemma RecordsTextHead(p: string, rs: seq<string>, b: string)
    requires |rs| > 0 && rs[0] == "{" + b + "}"
    ensures p + (Join(rs, ",\n") + "\n]") ==
              p + "{" + b + "}" + (if |rs| == 1 then "\n]" else ",\n" + (Join(rs[1..], ",\n") + "\n]"))
  {
    JoinHead(rs, ",\n", "\n]");
  }

  /** One record in front of text the reader turns into `tail`. */
  lemma ParseCons(s: string, p: string, b: string, r: string, v: Vehicle, tail: seq<Vehicle>,
                  read: string -> Option<Vehicle>)
    requires s == p + "{" + b + "}" + r
    requires NoChar(p, '{') && NoChar(b, '}')
    requires read(b) == Some(v) && ParseObjects(r, read) == tail
    ensures ParseObjects(s, read) == [v] + tail
  {
    ParseObjectsStep(p, b, r, read);
  }

  lemma HeadTail<T>(xs: seq<T>)
    requires |xs| > 0
    ensures [xs[0]] + xs[1..] == xs
  {
  }

  /** The record of a storable vehicle, read back. */
  lemma ReaderRoundTrip(v: Vehicle, dt: DoubleText, missingId: string)
    requires Storable(v, dt)
    ensures RecordJson(v, dt).Some?
    ensures var b := RecordBody(v, dt).value;
            RecordJson(v, dt).value == "{" + b + "}" && NoChar(b, '}') && Reader(dt, missingId)(b) == Some(v)
  {
    RecordRoundTrip(v, dt, missingId);
  }

  /** Record text r is a braced body without '}' that `read` reads as v. */
  predicate RecordReads(r: string, v: Vehicle, read: string -> Option<Vehicle>) {
    |r| >= 2 && r[0] == '{' && r[|r| - 1] == '}' &&
    NoChar(r[1..|r| - 1], '}') && read(r[1..|r| - 1]) == Some(v)
  }

  /**
   * The reader over a brace-free prefix and records joined by ",\n" and
   * closed by "\n]" gives back, in order, the vehicles the records read as.
   */
  lemma {:induction false} ParseJoined(p: string, rs: seq<string>, vs: seq<Vehicle>,
                                       read: string -> Option<Vehicle>)
    requires NoChar(p, '{') && |rs| == |vs|
    requires forall i :: 0 <= i < |rs| ==> RecordReads(rs[i], vs[i], read)
    ensures ParseObjects(p + (Join(rs, ",\n") + "\n]"), read) == vs
    decreases |rs|
  {
    if rs == [] {
      var s := p + (Join(rs, ",\n") + "\n]");
      assert NoChar(s, '{') by {
        assert s == p + "\n]";
      }
      NoObjects(s, read);
    } else {
      var b := rs[0][1..|rs[0]| - 1];
      assert rs[0] == "{" + b + "}";
      var r := if |rs| == 1 then "\n]" else ",\n" + (Join(rs[1..], ",\n") + "\n]");
      RecordsTextHead(p, rs, b);
      assert ParseObjects(r, read) == vs[1..] by {
        if |rs| == 1 {
          NoObjects("\n]", read);
        } else {
          assert forall i :: 0 <= i < |rs[1..]| ==> RecordReads(rs[1..][i], vs[1..][i], read) by {
            forall i | 0 <= i < |rs[1..]| ensures RecordReads(rs[1..][i], vs[1..][i], read) {
              assert rs[1..][i] == rs[i + 1] && vs[1..][i] == vs[i + 1];
            }
          }
          ParseJoined(",\n", rs[1..], vs[1..], read);
        }
      }
      ParseCons(p + (Join(rs, ",\n") + "\n]"), p, b, r, vs[0], vs[1..], read);
      HeadTail(vs);
    }
  }

  /** The records of storable vehicles, after a brace-free prefix, read back as the vehicles. */
  lemma ParseRecords(p: string, vs: seq<Vehicle>, dt: DoubleText, missingId: string)
    requires NoChar(p, '{')
    requires forall i :: 0 <= i < |vs| ==> Storable(vs[i], dt)
    ensures RecordsJson(vs, dt).Some?
    ensures ParseObjects(p + (Join(RecordsJson(vs, dt).value, ",\n") + "\n]"), Reader(dt, missingId)) == vs
  {
    StorableWrites(vs, dt);
    var rs := RecordsJson(vs, dt).value;
    var read := Reader(dt, missingId);
    forall i | 0 <= i < |rs| ensures RecordReads(rs[i], vs[i], read) {
      ReaderRoundTrip(vs[i], dt, missingId);
      var b := RecordBody(vs[i], dt).value;
      assert rs[i] == "{" + b + "}";
      assert rs[i][1..|rs[i]| - 1] == b;
    }
    ParseJoined(p, rs, vs, read);
  }

  /**
   * Save then load: when no string value contains a double quote or a
   * closing brace, loading the saved text gives back the same vehicles, in
   * the same order, with the same fields.
   */
  lemma SaveLoadRoundTrip(vs: seq<Vehicle>, dt: DoubleText, missingId: string)
    requires forall i :: 0 <= i < |vs| ==> Storable(vs[i], dt)
    ensures SaveText(vs, dt).Some?
    ensures LoadText(SaveText(vs, dt).value, dt, missingId) == vs
  {
    ParseRecords("[", vs, dt, missingId);
    var body := Join(RecordsJson(vs, dt).value, ",\n");
    var text := "[" + body + "\n]";
    assert text == "[" + (body + "\n]");
    ObjectsFromSuffix(text, 0, Reader(dt, missingId));
    assert text[0..] == text;
  }

  // ---------------------------------------------------------------------
  // Steps of the writer and reader loops
  // ---------------------------------------------------------------------

  /** The records of one more vehicle: the record list grows by its record. */
  lemma {:induction false} RecordsJsonSnoc(vs: seq<Vehicle>, v: Vehicle, dt: DoubleText)
    requires RecordsJson(vs, dt).Some? && RecordJson(v, dt).Some?
    ensures RecordsJson(vs + [v], dt) == Some(RecordsJson(vs, dt).value + [RecordJson(v, dt).value])
    decreases |vs|
  {
    if vs == [] {
      assert [] + [v] == [v] && [v][1..] == [];
      assert RecordsJson([v], dt) == Some([RecordJson(v, dt).value] + []);
      assert [RecordJson(v, dt).value] + [] == [] + [RecordJson(v, dt).value];
    } else {
      assert (vs + [v])[0] == vs[0] && (vs + [v])[1..] == vs[1..] + [v];
      var head, tail := RecordJson(vs[0], dt), RecordsJson(vs[1..], dt);
      assert head.Some? && tail.Some?;
      RecordsJsonSnoc(vs[1..], v, dt);
      assert [head.value] + (tail.value + [RecordJson(v, dt).value]) ==
             ([head.value] + tail.value) + [RecordJson(v, dt).value];
    }
  }

  /** The records of the first i + 1 vehicles: one more record after a separator. */
  lemma RecordsPrefixSnoc(vs: seq<Vehicle>, i: nat, dt: DoubleText, sep: string)
    requires i < |vs| && RecordsJson(vs[..i], dt).Some? && RecordJson(vs[i], dt).Some?
    ensures RecordsJson(vs[..i + 1], dt).Some?
    ensures Join(RecordsJson(vs[..i + 1], dt).value, sep) ==
              (if i == 0 then "" else Join(RecordsJson(vs[..i], dt).value, sep) + sep) +
              RecordJson(vs[i], dt).value
  {
    assert vs[..i + 1] == vs[..i] + [vs[i]];
    RecordsJsonSnoc(vs[..i], vs[i], dt);
    var rs := RecordsJson(vs[..i], dt).value;
    var r := RecordJson(vs[i], dt).value;
    if i == 0 {
      assert rs + [r] == [r];
    } else {
      JoinSnoc(rs, r, sep);
    }
  }

  /** One turn of a writer loop: the separator unless first, then the record. */
  lemma SaveStep(vs: seq<Vehicle>, i: nat, dt: DoubleText, sb: string, sep: string)
    requires i < |vs| && RecordsJson(vs[..i], dt).Some? && RecordJson(vs[i], dt).Some?
    requires sb == "[" + Join(RecordsJson(vs[..i], dt).value, sep)
    ensures RecordsJson(vs[..i + 1], dt).Some?
    ensures (if i == 0 then sb else sb + sep) + RecordJson(vs[i], dt).value ==
              "[" + Join(RecordsJson(vs[..i + 1], dt).value, sep)
  {
    RecordsPrefixSnoc(vs, i, dt, sep);
    var r := RecordJson(vs[i], dt).value;
    if i == 0 {
      assert Join(RecordsJson(vs[..i], dt).value, sep) == "";
    } else {
      assert sb + sep + r == "[" + (Join(RecordsJson(vs[..i], dt).value, sep) + sep + r);
    }
  }

  /** The writer loop's text once every vehicle is written. */
  lemma SaveEnd(vs: seq<Vehicle>, dt: DoubleText, sb: string)
    requires RecordsJson(vs[..|vs|], dt).Some?
    requires sb == "[" + Join(RecordsJson(vs[..|vs|], dt).value, ",\n")
    ensures SaveText(vs, dt) == Some(sb + "\n]")
  {
    assert vs[..|vs|] == vs;
  }

  /** A vehicle with a null text field makes the whole snapshot fail. */
  lemma NullTextFails(vs: seq<Vehicle>, i: nat, dt: DoubleText)
    requires i < |vs| && RecordJson(vs[i], dt).None?
    ensures SaveText(vs, dt).None?
  {
  }

  /** saveToJson fails exactly when some vehicle has a null text field. */
  lemma SaveFails(vs: seq<Vehicle>, dt: DoubleText)
    ensures SaveText(vs, dt).None? <==> exists i :: 0 <= i < |vs| && HasNullText(vs[i])
  {
  }

  /** The reader as a function value reads every object as ReadObject does. */
  lemma ReaderReads(dt: DoubleText, missingId: string)
    ensures ReadsObjects(Reader(dt, missingId), dt, missingId)
  {
  }

  /** IndexOf on the text from position `from` on is IndexOf on the whole text, shifted by `from`. */
  lemma {:induction false} IndexOfSuffix(s: string, c: char, from: nat, k: nat)
    requires from <= |s|
    ensures IndexOf(s[from..], c, k) == if IndexOf(s, c, from + k) < 0 then -1 else IndexOf(s, c, from + k) - from
    decreases |s| - from - k
  {
    if from + k < |s| {
      assert s[from..][k] == s[from + k];
      if s[from + k] != c {
        IndexOfSuffix(s, c, from, k + 1);
      }
    }
  }

  /** The object loop stops when no '{' follows idx. */
  lemma ParseFromNoOpen(s: string, idx: nat, read: string -> Option<Vehicle>)
    requires idx <= |s| && IndexOf(s, '{', idx) < 0
    ensures ParseObjects(s[idx..], read) == []
  {
    assert NextObject(s[idx..]) == None by {
      IndexOfSuffix(s, '{', idx, 0);
    }
  }

  /** The object loop stops when no '}' follows the '{'. */
  lemma ParseFromNoClose(s: string, idx: nat, read: string -> Option<Vehicle>)
    requires idx <= |s| && IndexOf(s, '{', idx) >= 0 && IndexOf(s, '}', IndexOf(s, '{', idx)) < 0
    ensures ParseObjects(s[idx..], read) == []
  {
    assert NextObject(s[idx..]) == None by {
      var start := IndexOf(s, '{', idx);
      IndexOfSuffix(s, '{', idx, 0);
      IndexOfSuffix(s, '}', idx, start - idx);
    }
  }

  /**
   * One turn of the object loop of loadFromJson from position idx: the
   * record between the next '{' and the '}' after it, then on from the
   * position after the '}'.
   */
  lemma ParseFrom(s: string, idx: nat, start: int, end: int, read: string -> Option<Vehicle>)
    requires idx <= |s| && start == IndexOf(s, '{', idx) && start >= 0
    requires end == IndexOf(s, '}', start) && end >= 0
    ensures ParseObjects(s[idx..], read) == Kept(read(s[start + 1..end])) + ParseObjects(s[end + 1..], read)
  {
    NextObjectFrom(s, idx, start, end);
    ParseObjectsUnfold(s[idx..], s[start + 1..end], s[end + 1..], read);
  }

  /** ParseObjects once unfolded at the record NextObject finds. */
  lemma ParseObjectsUnfold(t: string, obj: string, rest: string, read: string -> Option<Vehicle>)
    requires NextObject(t) == Some((obj, rest))
    ensures ParseObjects(t, read) == Kept(read(obj)) + ParseObjects(rest, read)
  {
  }

  /** NextObject on the text from idx on finds the braces IndexOf finds in the whole text. */
  lemma NextObjectFrom(s: string, idx: nat, start: int, end: int)
    requires idx <= |s| && start == IndexOf(s, '{', idx) && start >= 0
    requires end == IndexOf(s, '}', start) && end >= 0
    ensures NextObject(s[idx..]) == Some((s[start + 1..end], s[end + 1..]))
  {
    var t := s[idx..];
    var st, en := start - idx, end - idx;
    assert IndexOf(t, '{', 0) == st by {
      IndexOfSuffix(s, '{', idx, 0);
    }
    assert IndexOf(t, '}', st) == en by {
      IndexOfSuffix(s, '}', idx, st);
    }
    assert NextObject(t) == Some((t[st + 1..en], t[en + 1..]));
    SuffixSlices(s, idx, start, end);
  }

  /** Slices of the text from idx on are slices of the whole text, shifted by idx. */
  lemma SuffixSlices(s: string, idx: nat, start: nat, end: nat)
    requires idx <= start < end < |s|
    ensures s[idx..][start - idx + 1..end - idx] == s[start + 1..end]
    ensures s[idx..][end - idx + 1..] == s[end + 1..]
  {
  }

  /**
   * The other lossy case: the reader ends a record at the first '}' after
   * its '{', wherever that brace stands, even inside a quoted value; the
   * rest of the text is read as if it followed the record.
   */
  lemma RecordEndsAtFirstBrace(p: string, b: string, r: string, dt: DoubleText, missingId: string)
    requires NoChar(p, '{') && NoChar(b, '}')
    ensures LoadText(p + "{" + b + "}" + r, dt, missingId) ==
              Kept(ReadObject(b, dt, missingId)) +
              ParseObjects(r, Reader(dt, missingId))
  {
    var text := p + "{" + b + "}" + r;
    ObjectsFromSuffix(text, 0, Reader(dt, missingId));
    assert text[0..] == text;
    ParseObjectsStep(p, b, r, Reader(dt, missingId));
  }

  /** The object loop from position idx reads what the suffix view reads from the rest of the text. */
  lemma {:induction false} ObjectsFromSuffix(s: string, idx: nat, read: string -> Option<Vehicle>)
    requires idx <= |s|
    ensures ObjectsFrom(s, idx, read) == ParseObjects(s[idx..], read)
    decreases |s| - idx
  {
    var start := IndexOf(s, '{', idx);
    if start < 0 {
      ObjectsFromStop(s, idx, read);
      ParseFromNoOpen(s, idx, read);
    } else {
      var end := IndexOf(s, '}', start);
      if end < 0 {
        ObjectsFromStop(s, idx, read);
        ParseFromNoClose(s, idx, read);
      } else {
        ObjectsFromStep(s, idx, start, end, read);
        ObjectsFromSuffix(s, end + 1, read);
        ParseFrom(s, idx, start, end, read);
      }
    }
  }

  /** The object loop ends at a missing '{' or a '{' without a later '}'. */
  lemma ObjectsFromStop(s: string, idx: nat, read: string -> Option<Vehicle>)
    requires IndexOf(s, '{', idx) < 0 || IndexOf(s, '}', IndexOf(s, '{', idx)) < 0
    ensures ObjectsFrom(s, idx, read) == []
  {
  }

  /** One turn of the object loop: the record at the braces, then on after the '}'. */
  lemma ObjectsFromStep(s: string, idx: nat, start: int, end: int, read: string -> Option<Vehicle>)
    requires start == IndexOf(s, '{', idx) && start >= 0
    requires end == IndexOf(s, '}', start) && end >= 0
    ensures ObjectsFrom(s, idx, read) == Kept(read(s[start + 1..end])) + ObjectsFrom(s, end + 1, read)
  {
    var r := read(s[start + 1..end]);
    assert (match r case None => [] case Some(v) => [v]) == Kept(r);
  }
}
