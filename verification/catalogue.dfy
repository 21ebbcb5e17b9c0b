/**
 * The queries of the in-memory catalogue over its ordered vehicle list:
 * removal by id, in-place update of the first match, look-up, the brand and
 * year filters and grouping by brand. These are the specifications the
 * VehicleDatabase methods are proved against.
 */
module Catalogue {
  import opened Wrappers
  import opened JavaText
  import opened Vehicles

  /** The vehicles of vs that satisfy p, in their original order (a stream filter). */
  function Where(vs: seq<Vehicle>, p: Vehicle -> bool): (r: seq<Vehicle>)
    ensures |r| <= |vs|
  {
    if vs == [] then []
    else (if p(vs[0]) then [vs[0]] else []) + Where(vs[1..], p)
  }

  /** The filter keeps exactly the vehicles that pass, and all of them when all pass. */
  lemma {:induction false} WhereMembers(vs: seq<Vehicle>, p: Vehicle -> bool)
    ensures forall v :: v in Where(vs, p) <==> v in vs && p(v)
    ensures (forall i :: 0 <= i < |vs| ==> p(vs[i])) ==> Where(vs, p) == vs
  {
    if vs != [] {
      WhereMembers(vs[1..], p);
      assert vs == [vs[0]] + vs[1..];
    }
  }

  /** Filtering a concatenation filters each part in place: the order is kept. */
  lemma {:induction false} WhereAppend(a: seq<Vehicle>, b: seq<Vehicle>, p: Vehicle -> bool)
    ensures Where(a + b, p) == Where(a, p) + Where(b, p)
  {
    if a != [] {
      var head := if p(a[0]) then [a[0]] else [];
      assert (a + b)[0] == a[0];
      assert (a + b)[1..] == a[1..] + b;
      assert Where(a + b, p) == head + Where(a[1..] + b, p);
      WhereAppend(a[1..], b, p);
      assert Where(a, p) == head + Where(a[1..], p);
    } else {
      assert a + b == b;
    }
  }

  /** Filtering drops something exactly when some vehicle fails the test. */
  lemma {:induction false} WhereShrinks(vs: seq<Vehicle>, p: Vehicle -> bool)
    ensures |Where(vs, p)| < |vs| <==> exists i :: 0 <= i < |vs| && !p(vs[i])
  {
    if vs != [] {
      WhereShrinks(vs[1..], p);
      if exists i :: 0 <= i < |vs[1..]| && !p(vs[1..][i]) {
        var i :| 0 <= i < |vs[1..]| && !p(vs[1..][i]);
        assert !p(vs[i + 1]);
      }
      if exists i :: 0 <= i < |vs| && !p(vs[i]) {
        var i :| 0 <= i < |vs| && !p(vs[i]);
        if i > 0 {
          assert !p(vs[1..][i - 1]);
        }
      }
    }
  }

  /** Two tests that agree on every vehicle of vs keep the same vehicles. */
  lemma {:induction false} WhereSameTest(vs: seq<Vehicle>, p: Vehicle -> bool, q: Vehicle -> bool)
    requires forall i :: 0 <= i < |vs| ==> p(vs[i]) == q(vs[i])
    ensures Where(vs, p) == Where(vs, q)
  {
    if vs != [] {
      WhereSameTest(vs[1..], p, q);
    }
  }

  /** The test removeIf applies: the vehicle does not carry the id. */
  function Keeps(id: string): Vehicle -> bool {
    (v: Vehicle) => v.id != id
  }

  /** removeIf(v -> v.getId().equals(id)): every vehicle with the id goes, the others stay in order. */
  function RemoveAll(vs: seq<Vehicle>, id: string): seq<Vehicle> {
    Where(vs, Keeps(id))
  }

  /** removeIf reports a change exactly when a vehicle with the id was present. */
  lemma RemoveAllReports(vs: seq<Vehicle>, id: string)
    ensures forall v :: v in RemoveAll(vs, id) <==> v in vs && v.id != id
    ensures |RemoveAll(vs, id)| < |vs| <==> exists i :: 0 <= i < |vs| && vs[i].id == id
    ensures |RemoveAll(vs, id)| == |vs| ==> RemoveAll(vs, id) == vs
  {
    WhereShrinks(vs, Keeps(id));
    WhereMembers(vs, Keeps(id));
    if |RemoveAll(vs, id)| == |vs| {
      assert forall i :: 0 <= i < |vs| ==> Keeps(id)(vs[i]);
    }
  }

  /** The index of the first vehicle carrying the id. */
  function FirstIndex(vs: seq<Vehicle>, id: string): (r: Option<nat>)
    ensures r.Some? ==> r.value < |vs| && vs[r.value].id == id
    ensures r.Some? ==> forall j :: 0 <= j < r.value ==> vs[j].id != id
    ensures r.None? <==> forall j :: 0 <= j < |vs| ==> vs[j].id != id
  {
    if vs == [] then None
    else if vs[0].id == id then Some(0)
    else match FirstIndex(vs[1..], id)
      case None => None
      case Some(j) => Some(j + 1)
  }

  /** updateVehicle: the first vehicle with nv's id is replaced by nv at its position. */
  function UpdateFirst(vs: seq<Vehicle>, nv: Vehicle): (r: seq<Vehicle>)
    ensures |r| == |vs|
    ensures FirstIndex(vs, nv.id).None? ==> r == vs
    ensures FirstIndex(vs, nv.id).Some? ==>
              var i := FirstIndex(vs, nv.id).value;
              r[i] == nv && forall j :: 0 <= j < |vs| && j != i ==> r[j] == vs[j]
  {
    match FirstIndex(vs, nv.id)
    case None => vs
    case Some(i) => vs[i := nv]
  }

  /** getVehicleById: the first vehicle with the id, or null. */
  function FindById(vs: seq<Vehicle>, id: string): (r: Option<Vehicle>)
    ensures r.Some? ==> r.value in vs && r.value.id == id
    ensures r.Some? ==> exists i :: 0 <= i < |vs| && vs[i] == r.value && forall j :: 0 <= j < i ==> vs[j].id != id
    ensures r.None? <==> forall v :: v in vs ==> v.id != id
  {
    match FirstIndex(vs, id)
    case None => None
    case Some(i) => Some(vs[i])
  }

  /** After an update that found its id, looking the id up gives the new vehicle. */
  lemma FindAfterUpdate(vs: seq<Vehicle>, nv: Vehicle)
    requires FirstIndex(vs, nv.id).Some?
    ensures FindById(UpdateFirst(vs, nv), nv.id) == Some(nv)
  {
    var i := FirstIndex(vs, nv.id).value;
    var r := UpdateFirst(vs, nv);
    assert forall j :: 0 <= j < i ==> r[j].id != nv.id;
    assert FirstIndex(r, nv.id) == Some(i);
  }

  /** An update leaves every other id's look-up alone. */
  lemma FindOtherAfterUpdate(vs: seq<Vehicle>, nv: Vehicle, id: string)
    requires id != nv.id
    ensures FindById(UpdateFirst(vs, nv), id) == FindById(vs, id)
  {
    var r := UpdateFirst(vs, nv);
    assert forall j :: 0 <= j < |vs| ==> (r[j].id == id <==> vs[j].id == id);
    assert FirstIndex(r, id) == FirstIndex(vs, id) by {
      FirstIndexSameIds(vs, r, id);
    }
  }

  lemma {:induction false} FirstIndexSameIds(a: seq<Vehicle>, b: seq<Vehicle>, id: string)
    requires |a| == |b|
    requires forall j :: 0 <= j < |a| ==> (a[j].id == id <==> b[j].id == id)
    ensures FirstIndex(a, id) == FirstIndex(b, id)
    ensures FirstIndex(a, id).Some? ==> a[FirstIndex(a, id).value] == a[FirstIndex(b, id).value]
  {
    if a != [] {
      FirstIndexSameIds(a[1..], b[1..], id);
    }
  }

  /** After removing an id, no vehicle with it can be found. */
  lemma FindAfterRemove(vs: seq<Vehicle>, id: string)
    ensures FindById(RemoveAll(vs, id), id).None?
  {
    RemoveAllReports(vs, id);
  }

  /** The brand test of getVehiclesByBrand for the query q. */
  predicate BrandMatches(q: JStr, v: Vehicle) {
    q.None? || Trim(q.value) == [] ||
    (v.brand.Some? && Contains(Lower(v.brand.value), Lower(Trim(q.value))))
  }

  function BrandTest(q: JStr): Vehicle -> bool {
    (v: Vehicle) => BrandMatches(q, v)
  }

  /**
   * getVehiclesByBrand: a null or blank query returns every vehicle; any
   * other query keeps, in order, the vehicles whose lower-cased brand
   * contains the trimmed, lower-cased query.
   */
  function BrandFilter(vs: seq<Vehicle>, q: JStr): seq<Vehicle> {
    Where(vs, BrandTest(q))
  }

  /** The brand filter keeps exactly the matching vehicles, and all of them for a blank query. */
  lemma BrandFilterMembers(vs: seq<Vehicle>, q: JStr)
    ensures forall v :: v in BrandFilter(vs, q) <==> v in vs && BrandMatches(q, v)
    ensures (q.None? || Trim(q.value) == []) ==> BrandFilter(vs, q) == vs
  {
    WhereMembers(vs, BrandTest(q));
  }

  /** A vehicle whose brand is null is kept only by a null or blank query. */
  lemma NullBrandOnlyForBlankQuery(vs: seq<Vehicle>, q: JStr, v: Vehicle)
    requires v in vs && v.brand.None?
    ensures v in BrandFilter(vs, q) <==> q.None? || Trim(q.value) == []
  {
    BrandFilterMembers(vs, q);
  }

  /** The query is case-blind: changing its letter case changes nothing. */
  lemma BrandFilterIgnoresCase(vs: seq<Vehicle>, q1: string, q2: string)
    requires Lower(Trim(q1)) == Lower(Trim(q2))
    ensures BrandFilter(vs, Some(q1)) == BrandFilter(vs, Some(q2))
  {
    var p1, p2 := BrandTest(Some(q1)), BrandTest(Some(q2));
    forall i | 0 <= i < |vs| ensures p1(vs[i]) == p2(vs[i]) {
      BlankIgnoresCase(q1, q2);
    }
    WhereSameTest(vs, p1, p2);
  }

  lemma BlankIgnoresCase(q1: string, q2: string)
    requires Lower(Trim(q1)) == Lower(Trim(q2))
    ensures Trim(q1) == [] <==> Trim(q2) == []
  {
  }

  /** "harley" occurs in both spellings of Harley-Davidson, whatever the case. */
  lemma HarleyInBoth()
    ensures Contains(Lower("Harley-Davidson"), "harley")
    ensures Contains(Lower("Harley Davidson"), "harley")
  {
    ContainsAt(Lower("Harley-Davidson"), "harley", 0);
    ContainsAt(Lower("Harley Davidson"), "harley", 0);
  }

  /** "hon" occurs in Honda but in neither spelling of Harley-Davidson. */
  lemma HonOnlyInHonda()
    ensures Contains(Lower("Honda"), "hon")
    ensures !Contains(Lower("Harley-Davidson"), "hon")
    ensures !Contains(Lower("Harley Davidson"), "hon")
  {
    ContainsAt(Lower("Honda"), "hon", 0);
    NoHon(Lower("Harley-Davidson"));
    NoHon(Lower("Harley Davidson"));
  }

  /** A text whose only 'h' is its first character, followed by 'a', holds no "hon". */
  lemma NoHon(h: string)
    requires |h| >= 2 && h[0] == 'h' && h[1] == 'a'
    requires forall i :: 0 < i < |h| ==> h[i] != 'h'
    ensures !Contains(h, "hon")
  {
    forall i | 0 <= i <= |h| - 3 ensures !OccursAt(h, "hon", i) {
      assert h[i] != 'h' || h[i + 1] != 'o';
    }
  }

  /** The three vehicles of the brand-filter test, in insertion order. */
  function BrandTestCatalogue(id1: string, id2: string, id3: string): seq<Vehicle> {
    [Car(id1, Some("Harley-Davidson"), Some("Street 750"), 2022, 2, Some("Petrol")),
     Bike(id2, Some("Honda"), Some("CBR"), 2020, false, Some("Sports")),
     Car(id3, Some("Harley Davidson"), Some("Softail"), 2021, 2, Some("Petrol"))]
  }

  /** In the brand-filter test catalogue "harley" matches both Harley spellings only. */
  lemma HarleyMatches(id1: string, id2: string, id3: string)
    ensures var vs := BrandTestCatalogue(id1, id2, id3);
            BrandMatches(Some("harley"), vs[0]) && !BrandMatches(Some("harley"), vs[1]) &&
            BrandMatches(Some("harley"), vs[2])
  {
    QueryKeys();
    HarleyInBoth();
    assert !Contains(Lower("Honda"), "harley");
  }

  /** In the brand-filter test catalogue "hon" matches the Honda only. */
  lemma HonMatches(id1: string, id2: string, id3: string)
    ensures var vs := BrandTestCatalogue(id1, id2, id3);
            !BrandMatches(Some("hon"), vs[0]) && BrandMatches(Some("hon"), vs[1]) &&
            !BrandMatches(Some("hon"), vs[2])
  {
    QueryKeys();
    HonOnlyInHonda();
  }

  /** Filtering a three-vehicle list, spelled out. */
  lemma WhereOfThree(a: Vehicle, b: Vehicle, c: Vehicle, p: Vehicle -> bool)
    ensures Where([a, b, c], p) ==
              (if p(a) then [a] else []) + (if p(b) then [b] else []) + (if p(c) then [c] else [])
  {
    assert [a, b, c][1..] == [b, c] && [b, c][1..] == [c] && [c][1..] == [];
    assert Where([c], p) == (if p(c) then [c] else []);
    assert Where([b, c], p) == (if p(b) then [b] else []) + Where([c], p);
    assert Where([a, b, c], p) == (if p(a) then [a] else []) + Where([b, c], p);
  }

  /**
   * The brand-filter test: "harley" finds both Harley spellings, in
   * insertion order.
   */
  lemma BrandFilterHarley(id1: string, id2: string, id3: string)
    ensures var vs := BrandTestCatalogue(id1, id2, id3);
            BrandFilter(vs, Some("harley")) == [vs[0], vs[2]]
  {
    var vs := BrandTestCatalogue(id1, id2, id3);
    HarleyMatches(id1, id2, id3);
    WhereOfThree(vs[0], vs[1], vs[2], BrandTest(Some("harley")));
    assert vs == [vs[0], vs[1], vs[2]];
  }

  /** The brand-filter test: "hon" finds the Honda alone. */
  lemma BrandFilterHon(id1: string, id2: string, id3: string)
    ensures var vs := BrandTestCatalogue(id1, id2, id3);
            BrandFilter(vs, Some("hon")) == [vs[1]]
  {
    var vs := BrandTestCatalogue(id1, id2, id3);
    HonMatches(id1, id2, id3);
    WhereOfThree(vs[0], vs[1], vs[2], BrandTest(Some("hon")));
    assert vs == [vs[0], vs[1], vs[2]];
  }

  lemma QueryKeys()
    ensures Trim("harley") == "harley" && Lower("harley") == "harley"
    ensures Trim("hon") == "hon" && Lower("hon") == "hon"
  {
    assert TrimStart("harley") == "harley";
    assert TrimStart("hon") == "hon";
  }

  /** getVehiclesByYear: the vehicles of exactly that year, in order. */
  function YearFilter(vs: seq<Vehicle>, year: int): seq<Vehicle> {
    Where(vs, (v: Vehicle) => v.year == year)
  }

  /** The year filter keeps exactly the vehicles of that year. */
  lemma YearFilterMembers(vs: seq<Vehicle>, year: int)
    ensures forall v :: v in YearFilter(vs, year) <==> v in vs && v.year == year
  {
    WhereMembers(vs, (v: Vehicle) => v.year == year);
  }

  function BrandIs(b: string): Vehicle -> bool {
    (v: Vehicle) => v.brand == Some(b)
  }

  /** The vehicles of vs whose brand is b. */
  function OfBrand(vs: seq<Vehicle>, b: string): seq<Vehicle> {
    Where(vs, BrandIs(b))
  }

  /** No vehicle of an absent brand is found. */
  lemma {:induction false} OfAbsentBrand(vs: seq<Vehicle>, b: string)
    requires forall i :: 0 <= i < |vs| ==> vs[i].brand != Some(b)
    ensures OfBrand(vs, b) == []
  {
    if vs != [] {
      OfAbsentBrand(vs[1..], b);
    }
  }

  /**
   * groupByBrand, built vehicle by vehicle as Collectors.groupingBy does:
   * None when a brand is null (groupingBy rejects a null key).
   */
  function GroupByBrand(vs: seq<Vehicle>): Option<map<string, seq<Vehicle>>>
    decreases |vs|
  {
    if vs == [] then Some(map[])
    else
      var last := vs[|vs| - 1];
      match GroupByBrand(vs[..|vs| - 1])
      case None => None
      case Some(m) =>
        if last.brand.None? then None
        else
          var b := last.brand.value;
          Some(m[b := (if b in m then m[b] else []) + [last]])
  }

  /** groupByBrand fails exactly when some vehicle's brand is null. */
  lemma {:induction false} GroupByBrandFails(vs: seq<Vehicle>)
    ensures GroupByBrand(vs).Some? <==> forall i :: 0 <= i < |vs| ==> vs[i].brand.Some?
    decreases |vs|
  {
    if vs != [] {
      var init := vs[..|vs| - 1];
      GroupByBrandFails(init);
      if GroupByBrand(init).None? {
        var i :| 0 <= i < |init| && init[i].brand.None?;
        assert vs[i] == init[i];
      }
    }
  }

  /** The keys of groupByBrand are the brands that occur. */
  lemma {:induction false} GroupByBrandKeys(vs: seq<Vehicle>)
    requires GroupByBrand(vs).Some?
    ensures forall b :: b in GroupByBrand(vs).value <==> exists i :: 0 <= i < |vs| && vs[i].brand == Some(b)
    decreases |vs|
  {
    if vs != [] {
      var init := vs[..|vs| - 1];
      GroupByBrandKeys(init);
      var m0, m := GroupByBrand(init).value, GroupByBrand(vs).value;
      forall b ensures b in m <==> exists i :: 0 <= i < |vs| && vs[i].brand == Some(b) {
        if b in m0 {
          var i :| 0 <= i < |init| && init[i].brand == Some(b);
          assert vs[i] == init[i];
        }
        if exists i :: 0 <= i < |vs| && vs[i].brand == Some(b) {
          var i :| 0 <= i < |vs| && vs[i].brand == Some(b);
          if i < |init| {
            assert init[i].brand == Some(b);
          }
        }
      }
    }
  }

  /** Each brand's group lists that brand's vehicles in catalogue order. */
  lemma {:induction false} GroupByBrandLists(vs: seq<Vehicle>)
    requires GroupByBrand(vs).Some?
    ensures forall b :: b in GroupByBrand(vs).value ==> GroupByBrand(vs).value[b] == OfBrand(vs, b)
    decreases |vs|
  {
    if vs != [] {
      var init, last := vs[..|vs| - 1], vs[|vs| - 1];
      assert vs == init + [last];
      GroupByBrandLists(init);
      GroupByBrandKeys(init);
      var m0, m := GroupByBrand(init).value, GroupByBrand(vs).value;
      forall b | b in m
        ensures m[b] == OfBrand(vs, b)
      {
        WhereAppend(init, [last], BrandIs(b));
        if b !in m0 {
          OfAbsentBrand(init, b);
        }
      }
    }
  }

  /**
   * groupByBrand fails exactly when a brand is null; otherwise its keys are
   * the brands present and each key's list is the vehicles of that brand in
   * catalogue order.
   */
  lemma GroupByBrandSpec(vs: seq<Vehicle>)
    ensures GroupByBrand(vs).Some? <==> forall i :: 0 <= i < |vs| ==> vs[i].brand.Some?
    ensures GroupByBrand(vs).Some? ==>
              var m := GroupByBrand(vs).value;
              (forall b :: b in m <==> exists i :: 0 <= i < |vs| && vs[i].brand == Some(b)) &&
              (forall b :: b in m ==> m[b] == OfBrand(vs, b))
  {
    GroupByBrandFails(vs);
    if GroupByBrand(vs).Some? {
      GroupByBrandKeys(vs);
      GroupByBrandLists(vs);
    }
  }
}
