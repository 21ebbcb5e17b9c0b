/**
 * VehicleDatabase: the in-memory catalogue, an ordered list of vehicles
 * that the list operations update in place, its stream queries and its
 * snapshot writer and reader (the file step removed: the writer returns
 * the text, the reader receives the lines of the file).
 */
module Database {
  import opened Wrappers
  import opened JavaText
  import opened Vehicles
  import opened Catalogue
  import opened Snapshot
  import opened SnapshotProofs

  class VehicleDatabase {
    var vehicles: seq<Vehicle>

    /** A new catalogue is empty. */
    constructor ()
      ensures vehicles == []
    {
      vehicles := [];
    }

    /** addVehicle: appends at the end, without looking for the id. */
    method AddVehicle(v: Vehicle)
      modifies this
      ensures vehicles == old(vehicles) + [v]
    {
      vehicles := vehicles + [v];
    }

    /**
     * removeVehicleById: every vehicle with the id goes, the others stay in
     * order; true exactly when one went.
     */
    method RemoveVehicleById(id: string) returns (removed: bool)
      modifies this
      ensures vehicles == RemoveAll(old(vehicles), id)
      ensures removed <==> exists i :: 0 <= i < |old(vehicles)| && old(vehicles)[i].id == id
      ensures forall v :: v in vehicles <==> v in old(vehicles) && v.id != id
    {
      RemoveAllReports(vehicles, id);
      var before := vehicles;
      vehicles := RemoveAll(vehicles, id);
      removed := |vehicles| < |before|;
    }

    /**
     * updateVehicle: scans for the first vehicle with the new vehicle's id
     * and puts the new one at that index; true when it found one, and the
     * list unchanged otherwise.
     */
    method UpdateVehicle(nv: Vehicle) returns (updated: bool)
      modifies this
      ensures vehicles == UpdateFirst(old(vehicles), nv)
      ensures updated <==> exists i :: 0 <= i < |old(vehicles)| && old(vehicles)[i].id == nv.id
      ensures !updated ==> vehicles == old(vehicles)
      ensures |vehicles| == |old(vehicles)|
    {
      var i := 0;
      while i < |vehicles|
        invariant 0 <= i <= |vehicles|
        invariant vehicles == old(vehicles)
        invariant forall j :: 0 <= j < i ==> vehicles[j].id != nv.id
      {
        if vehicles[i].id == nv.id {
          assert FirstIndex(vehicles, nv.id) == Some(i);
          vehicles := vehicles[i := nv];
          return true;
        }
        i := i + 1;
      }
      return false;
    }

    /**
     * replaceVehicleById: removes every vehicle with the id, then appends the
     * new vehicle whatever happened; reports whether something was removed.
     */
    method ReplaceVehicleById(id: string, nv: Vehicle) returns (removed: bool)
      modifies this
      ensures vehicles == RemoveAll(old(vehicles), id) + [nv]
      ensures removed <==> exists i :: 0 <= i < |old(vehicles)| && old(vehicles)[i].id == id
    {
      removed := RemoveVehicleById(id);
      AddVehicle(nv);
    }

    /** updateVehiclePreserveId: the same as updateVehicle. */
    method UpdateVehiclePreserveId(nv: Vehicle) returns (updated: bool)
      modifies this
      ensures vehicles == UpdateFirst(old(vehicles), nv)
      ensures updated <==> exists i :: 0 <= i < |old(vehicles)| && old(vehicles)[i].id == nv.id
    {
      updated := UpdateVehicle(nv);
    }

    /**
     * getAllVehicles: a copy of the list. A Dafny sequence is a value, so
     * nothing the caller does to the result reaches the catalogue.
     */
    method GetAllVehicles() returns (all: seq<Vehicle>)
      ensures all == vehicles
    {
      all := vehicles;
    }

    /**
     * getVehiclesByBrand: every vehicle for a null or blank query, otherwise
     * the vehicles whose brand contains the query ignoring case, in order.
     */
    method GetVehiclesByBrand(brand: JStr) returns (r: seq<Vehicle>)
      ensures r == BrandFilter(vehicles, brand)
      ensures forall v :: v in r <==> v in vehicles && BrandMatches(brand, v)
      ensures (brand.None? || Trim(brand.value) == []) ==> r == vehicles
    {
      BrandFilterMembers(vehicles, brand);
      if brand.None? || Trim(brand.value) == [] {
        r := GetAllVehicles();
      } else {
        r := BrandFilter(vehicles, brand);
      }
    }

    /** filterByBrand: an alias of getVehiclesByBrand. */
    method FilterByBrand(brand: JStr) returns (r: seq<Vehicle>)
      ensures r == BrandFilter(vehicles, brand)
      ensures forall v :: v in r <==> v in vehicles && BrandMatches(brand, v)
    {
      r := GetVehiclesByBrand(brand);
    }

    /** getVehiclesByYear: the vehicles of that year, in order. */
    method GetVehiclesByYear(year: int) returns (r: seq<Vehicle>)
      ensures r == YearFilter(vehicles, year)
      ensures forall v :: v in r <==> v in vehicles && v.year == year
    {
      YearFilterMembers(vehicles, year);
      r := YearFilter(vehicles, year);
    }

    /**
     * groupByBrand: None when a brand is null; otherwise one list per brand
     * present, holding that brand's vehicles in catalogue order.
     */
    method GroupByBrand() returns (r: Option<map<string, seq<Vehicle>>>)
      ensures r.Some? <==> forall i :: 0 <= i < |vehicles| ==> vehicles[i].brand.Some?
      ensures r.Some? ==> forall b :: b in r.value <==> exists i :: 0 <= i < |vehicles| && vehicles[i].brand == Some(b)
      ensures r.Some? ==> forall b :: b in r.value ==> r.value[b] == OfBrand(vehicles, b)
    {
      GroupByBrandSpec(vehicles);
      r := Catalogue.GroupByBrand(vehicles);
    }

    /** getVehicleById: the first vehicle with the id, or null. */
    method GetVehicleById(id: string) returns (r: Option<Vehicle>)
      ensures r == FindById(vehicles, id)
      ensures r.Some? ==> r.value in vehicles && r.value.id == id
      ensures r.None? <==> forall v :: v in vehicles ==> v.id != id
    {
      r := FindById(vehicles, id);
    }

    method GetTotalCount() returns (n: nat)
      ensures n == |vehicles|
    {
      n := |vehicles|;
    }

    method Clear()
      modifies this
      ensures vehicles == []
    {
      vehicles := [];
    }

    /**
     * saveToJson without the file: "[", the records separated by a comma and
     * a line break, then a line break and "]". None when a text field is
     * null, where escape throws and nothing is written.
     */
    method SaveToJson(dt: DoubleText) returns (text: Option<string>)
      ensures text == SaveText(vehicles, dt)
    {
      var sb := "[";
      var first := true;
      var i := 0;
      while i < |vehicles|
        invariant 0 <= i <= |vehicles|
        invariant first <==> i == 0
        invariant RecordsJson(vehicles[..i], dt).Some?
        invariant sb == "[" + Join(RecordsJson(vehicles[..i], dt).value, ",\n")
      {
        var rec := RecordJson(vehicles[i], dt);
        if rec.None? {
          NullTextFails(vehicles, i, dt);
          return None;
        }
        SaveStep(vehicles, i, dt, sb, ",\n");
        if !first {
          sb := sb + ",\n";
        }
        first := false;
        sb := sb + rec.value;
        i := i + 1;
      }
      SaveEnd(vehicles, dt, sb);
      text := Some(sb + "\n]");
    }

    /**
     * loadFromJson without the file: no lines leave the catalogue as it was;
     * otherwise it is cleared and receives, in order, the records of the
     * joined lines that are not skipped.
     */
    method LoadFromJson(lines: seq<string>, dt: DoubleText, missingId: string)
      modifies this
      ensures lines == [] ==> vehicles == old(vehicles)
      ensures lines != [] ==> vehicles == LoadText(Join(lines, "\n"), dt, missingId)
    {
      if lines == [] {
        return;
      }
      var json := Join(lines, "\n");
      ghost var read := Reader(dt, missingId);
      ghost var total := LoadText(json, dt, missingId);
      ReaderReads(dt, missingId);
      Clear();
      var idx: nat := 0;
      while true
        invariant idx <= |json|
        invariant LoadState(json, idx, read, vehicles, total)
        decreases |json| - idx
      {
        var next := LoadNext(json, idx, dt, missingId, read, total);
        if next < 0 {
          break;
        }
        idx := next;
      }
    }

    /**
     * One turn of the object loop of loadFromJson from idx: the next '{',
     * the next '}' after it, the record between them added when it reads
     * as a vehicle, and the position after the '}'; -1 where the loop
     * breaks, every record of the text then read.
     */
    method LoadNext(json: string, idx: nat, dt: DoubleText, missingId: string,
                    ghost read: string -> Option<Vehicle>, ghost total: seq<Vehicle>)
      returns (next: int)
      modifies this
      requires ReadsObjects(read, dt, missingId)
      requires idx <= |json| && LoadState(json, idx, read, vehicles, total)
      ensures next < 0 ==> vehicles == total
      ensures next >= 0 ==> idx < next <= |json| && LoadState(json, next, read, vehicles, total)
    {
      var start := IndexOf(json, '{', idx);
      if start < 0 {
        LoadStops(json, idx, read, vehicles, total);
        return -1;
      }
      var end := IndexOf(json, '}', start);
      if end < 0 {
        LoadStops(json, idx, read, vehicles, total);
        return -1;
      }
      var obj := json[start + 1..end];
      var rec := ReadRecord(obj, dt, missingId, read);
      ghost var done := vehicles;
      LoadTurn(json, idx, start, end, read, done, rec, total);
      if rec.Some? {
        AddVehicle(rec.value);
      }
      assert vehicles == done + Kept(rec);
      next := end + 1;
    }
  }

  /** The state of the object loop: the vehicles read so far, then those read from idx on, are all of them. */
  ghost predicate LoadState(json: string, idx: nat, read: string -> Option<Vehicle>, done: seq<Vehicle>, total: seq<Vehicle>) {
    done + ObjectsFrom(json, idx, read) == total
  }

  /** The object loop stops at a missing '{' or '}' with nothing more to read. */
  lemma LoadStops(json: string, idx: nat, read: string -> Option<Vehicle>, done: seq<Vehicle>, total: seq<Vehicle>)
    requires LoadState(json, idx, read, done, total)
    requires IndexOf(json, '{', idx) < 0 || IndexOf(json, '}', IndexOf(json, '{', idx)) < 0
    ensures done == total
  {
    ObjectsFromStop(json, idx, read);
    assert done + [] == done;
  }

  /** One turn of the object loop: the record read, if any, moves from the unread text to the list. */
  lemma LoadTurn(json: string, idx: nat, start: int, end: int, read: string -> Option<Vehicle>,
                 done: seq<Vehicle>, rec: Option<Vehicle>, total: seq<Vehicle>)
    requires LoadState(json, idx, read, done, total)
    requires start == IndexOf(json, '{', idx) && start >= 0
    requires end == IndexOf(json, '}', start) && end >= 0
    requires rec == read(json[start + 1..end])
    ensures LoadState(json, end + 1, read, done + Kept(rec), total)
  {
    ObjectsFromStep(json, idx, start, end, read);
    AppendAssoc(done, Kept(rec), ObjectsFrom(json, end + 1, read));
  }

  lemma AppendAssoc<T>(a: seq<T>, b: seq<T>, c: seq<T>)
    ensures a + (b + c) == (a + b) + c
  {
  }

  /**
   * One object of loadFromJson: its pairs, their map, and the record, or
   * None where the try block catches an exception or no case of the switch
   * matches.
   */
  method ReadRecord(obj: string, dt: DoubleText, missingId: string, ghost read: string -> Option<Vehicle>)
    returns (rec: Option<Vehicle>)
    requires ReadsObjects(read, dt, missingId)
    ensures rec == read(obj)
  {
    var pairs := ScanPairs(obj);
    var m := PutPairs(pairs);
    rec := DecodeRecord(m, dt, missingId);
    assert rec == ReadObject(obj, dt, missingId);
  }

  /**
   * The character loop of loadFromJson over one object: a double quote flips
   * inQuotes, a comma outside quotes closes the current pair, any other
   * character extends it; a non-empty last pair is kept.
   */
  method ScanPairs(obj: string) returns (pairs: seq<string>)
    ensures pairs == Pairs(obj)
  {
    pairs := [];
    var cur := "";
    var inQuotes := false;
    var j := 0;
    while j < |obj|
      invariant 0 <= j <= |obj|
      invariant SplitPairs(obj[j..], inQuotes, cur, pairs) == Pairs(obj)
    {
      var ch := obj[j];
      assert obj[j..][0] == ch && obj[j..][1..] == obj[j + 1..];
      if ch == '"' {
        inQuotes := !inQuotes;
      }
      if ch == ',' && !inQuotes {
        pairs := pairs + [cur];
        cur := "";
      } else {
        cur := cur + [ch];
      }
      j := j + 1;
    }
    if |cur| > 0 {
      pairs := pairs + [cur];
    }
  }

  /** The pair loop of loadFromJson: each pair with a colon is put in the map, a later key winning. */
  method PutPairs(pairs: seq<string>) returns (m: map<string, string>)
    ensures m == Collect(pairs, map[])
  {
    m := map[];
    var k := 0;
    while k < |pairs|
      invariant 0 <= k <= |pairs|
      invariant Collect(pairs[k..], m) == Collect(pairs, map[])
    {
      assert pairs[k..][0] == pairs[k] && pairs[k..][1..] == pairs[k + 1..];
      match Entry(pairs[k]) {
        case None =>
        case Some((key, val)) => m := m[key := val];
      }
      k := k + 1;
    }
  }
}
