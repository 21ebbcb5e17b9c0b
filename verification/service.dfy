/**
 * VehicleService: the business layer over a repository, which is either
 * the in-memory catalogue or the JDBC table. Its own logic is the search
 * filter; the rest is forwarded, and save and load act only on the
 * in-memory repository.
 */
module Service {
  import opened Wrappers
  import opened JavaText
  import opened Vehicles
  import opened Catalogue
  import opened Snapshot
  import opened Database
  import opened Repository
  import opened Jdbc

  /** An in-memory list seen through the repository interface: no entry is null. */
  function Present(vs: seq<Vehicle>): (r: seq<Option<Vehicle>>)
    ensures |r| == |vs| && forall i :: 0 <= i < |vs| ==> r[i] == Some(vs[i])
  {
    seq(|vs|, i requires 0 <= i < |vs| => Some(vs[i]))
  }

  /** The brand test of filterVehicles, for the trimmed, lower-cased query b. */
  predicate BrandOk(b: string, v: Vehicle) {
    b == [] || (v.brand.Some? && Contains(Lower(v.brand.value), b))
  }

  /** The type test of filterVehicles, for the trimmed query t. */
  predicate TypeOk(t: string, v: Vehicle) {
    t == [] || EqualsIgnoreCase(TypeName(v), t)
  }

  /** The normalised brand query: "" for null, else trimmed and lower-cased. */
  function BrandQuery(brandFilter: JStr): string {
    if brandFilter.None? then "" else Lower(Trim(brandFilter.value))
  }

  /** The normalised type query: "" for null, else trimmed. */
  function TypeQuery(typeFilter: JStr): string {
    if typeFilter.None? then "" else Trim(typeFilter.value)
  }

  /**
   * filterVehicles over the repository's list: the entries passing both
   * tests, in order. A null entry passes when both queries are empty and
   * throws (Err) as soon as one is not.
   */
  function FilterEntries(list: seq<Option<Vehicle>>, b: string, t: string): Result<seq<Option<Vehicle>>, string>
    decreases |list|
  {
    if list == [] then Ok([])
    else
      var e := list[0];
      if e.None? && (b != [] || t != []) then Err("NullPointerException")
      else
        var keep := e.None? || (BrandOk(b, e.value) && TypeOk(t, e.value));
        match FilterEntries(list[1..], b, t)
        case Err(x) => Err(x)
        case Ok(rest) => Ok((if keep then [e] else []) + rest)
  }

  /**
   * The loop of filterVehicles over the listed entries: a null entry throws
   * once either query is set; a kept entry is appended to the result.
   */
  method FilterList(list: seq<Option<Vehicle>>, b: string, t: string) returns (r: Result<seq<Option<Vehicle>>, string>)
    ensures r == FilterEntries(list, b, t)
  {
    var out: seq<Option<Vehicle>> := [];
    var i := 0;
    assert list[i..] == list;
    PrependNothing(FilterEntries(list, b, t));
    while i < |list|
      invariant 0 <= i <= |list|
      invariant FilterEntries(list, b, t) == Prepend(out, FilterEntries(list[i..], b, t))
    {
      assert list[i..][0] == list[i] && list[i..][1..] == list[i + 1..];
      FilterStep(list[i..], b, t);
      var e := list[i];
      if e.None? && b != [] {
        return Err("NullPointerException");
      }
      var okBrand := b == [] || BrandOk(b, e.value);
      if e.None? && t != [] {
        return Err("NullPointerException");
      }
      var okType := t == [] || TypeOk(t, e.value);
      if okBrand && okType {
        PrependSnoc(out, e, FilterEntries(list[i + 1..], b, t));
        out := out + [e];
      } else {
        PrependNothing(FilterEntries(list[i + 1..], b, t));
      }
      i := i + 1;
    }
    r := Ok(out);
    assert out + [] == out;
  }

  /** One step of the filter: the first entry's verdict in front of the rest's. */
  lemma FilterStep(list: seq<Option<Vehicle>>, b: string, t: string)
    requires list != []
    ensures list[0].None? && (b != [] || t != []) ==> FilterEntries(list, b, t) == Err("NullPointerException")
    ensures !(list[0].None? && (b != [] || t != [])) ==>
              FilterEntries(list, b, t) ==
                Prepend(if list[0].None? || (BrandOk(b, list[0].value) && TypeOk(t, list[0].value)) then [list[0]] else [],
                        FilterEntries(list[1..], b, t))
  {
  }

  /** With both queries empty the filter returns the whole list, null entries included. */
  lemma {:induction false} FilterBlank(list: seq<Option<Vehicle>>)
    ensures FilterEntries(list, "", "") == Ok(list)
    decreases |list|
  {
    if list != [] {
      FilterBlank(list[1..]);
      assert [list[0]] + list[1..] == list;
    }
  }

  /** The filter fails exactly when a query is not empty and some entry is null. */
  lemma {:induction false} FilterFails(list: seq<Option<Vehicle>>, b: string, t: string)
    ensures FilterEntries(list, b, t).Err? <==> (b != [] || t != []) && exists i :: 0 <= i < |list| && list[i].None?
    decreases |list|
  {
    if list != [] {
      FilterFails(list[1..], b, t);
      if exists i :: 0 <= i < |list[1..]| && list[1..][i].None? {
        var i :| 0 <= i < |list[1..]| && list[1..][i].None?;
        assert list[i + 1].None?;
      }
      if exists i :: 0 <= i < |list| && list[i].None? {
        var i :| 0 <= i < |list| && list[i].None?;
        if i > 0 {
          assert list[1..][i - 1].None?;
        }
      }
    }
  }

  /**
   * A successful filter holds exactly the vehicles of the list that pass
   * both tests, and is no longer than the list (FilterIsWhere gives the
   * order).
   */
  lemma {:induction false} FilterKeeps(list: seq<Option<Vehicle>>, b: string, t: string)
    requires FilterEntries(list, b, t).Ok?
    ensures forall v :: Some(v) in FilterEntries(list, b, t).value <==> Some(v) in list && BrandOk(b, v) && TypeOk(t, v)
    ensures |FilterEntries(list, b, t).value| <= |list|
    decreases |list|
  {
    if list != [] {
      FilterKeeps(list[1..], b, t);
      assert list == [list[0]] + list[1..];
    }
  }

  /**
   * Over the in-memory catalogue and with no type query, the service's
   * search is getVehiclesByBrand: the same vehicles in the same order.
   */
  lemma {:induction false} FilterIsBrandFilter(vs: seq<Vehicle>, q: JStr)
    ensures FilterEntries(Present(vs), BrandQuery(q), "") == Ok(Present(BrandFilter(vs, q)))
    decreases |vs|
  {
    var b := BrandQuery(q);
    if vs != [] {
      var p := Present(vs);
      assert p[0] == Some(vs[0]) && p[1..] == Present(vs[1..]);
      FilterIsBrandFilter(vs[1..], q);
      FilterStep(p, b, "");
      assert vs == [vs[0]] + vs[1..];
      WhereAppend([vs[0]], vs[1..], BrandTest(q));
      assert BrandOk(b, vs[0]) <==> BrandMatches(q, vs[0]);
      var keep := BrandMatches(q, vs[0]);
      assert Where([vs[0]], BrandTest(q)) == if keep then [vs[0]] else [];
      PresentAppend(if keep then [vs[0]] else [], BrandFilter(vs[1..], q));
      assert Present(if keep then [vs[0]] else []) == if keep then [p[0]] else [];
    } else {
      assert BrandFilter(vs, q) == [];
    }
  }

  /** Both tests of filterVehicles as one test on a vehicle. */
  function BothOk(b: string, t: string): Vehicle -> bool {
    (v: Vehicle) => BrandOk(b, v) && TypeOk(t, v)
  }

  /**
   * Over a list without null entries the filter never throws, and it keeps,
   * in order and as often as they occur, the vehicles passing both tests.
   */
  lemma {:induction false} FilterIsWhere(vs: seq<Vehicle>, b: string, t: string)
    ensures FilterEntries(Present(vs), b, t) == Ok(Present(Where(vs, BothOk(b, t))))
    decreases |vs|
  {
    if vs != [] {
      var p := Present(vs);
      assert p[0] == Some(vs[0]) && p[1..] == Present(vs[1..]);
      FilterIsWhere(vs[1..], b, t);
      FilterStep(p, b, t);
      var head := if BrandOk(b, vs[0]) && TypeOk(t, vs[0]) then [vs[0]] else [];
      assert Where(vs, BothOk(b, t)) == head + Where(vs[1..], BothOk(b, t));
      PresentAppend(head, Where(vs[1..], BothOk(b, t)));
      assert Present(head) == if BrandOk(b, vs[0]) && TypeOk(t, vs[0]) then [p[0]] else [];
    } else {
      assert Where(vs, BothOk(b, t)) == [];
    }
  }

  lemma PresentAppend(a: seq<Vehicle>, b: seq<Vehicle>)
    ensures Present(a + b) == Present(a) + Present(b)
  {
  }

  class VehicleService {
    /** The repository: exactly one of the two is set. */
    const mem: VehicleDatabaseRepository?
    const jdbc: VehicleDaoJdbc?

    ghost predicate Valid() {
      (mem == null) != (jdbc == null)
    }

    /** The objects the service's calls may change: the catalogue or the table. */
    ghost function Footprint(): set<object> {
      (if mem != null then {mem.db} else {}) + (if jdbc != null then {jdbc} else {})
    }

    /** Over the in-memory repository, whose init does nothing. */
    constructor InMemory(repo: VehicleDatabaseRepository)
      ensures Valid() && mem == repo && jdbc == null
    {
      mem, jdbc := repo, null;
      new;
      repo.Init();
    }

    /** Over the JDBC table, which init seeds when it is empty. */
    constructor OverJdbc(dao: VehicleDaoJdbc, ids: seq<string>)
      requires |ids| == 4
      modifies dao
      ensures Valid() && mem == null && jdbc == dao
      ensures |old(dao.table)| != 0 ==> dao.table == old(dao.table)
      ensures |old(dao.table)| == 0 ==> dao.table == InsertAll(old(dao.table), Samples(ids))
    {
      mem, jdbc := null, dao;
      new;
      dao.Init(ids);
    }

    method AddVehicle(v: Vehicle) returns (r: Result<(), string>)
      requires Valid()
      modifies Footprint()
      ensures mem != null ==> r.Ok? && mem.db.vehicles == old(mem.db.vehicles) + [v]
      ensures jdbc != null ==> (r.Err? <==> v.id in old(jdbc.table))
      ensures jdbc != null && r.Ok? ==> jdbc.table == old(jdbc.table)[v.id := RowOf(v)]
    {
      if mem != null {
        mem.AddVehicle(v);
        r := Ok(());
      } else {
        r := jdbc.AddVehicle(v);
      }
    }

    method RemoveVehicleById(id: string) returns (removed: bool)
      requires Valid()
      modifies Footprint()
      ensures mem != null ==> mem.db.vehicles == RemoveAll(old(mem.db.vehicles), id)
      ensures mem != null ==> (removed <==> exists i :: 0 <= i < |old(mem.db.vehicles)| && old(mem.db.vehicles)[i].id == id)
      ensures jdbc != null ==> jdbc.table == old(jdbc.table) - {id}
      ensures jdbc != null ==> (removed <==> id in old(jdbc.table))
    {
      if mem != null {
        removed := mem.RemoveVehicleById(id);
      } else {
        removed := jdbc.RemoveVehicleById(id);
      }
    }

    method UpdateVehicle(v: Vehicle) returns (updated: bool)
      requires Valid()
      modifies Footprint()
      ensures mem != null ==> mem.db.vehicles == UpdateFirst(old(mem.db.vehicles), v)
      ensures mem != null ==> (updated <==> exists i :: 0 <= i < |old(mem.db.vehicles)| && old(mem.db.vehicles)[i].id == v.id)
      ensures jdbc != null ==> (updated <==> v.id in old(jdbc.table))
      ensures jdbc != null ==> jdbc.table == if updated then old(jdbc.table)[v.id := RowOf(v)] else old(jdbc.table)
    {
      if mem != null {
        updated := mem.UpdateVehicle(v);
      } else {
        updated := jdbc.UpdateVehicle(v);
      }
    }

    /** getAllVehicles; `keys` is the order in which the table returns its rows. */
    method GetAllVehicles(keys: seq<string>) returns (r: Result<seq<Option<Vehicle>>, string>)
      requires Valid()
      requires jdbc != null ==> Enumerates(keys, jdbc.table)
      ensures mem != null ==> r == Ok(Present(mem.db.vehicles))
      ensures jdbc != null ==> r == ReadRows(keys, jdbc.table)
    {
      if mem != null {
        var all := mem.GetAllVehicles();
        r := Ok(Present(all));
      } else {
        r := jdbc.GetAllVehicles(keys);
      }
    }

    method GetVehicleById(id: string) returns (r: Result<Option<Vehicle>, string>)
      requires Valid()
      ensures mem != null ==> r == Ok(FindById(mem.db.vehicles, id))
      ensures jdbc != null ==> r == if id in jdbc.table then ReadRow(id, jdbc.table[id]) else Ok(None)
    {
      if mem != null {
        var x := mem.GetVehicleById(id);
        r := Ok(x);
      } else {
        r := jdbc.GetVehicleById(id);
      }
    }

    /**
     * filterVehicles: the list from getAllVehicles, each entry kept when it
     * passes the brand test and the type test.
     */
    method FilterVehicles(brandFilter: JStr, typeFilter: JStr, keys: seq<string>)
      returns (r: Result<seq<Option<Vehicle>>, string>)
      requires Valid()
      requires jdbc != null ==> Enumerates(keys, jdbc.table)
      ensures mem != null ==> r == FilterEntries(Present(mem.db.vehicles), BrandQuery(brandFilter), TypeQuery(typeFilter))
      ensures jdbc != null ==> r == match ReadRows(keys, jdbc.table)
                                   case Err(e) => Err(e)
                                   case Ok(list) => FilterEntries(list, BrandQuery(brandFilter), TypeQuery(typeFilter))
    {
      var all := GetAllVehicles(keys);
      if all.Err? {
        return Err(all.error);
      }
      r := FilterList(all.value, BrandQuery(brandFilter), TypeQuery(typeFilter));
    }

    /**
     * saveToJson: the snapshot text of the in-memory catalogue (Err where
     * escape throws); Ok(None), nothing written, over the JDBC table.
     */
    method SaveToJson(dt: DoubleText) returns (r: Result<Option<string>, string>)
      requires Valid()
      ensures mem != null ==> r == match SaveText(mem.db.vehicles, dt)
                                   case None => Err("NullPointerException")
                                   case Some(text) => Ok(Some(text))
      ensures jdbc != null ==> r == Ok(None)
    {
      if mem != null {
        var text := mem.SaveToJson(dt);
        r := if text.None? then Err("NullPointerException") else Ok(Some(text.value));
      } else {
        r := Ok(None);
      }
    }

    /** loadFromJson: reloads the in-memory catalogue; does nothing over the JDBC table. */
    method LoadFromJson(lines: seq<string>, dt: DoubleText, missingId: string)
      requires Valid()
      modifies Footprint()
      ensures mem != null && lines != [] ==> mem.db.vehicles == LoadText(Join(lines, "\n"), dt, missingId)
      ensures mem != null && lines == [] ==> mem.db.vehicles == old(mem.db.vehicles)
      ensures jdbc != null ==> jdbc.table == old(jdbc.table)
    {
      if mem != null {
        mem.LoadFromJson(lines, dt, missingId);
      }
    }
  }
}
