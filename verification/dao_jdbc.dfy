/**
 * VehicleDaoJdbc: the vehicles table as a map from the primary key to a
 * row of nullable columns, the column layout the DAO writes and the row
 * reader. Connections, statements and SQL text are not modelled.
 */
module Jdbc {
  import opened Wrappers
  import opened Decimal
  import opened JavaText
  import opened Vehicles

  /** The columns after id, in table order; None is SQL NULL. */
  datatype Row = Row(
    vtype: JStr, brand: JStr, model: JStr, year: Option<Int32>,
    doors: Option<Int32>, fuel: JStr, sidecar: Option<bool>, category: JStr,
    payload: Option<real>, trailer: Option<bool>, cc: Option<Int32>)

  /**
   * The columns addVehicle and updateVehicle set: the class name as type,
   * the base fields, and only the variant's own columns, the others NULL.
   * A motorcycle's category is not among them: its category column is set
   * NULL like those of a car or a truck.
   */
  function RowOf(v: Vehicle): (r: Row)
    ensures r.vtype == Some(TypeName(v)) && r.brand == v.brand && r.model == v.model && r.year == Some(v.year)
    ensures r.doors.Some? <==> v.Car?
    ensures r.sidecar.Some? <==> v.Bike?
    ensures (r.payload.Some? <==> v.Truck?) && (r.trailer.Some? <==> v.Truck?)
    ensures r.cc.Some? <==> v.Motorcycle?
    ensures !v.Car? ==> r.fuel.None?
    ensures !v.Bike? ==> r.category.None?
  {
    var base := Row(Some(TypeName(v)), v.brand, v.model, Some(v.year), None, None, None, None, None, None, None);
    match v
    case Car(_, _, _, _, doors, fuel) => base.(doors := Some(doors), fuel := fuel)
    case Bike(_, _, _, _, side, cat) => base.(sidecar := Some(side), category := cat)
    case Truck(_, _, _, _, payload, trailer) => base.(payload := Some(payload), trailer := Some(trailer))
    case Motorcycle(_, _, _, _, cc, _) => base.(cc := Some(cc))
  }

  /** What the table keeps of a vehicle: all of it, except a motorcycle's category. */
  function Kept(v: Vehicle): (k: Vehicle)
    ensures k.id == v.id && k.brand == v.brand && k.model == v.model && k.year == v.year
    ensures k.Car? == v.Car? && k.Bike? == v.Bike? && k.Truck? == v.Truck? && k.Motorcycle? == v.Motorcycle?
    ensures k == v <==> !(v.Motorcycle? && v.category.Some?)
    ensures k.Motorcycle? ==> k.engineCc == v.engineCc && k.category.None?
  {
    match v
    case Motorcycle(id, brand, model, year, cc, _) => Motorcycle(id, brand, model, year, cc, None)
    case _ => v
  }

  /** ResultSet.getInt on a NULL column gives 0. */
  function IntOrZero(c: Option<Int32>): Int32 {
    if c.Some? then c.value else 0
  }

  /** ResultSet.getBoolean on a NULL column gives false. */
  function BoolOrFalse(c: Option<bool>): bool {
    if c.Some? then c.value else false
  }

  /** ResultSet.getDouble on a NULL column gives 0. */
  function RealOrZero(c: Option<real>): real {
    if c.Some? then c.value else 0.0
  }

  /**
   * readVehicleFromResultSet: Err when the type column is NULL (toLowerCase
   * on null throws), Ok(None) for a type that is none of the four, and
   * otherwise the vehicle the lower-cased type names, NULL numbers and
   * booleans read as 0 and false.
   */
  function ReadRow(id: string, row: Row): (r: Result<Option<Vehicle>, string>)
    ensures r.Err? <==> row.vtype.None?
    ensures r.Ok? && r.value.Some? ==>
              var v := r.value.value;
              v.id == id && v.brand == row.brand && v.model == row.model && v.year == IntOrZero(row.year) &&
              Lower(row.vtype.value) == Lower(TypeName(v))
    ensures r.Ok? && r.value.Some? && r.value.value.Car? ==>
              r.value.value.numDoors == IntOrZero(row.doors) && r.value.value.fuelType == row.fuel
    ensures r.Ok? && r.value.Some? && r.value.value.Bike? ==>
              r.value.value.hasSidecar == BoolOrFalse(row.sidecar) && r.value.value.category == row.category
    ensures r.Ok? && r.value.Some? && r.value.value.Truck? ==>
              r.value.value.payloadKg == RealOrZero(row.payload) && r.value.value.hasTrailer == BoolOrFalse(row.trailer)
    ensures r.Ok? && r.value.Some? && r.value.value.Motorcycle? ==>
              r.value.value.engineCc == IntOrZero(row.cc) && r.value.value.category == row.category
    ensures r.Ok? && r.value.None? <==>
              row.vtype.Some? && Lower(row.vtype.value) !in {"car", "bike", "truck", "motorcycle"}
  {
    LowerTypeNames();
    if row.vtype.None? then Err("type is NULL")
    else
      var year := IntOrZero(row.year);
      var t := Lower(row.vtype.value);
      if t == "car" then Ok(Some(Car(id, row.brand, row.model, year, IntOrZero(row.doors), row.fuel)))
      else if t == "bike" then Ok(Some(Bike(id, row.brand, row.model, year, BoolOrFalse(row.sidecar), row.category)))
      else if t == "truck" then
        Ok(Some(Truck(id, row.brand, row.model, year, RealOrZero(row.payload), BoolOrFalse(row.trailer))))
      else if t == "motorcycle" then
        Ok(Some(Motorcycle(id, row.brand, row.model, year, IntOrZero(row.cc), row.category)))
      else Ok(None)
  }

  /**
   * Reading back the row written for a vehicle gives the same vehicle for a
   * car, a bike and a truck, and a motorcycle whose category is null.
   */
  lemma ReadRowOf(v: Vehicle)
    ensures ReadRow(v.id, RowOf(v)) == Ok(Some(Kept(v)))
  {
    LowerTypeNames();
  }

  /** A motorcycle with a category does not read back as itself. */
  lemma MotorcycleCategoryLost(v: Vehicle)
    requires v.Motorcycle? && v.category.Some?
    ensures ReadRow(v.id, RowOf(v)) != Ok(Some(v))
    ensures ReadRow(v.id, RowOf(v)).value.value.category.None?
  {
    ReadRowOf(v);
  }

  /** The row with a motorcycle's category stored in the category column, as for a bike. */
  function RowOfFixed(v: Vehicle): (r: Row)
    ensures !v.Motorcycle? ==> r == RowOf(v)
    ensures v.Motorcycle? ==> r == RowOf(v).(category := v.category)
  {
    var base := Row(Some(TypeName(v)), v.brand, v.model, Some(v.year), None, None, None, None, None, None, None);
    match v
    case Car(_, _, _, _, doors, fuel) => base.(doors := Some(doors), fuel := fuel)
    case Bike(_, _, _, _, side, cat) => base.(sidecar := Some(side), category := cat)
    case Truck(_, _, _, _, payload, trailer) => base.(payload := Some(payload), trailer := Some(trailer))
    case Motorcycle(_, _, _, _, cc, cat) => base.(cc := Some(cc), category := cat)
  }

  /** With the corrected row every variant reads back as it was written. */
  lemma ReadRowOfFixed(v: Vehicle)
    ensures ReadRow(v.id, RowOfFixed(v)) == Ok(Some(v))
  {
    LowerTypeNames();
  }

  /**
   * The whole-table read in the order `keys` lists the rows (SELECT *
   * leaves the order to the database): one entry per row, None for a row
   * of unknown type; Err at the first row whose type is NULL.
   */
  function ReadRows(keys: seq<string>, table: map<string, Row>): Result<seq<Option<Vehicle>>, string>
    requires forall k :: k in keys ==> k in table
    decreases |keys|
  {
    if keys == [] then Ok([])
    else
      match ReadRow(keys[0], table[keys[0]])
      case Err(e) => Err(e)
      case Ok(x) =>
        match ReadRows(keys[1..], table)
        case Err(e) => Err(e)
        case Ok(xs) => Ok([x] + xs)
  }

  /** A successful whole-table read has one entry per listed row, each that row read on its own. */
  lemma {:induction false} ReadRowsEntries(keys: seq<string>, table: map<string, Row>)
    requires forall k :: k in keys ==> k in table
    ensures ReadRows(keys, table).Ok? <==> forall i :: 0 <= i < |keys| ==> table[keys[i]].vtype.Some?
    ensures ReadRows(keys, table).Ok? ==>
              |ReadRows(keys, table).value| == |keys| &&
              forall i :: 0 <= i < |keys| ==> ReadRow(keys[i], table[keys[i]]) == Ok(ReadRows(keys, table).value[i])
    decreases |keys|
  {
    if keys != [] {
      ReadRowsEntries(keys[1..], table);
      assert forall i :: 1 <= i < |keys| ==> keys[i] == keys[1..][i - 1];
    }
  }

  /** An ordering of a table's rows: every key once. */
  ghost predicate Enumerates(keys: seq<string>, table: map<string, Row>) {
    (forall k :: k in keys <==> k in table) &&
    (forall i, j :: 0 <= i < j < |keys| ==> keys[i] != keys[j])
  }

  /** The sample vehicles init seeds, with the ids the constructors mint. */
  function Samples(ids: seq<string>): (r: seq<Vehicle>)
    requires |ids| == 4
    ensures |r| == 4 && forall i :: 0 <= i < 4 ==> r[i].id == ids[i]
  {
    [Car(ids[0], Some("Toyota"), Some("Camry"), 2021, 4, Some("Petrol")),
     Bike(ids[1], Some("Honda"), Some("CB500F"), 2020, false, Some("Sports")),
     Truck(ids[2], Some("Ford"), Some("F-150"), 2019, 1500.0, false),
     Motorcycle(ids[3], Some("Yamaha"), Some("R1"), 2022, 1000, Some("Sports"))]
  }

  /**
   * Inserting vehicles one after another, stopping at the first whose id is
   * already a key (the primary key rejects it, and the rest are skipped).
   */
  function InsertAll(table: map<string, Row>, vs: seq<Vehicle>): (r: map<string, Row>)
    ensures table.Keys <= r.Keys
    decreases |vs|
  {
    if vs == [] || vs[0].id in table then table
    else InsertAll(table[vs[0].id := RowOf(vs[0])], vs[1..])
  }

  /** With fresh, distinct ids every vehicle's row is inserted and the other rows are kept. */
  lemma {:induction false} InsertAllFresh(table: map<string, Row>, vs: seq<Vehicle>)
    requires forall i :: 0 <= i < |vs| ==> vs[i].id !in table
    requires forall i, j :: 0 <= i < j < |vs| ==> vs[i].id != vs[j].id
    ensures forall i :: 0 <= i < |vs| ==> vs[i].id in InsertAll(table, vs) && InsertAll(table, vs)[vs[i].id] == RowOf(vs[i])
    ensures forall k :: k in table ==> k in InsertAll(table, vs) && InsertAll(table, vs)[k] == table[k]
    ensures forall k :: k in InsertAll(table, vs) ==> k in table || exists i :: 0 <= i < |vs| && vs[i].id == k
    decreases |vs|
  {
    if vs != [] {
      var t' := table[vs[0].id := RowOf(vs[0])];
      assert forall i :: 0 <= i < |vs[1..]| ==> vs[1..][i] == vs[i + 1];
      InsertAllFresh(t', vs[1..]);
      forall k | k in InsertAll(table, vs)
        ensures k in table || exists i :: 0 <= i < |vs| && vs[i].id == k
      {
        if k !in t' {
          var i :| 0 <= i < |vs[1..]| && vs[1..][i].id == k;
          assert vs[i + 1].id == k;
        } else if k !in table {
          assert vs[0].id == k;
        }
      }
    }
  }

  /** The DAO over its table. url, user and password only reach the driver. */
  class VehicleDaoJdbc {
    var table: map<string, Row>

    /** Both constructors only store the connection settings; the table is the database's. */
    constructor (table: map<string, Row>)
      ensures this.table == table
    {
      this.table := table;
    }

    /**
     * init: CREATE TABLE IF NOT EXISTS leaves an existing table alone; an
     * empty table receives the four samples, and an insert that fails ends
     * the seeding silently.
     */
    method Init(ids: seq<string>)
      requires |ids| == 4
      modifies this
      ensures |old(table)| != 0 ==> table == old(table)
      ensures |old(table)| == 0 ==> table == InsertAll(old(table), Samples(ids))
    {
      if |table| == 0 {
        var samples := Samples(ids);
        var i := 0;
        while i < 4
          invariant 0 <= i <= 4
          invariant InsertAll(table, samples[i..]) == InsertAll(old(table), samples)
        {
          assert samples[i..][0] == samples[i] && samples[i..][1..] == samples[i + 1..];
          var r := AddVehicle(samples[i]);
          if r.Err? {
            return;
          }
          i := i + 1;
        }
      }
    }

    /** addVehicle: inserts the vehicle's row; fails on an id that is already a key. */
    method AddVehicle(v: Vehicle) returns (r: Result<(), string>)
      modifies this
      ensures r.Err? <==> v.id in old(table)
      ensures r.Err? ==> table == old(table)
      ensures r.Ok? ==> table == old(table)[v.id := RowOf(v)]
    {
      if v.id in table {
        return Err("duplicate primary key");
      }
      table := table[v.id := RowOf(v)];
      return Ok(());
    }

    /** updateVehicle: rewrites every column but id; true exactly when the id was a key. */
    method UpdateVehicle(v: Vehicle) returns (updated: bool)
      modifies this
      ensures updated <==> v.id in old(table)
      ensures updated ==> table == old(table)[v.id := RowOf(v)]
      ensures !updated ==> table == old(table)
    {
      updated := v.id in table;
      if updated {
        table := table[v.id := RowOf(v)];
      }
    }

    /** removeVehicleById: deletes the row; true exactly when one was deleted. */
    method RemoveVehicleById(id: string) returns (removed: bool)
      modifies this
      ensures removed <==> id in old(table)
      ensures table == old(table) - {id}
    {
      removed := id in table;
      table := table - {id};
    }

    /** getVehicleById: null (Ok(None)) without a row, else the row read back. */
    method GetVehicleById(id: string) returns (r: Result<Option<Vehicle>, string>)
      ensures id !in table ==> r == Ok(None)
      ensures id in table ==> r == ReadRow(id, table[id])
    {
      if id in table {
        r := ReadRow(id, table[id]);
      } else {
        r := Ok(None);
      }
    }

    /**
     * getAllVehicles: every row in the order the database returns them
     * (`keys`), read one by one; a row of unknown type gives a null entry.
     */
    method GetAllVehicles(keys: seq<string>) returns (r: Result<seq<Option<Vehicle>>, string>)
      requires Enumerates(keys, table)
      ensures r == ReadRows(keys, table)
      ensures r.Ok? ==> |r.value| == |table|
    {
      var list: seq<Option<Vehicle>> := [];
      var i := 0;
      assert keys[i..] == keys;
      PrependNothing(ReadRows(keys, table));
      while i < |keys|
        invariant 0 <= i <= |keys|
        invariant ReadRows(keys, table) == Prepend(list, ReadRows(keys[i..], table))
      {
        assert keys[i..][0] == keys[i] && keys[i..][1..] == keys[i + 1..];
        var x := ReadRow(keys[i], table[keys[i]]);
        if x.Err? {
          return Err(x.error);
        }
        PrependSnoc(list, x.value, ReadRows(keys[i + 1..], table));
        list := list + [x.value];
        i := i + 1;
      }
      r := Ok(list);
      assert list + [] == list;
      ReadAllSize(keys, table);
    }
  }

  /** A successful read of an enumeration of the table has one entry per row. */
  lemma ReadAllSize(keys: seq<string>, table: map<string, Row>)
    requires Enumerates(keys, table)
    ensures ReadRows(keys, table).Ok? ==> |ReadRows(keys, table).value| == |table|
  {
    EnumerationSize(keys, table);
    ReadRowsEntries(keys, table);
  }

  /** Entries already read in front of the result of reading the rest. */
  function Prepend(done: seq<Option<Vehicle>>, rest: Result<seq<Option<Vehicle>>, string>): Result<seq<Option<Vehicle>>, string> {
    match rest
    case Err(e) => Err(e)
    case Ok(xs) => Ok(done + xs)
  }

  lemma PrependNothing(rest: Result<seq<Option<Vehicle>>, string>)
    ensures Prepend([], rest) == rest
  {
    if rest.Ok? {
      assert [] + rest.value == rest.value;
    }
  }

  lemma PrependSnoc(done: seq<Option<Vehicle>>, x: Option<Vehicle>, rest: Result<seq<Option<Vehicle>>, string>)
    ensures Prepend(done, Prepend([x], rest)) == Prepend(done + [x], rest)
  {
    if rest.Ok? {
      assert done + ([x] + rest.value) == done + [x] + rest.value;
    }
  }

  /** An enumeration of a table's keys is as long as the table. */
  lemma EnumerationSize(keys: seq<string>, table: map<string, Row>)
    requires Enumerates(keys, table)
    ensures |keys| == |table|
  {
    var ks := set k | k in keys;
    assert ks == table.Keys;
    DistinctCard(keys);
  }

  lemma {:induction false} DistinctCard(keys: seq<string>)
    requires forall i, j :: 0 <= i < j < |keys| ==> keys[i] != keys[j]
    ensures |set k | k in keys| == |keys|
    decreases |keys|
  {
    if keys != [] {
      DistinctCard(keys[1..]);
      var rest := set k | k in keys[1..];
      assert (set k | k in keys) == rest + {keys[0]};
      assert keys[0] !in rest;
    }
  }

  /**
   * Seeding an empty table with fresh, distinct ids leaves exactly the four
   * samples; the car, the bike and the truck read back as they were built,
   * and the motorcycle reads back without its "Sports" category.
   */
  lemma SeededSamples(ids: seq<string>)
    requires |ids| == 4 && forall i, j :: 0 <= i < j < 4 ==> ids[i] != ids[j]
    ensures var t := InsertAll(map[], Samples(ids));
            t.Keys == (set i | 0 <= i < 4 :: ids[i]) &&
            (forall i :: 0 <= i < 3 ==> ReadRow(ids[i], t[ids[i]]) == Ok(Some(Samples(ids)[i]))) &&
            ReadRow(ids[3], t[ids[3]]) == Ok(Some(Motorcycle(ids[3], Some("Yamaha"), Some("R1"), 2022, 1000, None)))
  {
    var vs := Samples(ids);
    InsertAllFresh(map[], vs);
    ReadRowOf(vs[0]);
    ReadRowOf(vs[1]);
    ReadRowOf(vs[2]);
    ReadRowOf(vs[3]);
  }
}
