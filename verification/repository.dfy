/**
 * VehicleDatabaseRepository: the repository interface served by an
 * in-memory VehicleDatabase, every call forwarded to it.
 */
module Repository {
  import opened Wrappers
  import opened JavaText
  import opened Vehicles
  import opened Catalogue
  import opened Snapshot
  import opened Database

  class VehicleDatabaseRepository {
    const db: VehicleDatabase

    /** The default constructor makes its own, empty catalogue. */
    constructor ()
      ensures fresh(db) && db.vehicles == []
    {
      db := new VehicleDatabase();
    }

    /** The other constructor serves a catalogue it shares with the caller. */
    constructor Sharing(db: VehicleDatabase)
      ensures this.db == db
    {
      this.db := db;
    }

    /** init: nothing to prepare for an in-memory catalogue. */
    method Init()
      ensures db.vehicles == old(db.vehicles)
    {
    }

    method AddVehicle(v: Vehicle)
      modifies db
      ensures db.vehicles == old(db.vehicles) + [v]
    {
      db.AddVehicle(v);
    }

    method RemoveVehicleById(id: string) returns (removed: bool)
      modifies db
      ensures db.vehicles == RemoveAll(old(db.vehicles), id)
      ensures removed <==> exists i :: 0 <= i < |old(db.vehicles)| && old(db.vehicles)[i].id == id
    {
      removed := db.RemoveVehicleById(id);
    }

    method UpdateVehicle(v: Vehicle) returns (updated: bool)
      modifies db
      ensures db.vehicles == UpdateFirst(old(db.vehicles), v)
      ensures updated <==> exists i :: 0 <= i < |old(db.vehicles)| && old(db.vehicles)[i].id == v.id
    {
      updated := db.UpdateVehicle(v);
    }

    method GetAllVehicles() returns (all: seq<Vehicle>)
      ensures all == db.vehicles
    {
      all := db.GetAllVehicles();
    }

    method GetVehicleById(id: string) returns (r: Option<Vehicle>)
      ensures r == FindById(db.vehicles, id)
    {
      r := db.GetVehicleById(id);
    }

    method SaveToJson(dt: DoubleText) returns (text: Option<string>)
      ensures text == SaveText(db.vehicles, dt)
    {
      text := db.SaveToJson(dt);
    }

    method LoadFromJson(lines: seq<string>, dt: DoubleText, missingId: string)
      modifies db
      ensures lines == [] ==> db.vehicles == old(db.vehicles)
      ensures lines != [] ==> db.vehicles == LoadText(Join(lines, "\n"), dt, missingId)
    {
      db.LoadFromJson(lines, dt, missingId);
    }
  }
}
