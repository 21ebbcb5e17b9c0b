/**
 * The HTTP server over an in-memory VehicleDatabase: one method per
 * handler, each taking the request's method, path and form text and
 * returning what the handler sends back. The transport, the routing of
 * paths to handlers and the files are not part of this model.
 */
module Web {
  import opened Wrappers
  import opened JavaText
  import opened Vehicles
  import opened Catalogue
  import opened Snapshot
  import opened Database
  import opened WebText

  /**
   * A request as the handlers see it: the method, the path, the raw query
   * string (null when the URI has none) and the body's lines joined by "\n".
   */
  datatype Request = Request(verb: string, path: string, rawQuery: JStr, body: string)

  /**
   * What a handler sends: a status with no body, a 200 reply with a JSON
   * body, or nothing at all because an exception escaped the handler.
   */
  datatype Reply = Status(code: int) | Json(text: string) | Aborted

  /**
   * What the handlers take from outside: the URL decoder (None where it
   * throws), Double's text conversions, the id a new vehicle receives and
   * the message of a NumberFormatException for the text it refused.
   */
  datatype Env = Env(decode: string -> Option<string>, dt: DoubleText, freshId: string, numberError: string -> string)

  /** The request's method is `name`, ignoring case. */
  predicate IsVerb(r: Request, name: string) {
    EqualsIgnoreCase(r.verb, name)
  }

  /** parseQuery: a GET reads the URI's raw query, any other method its body. None where decoding throws. */
  function QueryOf(r: Request, decode: string -> Option<string>): Option<map<string, string>> {
    if IsVerb(r, "GET") then ParseForm(r.rawQuery, decode) else ParseForm(Some(r.body), decode)
  }

  /** The lower-cased "type" parameter, "" when absent. */
  function TypeParam(params: map<string, string>): string {
    Lower(GetOrDefault(params, "type", ""))
  }

  function OkIs(b: bool): string {
    "{\"ok\": " + BoolText(b) + "}"
  }

  const OkTrue: string := "{\"ok\":true}"
  const IdMissing: string := "{\"ok\":false, \"error\":\"id missing\"}"
  const UnknownType: string := "{\"ok\":false, \"error\":\"unknown type\"}"

  function Failed(message: string): string {
    "{\"ok\":false, \"error\":\"" + message + "\"}"
  }

  /** A JSON body, or no reply when writing it threw. */
  function Send(body: Option<string>): Reply {
    if body.None? then Aborted else Json(body.value)
  }

  class Server {
    const db: VehicleDatabase

    /** The server starts from the snapshot file's lines (none when the file is missing or empty). */
    constructor (lines: seq<string>, dt: DoubleText, missingId: string)
      ensures fresh(db)
      ensures db.vehicles == if lines == [] then [] else LoadText(Join(lines, "\n"), dt, missingId)
    {
      db := new VehicleDatabase();
      new;
      db.LoadFromJson(lines, dt, missingId);
    }

    /**
     * handleVehicles. A path with an id: GET answers the vehicle or 404,
     * DELETE removes it, PUT or POST rewrites it keeping the id, anything
     * else is 405. Otherwise only GET is served: the list, filtered.
     */
    method HandleVehicles(r: Request, env: Env) returns (reply: Reply)
      modifies db
      ensures PathId(r.path).Some? && IsVerb(r, "GET") ==>
                db.vehicles == old(db.vehicles) &&
                reply == match FindById(db.vehicles, PathId(r.path).value)
                         case None => Status(404)
                         case Some(v) => Send(VehicleToJson(v, env.dt))
      ensures PathId(r.path).Some? && !IsVerb(r, "GET") && IsVerb(r, "DELETE") ==>
                db.vehicles == RemoveAll(old(db.vehicles), PathId(r.path).value) &&
                reply == Json(OkIs(exists i :: 0 <= i < |old(db.vehicles)| && old(db.vehicles)[i].id == PathId(r.path).value))
      ensures PathId(r.path).Some? && !IsVerb(r, "GET") && !IsVerb(r, "DELETE") && (IsVerb(r, "PUT") || IsVerb(r, "POST")) ==>
                match QueryOf(r, env.decode)
                case None => reply == Aborted && db.vehicles == old(db.vehicles)
                case Some(params) =>
                  match DecodeParams(TypeParam(params), params, PathId(r.path), env.freshId, env.dt)
                  case Err(_) => reply == Aborted && db.vehicles == old(db.vehicles)
                  case Ok(None) => reply == Json(UnknownType) && db.vehicles == old(db.vehicles)
                  case Ok(Some(pv)) =>
                    db.vehicles == UpdateFirst(old(db.vehicles), pv) &&
                    reply == Json(OkIs(exists i :: 0 <= i < |old(db.vehicles)| && old(db.vehicles)[i].id == pv.id))
      ensures PathId(r.path).Some? && !(IsVerb(r, "GET") || IsVerb(r, "DELETE") || IsVerb(r, "PUT") || IsVerb(r, "POST")) ==>
                reply == Status(405) && db.vehicles == old(db.vehicles)
      ensures PathId(r.path).None? ==> db.vehicles == old(db.vehicles)
      ensures PathId(r.path).None? && !IsVerb(r, "GET") ==> reply == Status(405)
      ensures PathId(r.path).None? && IsVerb(r, "GET") ==>
                reply == match ParseForm(r.rawQuery, env.decode)
                         case None => Aborted
                         case Some(q) =>
                           match ListFilter(db.vehicles, Get(q, "brand"), Get(q, "type"))
                           case None => Aborted
                           case Some(list) => Send(ListJson(list, env.dt))
    {
      var id := PathId(r.path);
      if id.Some? {
        if IsVerb(r, "GET") {
          var v := db.GetVehicleById(id.value);
          if v.None? {
            return Status(404);
          }
          reply := Send(VehicleToJson(v.value, env.dt));
          return;
        } else if IsVerb(r, "DELETE") {
          var removed := db.RemoveVehicleById(id.value);
          return Json(OkIs(removed));
        } else if IsVerb(r, "PUT") || IsVerb(r, "POST") {
          var params := QueryOf(r, env.decode);
          if params.None? {
            return Aborted;
          }
          var pv := DecodeParams(TypeParam(params.value), params.value, id, env.freshId, env.dt);
          if pv.Err? {
            return Aborted;
          }
          if pv.value.None? {
            return Json(UnknownType);
          }
          var ok := db.UpdateVehiclePreserveId(pv.value.value);
          return Json(OkIs(ok));
        } else {
          return Status(405);
        }
      }
      if !IsVerb(r, "GET") {
        return Status(405);
      }
      var query := Parse(r.rawQuery, env.decode);
      if query.None? {
        return Aborted;
      }
      var list := db.GetAllVehicles();
      var filtered := ListFilter(list, Get(query.value, "brand"), Get(query.value, "type"));
      if filtered.None? {
        return Aborted;
      }
      var body := ToJson(filtered.value, env.dt);
      reply := Send(body);
    }

    /**
     * handleAdd: POST only; the decoded vehicle is appended under a new id;
     * an unknown type or a number that does not parse is answered, not added.
     */
    method HandleAdd(r: Request, env: Env) returns (reply: Reply)
      modifies db
      ensures !IsVerb(r, "POST") ==> reply == Status(405) && db.vehicles == old(db.vehicles)
      ensures IsVerb(r, "POST") ==>
                match QueryOf(r, env.decode)
                case None => reply == Aborted && db.vehicles == old(db.vehicles)
                case Some(params) =>
                  match DecodeParams(TypeParam(params), params, None, env.freshId, env.dt)
                  case Err(text) => reply == Json(Failed(env.numberError(text))) && db.vehicles == old(db.vehicles)
                  case Ok(None) => reply == Json(UnknownType) && db.vehicles == old(db.vehicles)
                  case Ok(Some(v)) => reply == Json(OkTrue) && db.vehicles == old(db.vehicles) + [v] && v.id == env.freshId
    {
      if !IsVerb(r, "POST") {
        return Status(405);
      }
      var params := QueryOf(r, env.decode);
      if params.None? {
        return Aborted;
      }
      var v := DecodeParams(TypeParam(params.value), params.value, None, env.freshId, env.dt);
      if v.Err? {
        return Json(Failed(env.numberError(v.error)));
      }
      if v.value.Some? {
        db.AddVehicle(v.value.value);
        return Json(OkTrue);
      }
      reply := Json(UnknownType);
    }

    /**
     * handleDelete: an id in the path (DELETE or POST), else the "id"
     * parameter of a POST; either way every vehicle with that id goes.
     */
    method HandleDelete(r: Request, env: Env) returns (reply: Reply)
      modifies db
      ensures DeletePathId(r.path).Some? && !IsVerb(r, "DELETE") && !IsVerb(r, "POST") ==>
                reply == Status(405) && db.vehicles == old(db.vehicles)
      ensures DeletePathId(r.path).Some? && (IsVerb(r, "DELETE") || IsVerb(r, "POST")) ==>
                var id := DeletePathId(r.path).value;
                db.vehicles == RemoveAll(old(db.vehicles), id) &&
                reply == Json(OkIs(exists i :: 0 <= i < |old(db.vehicles)| && old(db.vehicles)[i].id == id))
      ensures DeletePathId(r.path).None? && !IsVerb(r, "POST") ==> reply == Status(405) && db.vehicles == old(db.vehicles)
      ensures DeletePathId(r.path).None? && IsVerb(r, "POST") ==>
                match QueryOf(r, env.decode)
                case None => reply == Aborted && db.vehicles == old(db.vehicles)
                case Some(params) =>
                  if "id" !in params then reply == Json(IdMissing) && db.vehicles == old(db.vehicles)
                  else
                    db.vehicles == RemoveAll(old(db.vehicles), params["id"]) &&
                    reply == Json(OkIs(exists i :: 0 <= i < |old(db.vehicles)| && old(db.vehicles)[i].id == params["id"]))
    {
      var pathId := DeletePathId(r.path);
      if pathId.Some? {
        if !IsVerb(r, "DELETE") && !IsVerb(r, "POST") {
          return Status(405);
        }
        var removed := db.RemoveVehicleById(pathId.value);
        return Json(OkIs(removed));
      }
      if !IsVerb(r, "POST") {
        return Status(405);
      }
      var params := QueryOf(r, env.decode);
      if params.None? {
        return Aborted;
      }
      var id := Get(params.value, "id");
      if id.None? {
        return Json(IdMissing);
      }
      var removed := db.RemoveVehicleById(id.value);
      reply := Json(OkIs(removed));
    }

    /**
     * handleUpdate: POST or PUT; the "id" parameter wins over the path's id,
     * and with neither the request is refused without touching the
     * catalogue. The vehicle decoded with that id replaces the first one
     * carrying it.
     */
    method HandleUpdate(r: Request, env: Env) returns (reply: Reply)
      modifies db
      ensures !(IsVerb(r, "POST") || IsVerb(r, "PUT")) ==> reply == Status(405) && db.vehicles == old(db.vehicles)
      ensures (IsVerb(r, "POST") || IsVerb(r, "PUT")) ==>
                match QueryOf(r, env.decode)
                case None => reply == Aborted && db.vehicles == old(db.vehicles)
                case Some(params) =>
                  var id := if "id" in params then Some(params["id"]) else PathId(r.path);
                  if id.None? then reply == Json(IdMissing) && db.vehicles == old(db.vehicles)
                  else
                    match DecodeParams(TypeParam(params), params, id, env.freshId, env.dt)
                    case Err(text) => reply == Json(Failed(env.numberError(text))) && db.vehicles == old(db.vehicles)
                    case Ok(None) => reply == Json(UnknownType) && db.vehicles == old(db.vehicles)
                    case Ok(Some(pv)) =>
                      pv.id == id.value && db.vehicles == UpdateFirst(old(db.vehicles), pv) &&
                      reply == Json(OkIs(exists i :: 0 <= i < |old(db.vehicles)| && old(db.vehicles)[i].id == id.value))
    {
      var idFromPath := PathId(r.path);
      if !IsVerb(r, "POST") && !IsVerb(r, "PUT") {
        return Status(405);
      }
      var params := QueryOf(r, env.decode);
      if params.None? {
        return Aborted;
      }
      var id := Get(params.value, "id");
      if id.None? {
        id := idFromPath;
      }
      var t := TypeParam(params.value);
      if id.None? {
        return Json(IdMissing);
      }
      var v := DecodeParams(t, params.value, None, env.freshId, env.dt);
      DecodeWithId(t, params.value, id.value, env.freshId, env.dt);
      if v.Err? {
        return Json(Failed(env.numberError(v.error)));
      }
      if v.value.None? {
        return Json(UnknownType);
      }
      var pv := DecodeParams(t, params.value, id, env.freshId, env.dt);
      if pv.Ok? && pv.value.Some? {
        var ok := db.UpdateVehiclePreserveId(pv.value.value);
        return Json(OkIs(ok));
      }
      // The replace fallback: a request that decodes without the id decodes with it too.
      assert false;
    }

    /** handleSaveJson: POST only; the snapshot text to write, None when nothing is written. */
    method HandleSaveJson(r: Request, dt: DoubleText) returns (reply: Reply, written: Option<string>)
      ensures !IsVerb(r, "POST") ==> reply == Status(405) && written.None?
      ensures IsVerb(r, "POST") ==>
                written == SaveText(db.vehicles, dt) && reply == if written.None? then Aborted else Json(OkTrue)
    {
      if !IsVerb(r, "POST") {
        return Status(405), None;
      }
      written := db.SaveToJson(dt);
      reply := if written.None? then Aborted else Json(OkTrue);
    }

    /** handleLoadJson: POST only; reloads the catalogue from the snapshot file's lines. */
    method HandleLoadJson(r: Request, lines: seq<string>, dt: DoubleText, missingId: string) returns (reply: Reply)
      modifies db
      ensures !IsVerb(r, "POST") ==> reply == Status(405) && db.vehicles == old(db.vehicles)
      ensures IsVerb(r, "POST") ==> reply == Json(OkTrue)
      ensures IsVerb(r, "POST") && lines == [] ==> db.vehicles == old(db.vehicles)
      ensures IsVerb(r, "POST") && lines != [] ==> db.vehicles == LoadText(Join(lines, "\n"), dt, missingId)
    {
      if !IsVerb(r, "POST") {
        return Status(405);
      }
      db.LoadFromJson(lines, dt, missingId);
      reply := Json(OkTrue);
    }
  }
}
