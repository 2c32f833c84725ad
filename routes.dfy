/**
  The state the handlers of app/routes.py change in place: the `users` and
  `vehiculos` tables, the logged-in user of the current session, the global
  `sensor_status` dictionary and the `parking_superior` rows. Each handler is
  a method written the way the source proceeds, proved to agree with the
  corresponding function of Registry or Sensor and to keep the tables valid.
*/
module Routes {
  import opened Options
  import Registry
  import Sensor

  /** The global `sensor_status`: "unknown" until a reading arrives. */
  datatype SensorStatus = Unknown | Reported(status: int)

  class App {
    var users: set<nat>
    var vehicles: map<nat, Registry.Vehicle>
    var nextId: nat
    /** `session['user_id']`, when someone is logged in. */
    var session: Option<nat>
    var sensorStatus: SensorStatus
    /** `parking_superior`: occupancy by spot number. */
    var upperLot: map<int, int>

    function Tables(): Registry.Tables
      reads this
    {
      Registry.Tables(users, vehicles, nextId)
    }

    predicate Valid()
      reads this
    {
      Registry.Valid(Tables())
    }

    constructor (t: Registry.Tables, lot: map<int, int>)
      requires Registry.Valid(t)
      ensures Valid() && Tables() == t
      ensures session == None && sensorStatus == Unknown && upperLot == lot
    {
      users, vehicles, nextId := t.users, t.vehicles, t.nextId;
      session := None;
      sensorStatus := Unknown;
      upperLot := lot;
    }

    /** `create_vehicle` on POST. */
    method CreateVehicle(f: Registry.Form) returns (outcome: Registry.Outcome)
      requires Valid()
      modifies this
      ensures Valid()
      ensures Registry.Create(old(Tables()), old(session), f) == Registry.Step(Tables(), outcome)
      ensures session == old(session) && sensorStatus == old(sensorStatus) && upperLot == old(upperLot)
    {
      if session.None? {
        return Registry.LoginRequired;
      }
      var user := session.value;
      if user !in users {
        return Registry.UserNotFound;
      }
      if !Registry.Complete(f) {
        return Registry.FieldsMissing;
      }
      var plate := f.matricula.value;
      var existing := exists j :: j in vehicles && vehicles[j].matricula == Some(plate);
      if existing {
        return Registry.PlateTaken;
      }
      var id := nextId;
      vehicles := vehicles[id := Registry.Vehicle(user, f.marca, f.modelo, f.matricula, f.color)];
      nextId := nextId + 1;
      outcome := Registry.Created(id);
    }

    /**
      `edit_vehicle` on POST. The plate test takes whichever vehicle the
      query returns first among those holding the plate and reports a
      conflict when it is not the edited one.
    */
    method EditVehicle(id: nat, f: Registry.Form) returns (outcome: Registry.Outcome)
      requires Valid()
      modifies this
      ensures Valid()
      ensures Registry.Edit(old(Tables()), old(session), id, f) == Registry.Step(Tables(), outcome)
      ensures session == old(session) && sensorStatus == old(sensorStatus) && upperLot == old(upperLot)
    {
      if session.None? {
        return Registry.LoginRequired;
      }
      if id !in vehicles {
        return Registry.VehicleNotFound;
      }
      var vehicle := vehicles[id];
      if vehicle.owner != session.value {
        return Registry.NotOwner;
      }
      if !Registry.Complete(f) {
        return Registry.FieldsMissing;
      }
      var plate := f.matricula.value;
      var holders := set j | j in vehicles && vehicles[j].matricula == Some(plate);
      var first: Option<nat> := None;
      if holders != {} {
        var holder :| holder in holders;
        first := Some(holder);
      } else {
        assert forall j :: j in vehicles && vehicles[j].matricula == Some(plate) ==> j in holders;
      }
      Registry.FirstHolderDecidesConflict(vehicles, plate, id, first);
      if Registry.ReportsConflict(first, id) {
        return Registry.PlateTaken;
      }
      vehicle := vehicle.(marca := f.marca, modelo := f.modelo, matricula := f.matricula, color := f.color);
      vehicles := vehicles[id := vehicle];
      outcome := Registry.Updated;
    }

    /** `delete_vehicle`. */
    method DeleteVehicle(id: nat) returns (outcome: Registry.Outcome)
      requires Valid()
      modifies this
      ensures Valid()
      ensures Registry.Delete(old(Tables()), old(session), id) == Registry.Step(Tables(), outcome)
      ensures session == old(session) && sensorStatus == old(sensorStatus) && upperLot == old(upperLot)
    {
      if session.None? {
        return Registry.LoginRequired;
      }
      if id !in vehicles {
        return Registry.VehicleNotFound;
      }
      if vehicles[id].owner != session.value {
        return Registry.NotOwner;
      }
      vehicles := vehicles - {id};
      outcome := Registry.Deleted;
    }

    /** The vehicle insert of `register`, once the new user `user` is stored. */
    method RegisterVehicle(user: nat, f: Registry.Form) returns (outcome: Registry.Outcome)
      requires Valid() && user in users
      modifies this
      ensures Valid()
      ensures Registry.Register(old(Tables()), user, f) == Registry.Step(Tables(), outcome)
      ensures session == old(session) && sensorStatus == old(sensorStatus) && upperLot == old(upperLot)
    {
      if Registry.AnyFilled(f) {
        if f.matricula.Some? && exists j :: j in vehicles && vehicles[j].matricula == f.matricula {
          return Registry.IntegrityError;
        }
        vehicles := vehicles[nextId := Registry.Vehicle(user, f.marca, f.modelo, f.matricula, f.color)];
        nextId := nextId + 1;
      }
      outcome := Registry.Registered;
    }

    /**
      `receive_sensor_data`: a reading that `int()` accepts becomes the
      reported status and the occupancy of spot 2 of the upper lot (when
      that row exists); any other request changes nothing.
    */
    method ReceiveSensorData(body: Option<Sensor.Json>) returns (reply: Sensor.Reply)
      modifies this
      ensures reply == Sensor.Receive(body)
      ensures reply.Stored? ==> sensorStatus == Reported(reply.status)
      ensures reply.Stored? ==>
        upperLot == if 2 in old(upperLot) then old(upperLot)[2 := reply.status] else old(upperLot)
      ensures !reply.Stored? ==> sensorStatus == old(sensorStatus) && upperLot == old(upperLot)
      ensures Tables() == old(Tables()) && session == old(session)
    {
      if body.None? || !Sensor.Truthy(body.value) {
        return Sensor.InvalidData;
      }
      var data := body.value;
      var present := Sensor.In(Sensor.StatusKey, data);
      if !present.Value? {
        return Sensor.InternalError;
      }
      if !present.value {
        return Sensor.InvalidData;
      }
      var field := Sensor.Index(data, Sensor.StatusKey);
      if !field.Value? {
        return Sensor.InternalError;
      }
      var converted := Sensor.ToInt(field.value);
      if converted.ValueError? {
        return Sensor.InvalidStatus;
      }
      if !converted.Value? {
        return Sensor.InternalError;
      }
      var status := converted.value;
      sensorStatus := Reported(status);
      if 2 in upperLot {
        upperLot := upperLot[2 := status];
      }
      reply := Sensor.Stored(status);
    }
  }
}
