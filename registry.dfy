/**
  The rules of the vehicle handlers of app/routes.py over the `vehiculos`
  table (app/models.py:18-26), as functions from the tables, the session and
  the submitted form to the new tables and the outcome. Every handler here
  is the POST branch; a GET only reads and renders.
*/
module Registry {
  import opened Options

  /** A row of `vehiculos`: the owning user and four nullable text columns. */
  datatype Vehicle = Vehicle(
    owner: nat,
    marca: Option<string>,
    modelo: Option<string>,
    matricula: Option<string>,
    color: Option<string>)

  /** The four fields of a vehicle form; None when the field was not sent. */
  datatype Form = Form(
    marca: Option<string>,
    modelo: Option<string>,
    matricula: Option<string>,
    color: Option<string>)

  /** The ids of `users` and the rows of `vehiculos` by id; `nextId` is the
      id the database hands out to the next inserted vehicle. */
  datatype Tables = Tables(users: set<nat>, vehicles: map<nat, Vehicle>, nextId: nat)

  /** How a handler ends: the redirect it answers with, and why. */
  datatype Outcome =
    | LoginRequired     // no `user_id` in the session: redirect to /login
    | UserNotFound      // the session names no user: redirect to /login
    | VehicleNotFound   // no vehicle with that id
    | NotOwner          // the vehicle belongs to another user
    | FieldsMissing     // some form field is absent or empty
    | PlateTaken        // the plate is registered to another vehicle
    | Created(id: nat)  // the new vehicle's id
    | Updated
    | Deleted
    | Registered        // the register form was stored
    | IntegrityError    // the database refused the vehicle row

  /** A handler's result: the tables afterwards and the outcome. */
  datatype Step = Step(tables: Tables, outcome: Outcome)

  /** Python truthiness of `request.form.get(name)`: sent and non-empty. */
  predicate Filled(field: Option<string>) {
    field.Some? && field.value != ""
  }

  /** All four fields are filled. */
  predicate Complete(f: Form) {
    Filled(f.marca) && Filled(f.modelo) && Filled(f.matricula) && Filled(f.color)
  }

  /** The vehicle row a form describes, for the given owner. */
  function FromForm(owner: nat, f: Form): Vehicle {
    Vehicle(owner, f.marca, f.modelo, f.matricula, f.color)
  }

  /** Some vehicle carries the plate. */
  predicate PlateInUse(vehicles: map<nat, Vehicle>, plate: string) {
    exists j :: j in vehicles && vehicles[j].matricula == Some(plate)
  }

  /** A vehicle other than `id` carries the plate. */
  predicate PlateHeldByOther(vehicles: map<nat, Vehicle>, plate: string, id: nat) {
    exists j :: j in vehicles && j != id && vehicles[j].matricula == Some(plate)
  }

  /** The UNIQUE constraint on `matricula`: no two rows share a non-null plate
      (NULL plates may repeat). */
  predicate PlatesUnique(vehicles: map<nat, Vehicle>) {
    forall i, j :: i in vehicles && j in vehicles && i != j && vehicles[i].matricula.Some? ==>
      vehicles[i].matricula != vehicles[j].matricula
  }

  /** What the database guarantees: unique plates, every vehicle owned by an
      existing user, and ids below the next one handed out. */
  predicate Valid(t: Tables) {
    && PlatesUnique(t.vehicles)
    && (forall i :: i in t.vehicles ==> i < t.nextId && t.vehicles[i].owner in t.users)
  }

  /** `create_vehicle` on POST. */
  function Create(t: Tables, session: Option<nat>, f: Form): (r: Step)
    ensures r.outcome.Created? <==>
      session.Some? && session.value in t.users && Complete(f) && !PlateInUse(t.vehicles, f.matricula.value)
    ensures !r.outcome.Created? ==> r.tables == t
    ensures r.outcome == LoginRequired <==> session.None?
    ensures r.outcome == UserNotFound <==> session.Some? && session.value !in t.users
    ensures r.outcome == FieldsMissing <==> session.Some? && session.value in t.users && !Complete(f)
    ensures r.outcome == PlateTaken <==>
      session.Some? && session.value in t.users && Complete(f) && PlateInUse(t.vehicles, f.matricula.value)
    ensures r.outcome.Created? && Valid(t) ==> r.outcome.id !in t.vehicles
    ensures r.outcome.Created? ==>
      && r.tables.users == t.users
      && r.tables.vehicles == t.vehicles[r.outcome.id := FromForm(session.value, f)]
    ensures Valid(t) ==> Valid(r.tables)
  {
    if session.None? then Step(t, LoginRequired)
    else if session.value !in t.users then Step(t, UserNotFound)
    else if !Complete(f) then Step(t, FieldsMissing)
    else if PlateInUse(t.vehicles, f.matricula.value) then Step(t, PlateTaken)
    else
      var id := t.nextId;
      assert Valid(t) ==> id !in t.vehicles;
      Step(Tables(t.users, t.vehicles[id := FromForm(session.value, f)], id + 1), Created(id))
  }

  /** `edit_vehicle` on POST. The conflict test is the one the source means:
      a different vehicle holds the new plate. */
  function Edit(t: Tables, session: Option<nat>, id: nat, f: Form): (r: Step)
    ensures r.outcome == Updated <==>
      && session.Some? && id in t.vehicles && t.vehicles[id].owner == session.value
      && Complete(f) && !PlateHeldByOther(t.vehicles, f.matricula.value, id)
    ensures r.outcome != Updated ==> r.tables == t
    ensures r.outcome == LoginRequired <==> session.None?
    ensures r.outcome == VehicleNotFound <==> session.Some? && id !in t.vehicles
    ensures r.outcome == NotOwner <==> session.Some? && id in t.vehicles && t.vehicles[id].owner != session.value
    ensures r.outcome == FieldsMissing <==>
      session.Some? && id in t.vehicles && t.vehicles[id].owner == session.value && !Complete(f)
    ensures r.outcome == PlateTaken <==>
      && session.Some? && id in t.vehicles && t.vehicles[id].owner == session.value
      && Complete(f) && PlateHeldByOther(t.vehicles, f.matricula.value, id)
    ensures r.outcome == Updated ==>
      && r.tables.users == t.users && r.tables.nextId == t.nextId
      && r.tables.vehicles.Keys == t.vehicles.Keys
      && r.tables.vehicles[id] == FromForm(t.vehicles[id].owner, f)
      && (forall j :: j in t.vehicles && j != id ==> r.tables.vehicles[j] == t.vehicles[j])
    ensures Valid(t) ==> Valid(r.tables)
  {
    if session.None? then Step(t, LoginRequired)
    else if id !in t.vehicles then Step(t, VehicleNotFound)
    else if t.vehicles[id].owner != session.value then Step(t, NotOwner)
    else if !Complete(f) then Step(t, FieldsMissing)
    else if PlateHeldByOther(t.vehicles, f.matricula.value, id) then Step(t, PlateTaken)
    else Step(t.(vehicles := t.vehicles[id := FromForm(t.vehicles[id].owner, f)]), Updated)
  }

  /** `delete_vehicle` (POST only). */
  function Delete(t: Tables, session: Option<nat>, id: nat): (r: Step)
    ensures r.outcome == Deleted <==>
      session.Some? && id in t.vehicles && t.vehicles[id].owner == session.value
    ensures r.outcome != Deleted ==> r.tables == t
    ensures r.outcome == LoginRequired <==> session.None?
    ensures r.outcome == VehicleNotFound <==> session.Some? && id !in t.vehicles
    ensures r.outcome == NotOwner <==> session.Some? && id in t.vehicles && t.vehicles[id].owner != session.value
    ensures r.outcome == Deleted ==>
      && r.tables.users == t.users && r.tables.nextId == t.nextId
      && r.tables.vehicles.Keys == t.vehicles.Keys - {id}
      && (forall j :: j in r.tables.vehicles ==> r.tables.vehicles[j] == t.vehicles[j])
    ensures Valid(t) ==> Valid(r.tables)
  {
    if session.None? then Step(t, LoginRequired)
    else if id !in t.vehicles then Step(t, VehicleNotFound)
    else if t.vehicles[id].owner != session.value then Step(t, NotOwner)
    else Step(t.(vehicles := t.vehicles - {id}), Deleted)
  }

  /** Some field of the register form is filled. */
  predicate AnyFilled(f: Form) {
    Filled(f.marca) || Filled(f.modelo) || Filled(f.matricula) || Filled(f.color)
  }

  /**
    The vehicle part of `register`, after the new user `user` is committed:
    a vehicle row is added when any field is filled, with no check of its
    own; a plate already in the table makes the database refuse the row.
  */
  function Register(t: Tables, user: nat, f: Form): (r: Step)
    requires user in t.users
    ensures r.outcome == Registered || r.outcome == IntegrityError
    ensures r.outcome == IntegrityError <==>
      AnyFilled(f) && f.matricula.Some? && PlateInUse(t.vehicles, f.matricula.value)
    ensures r.outcome == IntegrityError || !AnyFilled(f) ==> r.tables == t
    ensures r.tables.users == t.users
    ensures r.outcome == Registered && AnyFilled(f) ==>
      && r.tables.vehicles == t.vehicles[t.nextId := FromForm(user, f)]
      && r.tables.nextId == t.nextId + 1
    ensures Valid(t) ==> Valid(r.tables)
  {
    if !AnyFilled(f) then Step(t, Registered)
    else if f.matricula.Some? && PlateInUse(t.vehicles, f.matricula.value) then Step(t, IntegrityError)
    else
      var id := t.nextId;
      Step(Tables(t.users, t.vehicles[id := FromForm(user, f)], id + 1), Registered)
  }

  /** What `Vehiculo.query.filter_by(matricula=plate).first()` may return:
      nothing when no vehicle holds the plate, otherwise one of its holders
      (the query has no ORDER BY, so which one is not fixed). */
  predicate FirstHolder(vehicles: map<nat, Vehicle>, plate: string, first: Option<nat>) {
    && (first.None? <==> !PlateInUse(vehicles, plate))
    && (first.Some? ==> first.value in vehicles && vehicles[first.value].matricula == Some(plate))
  }

  /** The test `existing_vehicle and existing_vehicle.id != vehicle.id`. */
  predicate ReportsConflict(first: Option<nat>, id: nat) {
    first.Some? && first.value != id
  }

  /**
    Because the plates are unique, the source's test decides the edit
    conflict the way it is meant to: whichever holder `first()` returns, a
    conflict is reported exactly when another vehicle holds the plate.
  */
  lemma FirstHolderDecidesConflict(vehicles: map<nat, Vehicle>, plate: string, id: nat, first: Option<nat>)
    requires PlatesUnique(vehicles)
    requires FirstHolder(vehicles, plate, first)
    ensures ReportsConflict(first, id) <==> PlateHeldByOther(vehicles, plate, id)
  {
    if PlateHeldByOther(vehicles, plate, id) {
      var j :| j in vehicles && j != id && vehicles[j].matricula == Some(plate);
      assert PlateInUse(vehicles, plate);
      assert first.value == j;
    }
  }

  /** Without the UNIQUE constraint the same test misses a conflict: if two
      vehicles share the plate and `first()` returns the edited one, no
      conflict is reported although the other vehicle holds the plate. */
  lemma FirstHolderWithoutUniqueness(a: Vehicle, b: Vehicle, plate: string)
    requires a.matricula == Some(plate) && b.matricula == Some(plate)
    ensures var vehicles := map[1 := a, 2 := b];
      && FirstHolder(vehicles, plate, Some(1))
      && !ReportsConflict(Some(1), 1)
      && PlateHeldByOther(vehicles, plate, 1)
      && !PlatesUnique(vehicles)
  {
    var vehicles := map[1 := a, 2 := b];
    assert 1 in vehicles && vehicles[1].matricula == Some(plate);
    assert 2 in vehicles && vehicles[2].matricula == Some(plate);
  }

  /** Once a vehicle is created, a second vehicle with the same plate is
      refused, whoever submits it. */
  lemma CreateTwiceRejected(t: Tables, s1: Option<nat>, f1: Form, s2: Option<nat>, f2: Form)
    requires Create(t, s1, f1).outcome.Created?
    requires s2.Some? && s2.value in t.users && Complete(f2)
    requires f2.matricula == f1.matricula
    ensures Create(Create(t, s1, f1).tables, s2, f2).outcome == PlateTaken
  {
    var r := Create(t, s1, f1);
    var id := r.outcome.id;
    assert id in r.tables.vehicles && r.tables.vehicles[id].matricula == Some(f2.matricula.value);
  }

  /** Submitting a vehicle's own plate again is not a conflict. */
  lemma EditKeepsOwnPlate(t: Tables, user: nat, id: nat, f: Form)
    requires Valid(t)
    requires id in t.vehicles && t.vehicles[id].owner == user
    requires Complete(f) && f.matricula == t.vehicles[id].matricula
    ensures Edit(t, Some(user), id, f).outcome == Updated
  {
  }

  /** Deleting a vehicle gives its plate back: its owner can register it again. */
  lemma DeleteFreesPlate(t: Tables, user: nat, id: nat, f: Form)
    requires Valid(t)
    requires Delete(t, Some(user), id).outcome == Deleted
    requires Complete(f) && f.matricula == t.vehicles[id].matricula
    ensures Create(Delete(t, Some(user), id).tables, Some(user), f).outcome.Created?
  {
  }

  /** Deleting the vehicle just created restores the vehicle table. */
  lemma CreateThenDelete(t: Tables, user: nat, f: Form)
    requires Valid(t)
    requires Create(t, Some(user), f).outcome.Created?
    ensures var c := Create(t, Some(user), f);
      Delete(c.tables, Some(user), c.outcome.id).outcome == Deleted
      && Delete(c.tables, Some(user), c.outcome.id).tables.vehicles == t.vehicles
  {
    var c := Create(t, Some(user), f);
    var id := c.outcome.id;
    assert c.tables.vehicles - {id} == t.vehicles;
  }

  /** `register` stores a duplicate plate only as far as the database lets it:
      the row is refused and the tables stay as they were. */
  lemma RegisterDuplicateRefused(t: Tables, user: nat, f: Form, id: nat)
    requires user in t.users
    requires id in t.vehicles && Filled(f.matricula) && t.vehicles[id].matricula == f.matricula
    ensures Register(t, user, f) == Step(t, IntegrityError)
  {
    assert PlateInUse(t.vehicles, f.matricula.value);
  }
}
