/**
 * The seaport world as immutable data. Java object references become ids
 * into the maps of `World`; a `null` reference becomes `None`.
 */
module Model {

  datatype Option<T> = None | Some(value: T)

  type PortId = nat
  type DockId = nat
  type ShipId = nat
  type PersonId = nat
  type JobId = nat

  /** Where a person is: at a port (available) or on the ship of its job. */
  datatype Location = AtPort(port: PortId) | OnShip(ship: ShipId)

  /** A worker with one skill; `home` is the port it was loaded into. */
  datatype Person = Person(
    name: string,
    skill: string,
    home: PortId,
    location: Location,
    currentJob: Option<JobId>)

  /** A dock of a port; `port` is `None` only when the loader could not resolve it. */
  datatype Dock = Dock(name: string, port: Option<PortId>, ship: Option<ShipId>)

  /** Cargo and passenger ships differ only in fields the engine never reads. */
  datatype ShipKind = Cargo | Passenger

  datatype Dims = Dims(weight: real, length: real, width: real, draft: real)

  /** Java's default value of the four `double` dimension fields. */
  const NoDims := Dims(0.0, 0.0, 0.0, 0.0)

  datatype Ship = Ship(
    name: string,
    kind: ShipKind,
    dims: Dims,
    jobs: seq<JobId>,
    currentWorkers: seq<PersonId>,
    dock: Option<DockId>,
    port: Option<PortId>)

  /** The seven values of `Job.Status`. */
  datatype Status =
    | Running
    | Suspended
    | WaitingToDock
    | Done
    | Cancelled
    | LackOfResources
    | WaitingForResources

  /**
   * A job. `durationMs` is the duration in logical milliseconds; `port` is the
   * ship's port when the job was loaded. `live` records whether the
   * constructor got as far as starting the job's task; for a job whose
   * constructor stopped early no task exists and its `status` is never read.
   */
  datatype Job = Job(
    name: string,
    ship: ShipId,
    port: Option<PortId>,
    durationMs: int,
    requirements: seq<string>,
    goFlag: bool,
    killFlag: bool,
    progress: int,
    status: Status,
    live: bool)

  /**
   * A port. `pool` maps a skill to the persons currently available with it and
   * `totals` maps a skill to the number of persons of the port having it.
   */
  datatype Port = Port(
    name: string,
    docks: seq<DockId>,
    queue: seq<ShipId>,
    ships: seq<ShipId>,
    persons: seq<PersonId>,
    pool: map<string, seq<PersonId>>,
    totals: map<string, int>)

  /** `portOrder` is `World.ports`, the ports in load order; `nextId` allocates ids. */
  datatype World = World(
    portOrder: seq<PortId>,
    ports: map<PortId, Port>,
    docks: map<DockId, Dock>,
    ships: map<ShipId, Ship>,
    persons: map<PersonId, Person>,
    jobs: map<JobId, Job>,
    nextId: nat)

  /**
   * How a loader constructor ended: it completed, a number failed to parse,
   * or a reference it followed was missing. The last two stop it midway.
   */
  datatype Outcome = Created | BadNumber | BrokenRef

  const EmptyWorld := World([], map[], map[], map[], map[], map[], 0)

  /** Every id a port lists names an existing object. */
  predicate PortRefs(w: World, p: PortId)
    requires p in w.ports
  {
    var port := w.ports[p];
    && (forall i :: 0 <= i < |port.docks| ==> port.docks[i] in w.docks)
    && (forall i :: 0 <= i < |port.queue| ==> port.queue[i] in w.ships)
    && (forall i :: 0 <= i < |port.ships| ==> port.ships[i] in w.ships)
    && (forall i :: 0 <= i < |port.persons| ==> port.persons[i] in w.persons)
  }

  /** The world's port list and every port's lists name existing objects. */
  predicate Refs(w: World)
  {
    && (forall i :: 0 <= i < |w.portOrder| ==> w.portOrder[i] in w.ports)
    && (forall p :: p in w.ports ==> PortRefs(w, p))
  }
}
