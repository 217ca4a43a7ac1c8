/** Person.java: a worker's availability and job bookkeeping. */
module Persons {
  import opened Model

  /** A freshly loaded person: at its home port, with no current job. */
  function NewPerson(name: string, skill: string, home: PortId): (p: Person)
    ensures IsAvailable(p) && p.currentJob == None
    ensures p.location == AtPort(home) && p.home == home
    ensures p.name == name && p.skill == skill
  {
    Person(name, skill, home, AtPort(home), None)
  }

  /** `isAvailable`: the person's location is a port rather than a ship. */
  predicate IsAvailable(p: Person)
  {
    p.location.AtPort?
  }

  /** `assignJob`: the person now works `job` on the job's ship. */
  function AssignJob(p: Person, job: JobId, ship: ShipId): (r: Person)
    ensures !IsAvailable(r)
    ensures r.currentJob == Some(job) && r.location == OnShip(ship)
    ensures r.name == p.name && r.skill == p.skill && r.home == p.home
  {
    p.(currentJob := Some(job), location := OnShip(ship))
  }

  /** `clearJobAndReturn`: the person is back at `port` with no job. */
  function ClearJobAndReturn(p: Person, port: PortId): (r: Person)
    ensures IsAvailable(r)
    ensures r.currentJob == None && r.location == AtPort(port)
    ensures r.name == p.name && r.skill == p.skill && r.home == p.home
  {
    p.(currentJob := None, location := AtPort(port))
  }

  /** Assigning a job and then returning the person to its home port restores a freshly loaded person. */
  lemma AssignThenReturn(p: Person, job: JobId, ship: ShipId)
    requires p.currentJob == None && p.location == AtPort(p.home)
    ensures ClearJobAndReturn(AssignJob(p, job, ship), p.home) == p
  {
  }
}
