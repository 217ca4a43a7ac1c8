/** Ship.java: the field updates a ship makes on request of its dock and port. */
module ShipRecord {
  import opened Model

  /** `addWorkers`: append the newly assigned workers; the list only grows. */
  function AddWorkers(s: Ship, workers: seq<PersonId>): (r: Ship)
    ensures |r.currentWorkers| == |s.currentWorkers| + |workers|
    ensures r.currentWorkers[..|s.currentWorkers|] == s.currentWorkers
    ensures r.currentWorkers[|s.currentWorkers|..] == workers
    ensures r.(currentWorkers := s.currentWorkers) == s
  {
    s.(currentWorkers := s.currentWorkers + workers)
  }

  /** `dock(d)`: only the dock reference changes. */
  function DockAt(s: Ship, d: DockId): (r: Ship)
    ensures r.dock == Some(d)
    ensures r.(dock := s.dock) == s
  {
    s.(dock := Some(d))
  }
}
