/**
 * The docking cascade: `Port.notifyOfDeparture`, `Dock.assignShip`,
 * `Dock.notifyOfDeparture` and `Ship.leavePort`. When a ship leaves its dock
 * the port drops the job-less ships at the head of its queue and docks the
 * first queued ship that still has jobs.
 */
module Docking {
  import opened Model
  import opened Seqs
  import ShipRecord

  /** Every ship of the queue of port `p` exists. */
  predicate QueueKnown(w: World, p: PortId)
    requires p in w.ports
  {
    forall i :: 0 <= i < |w.ports[p].queue| ==> w.ports[p].queue[i] in w.ships
  }

  /** How many ships at the head of `q` have no jobs. */
  function LeadingIdle(ships: map<ShipId, Ship>, q: seq<ShipId>): (n: nat)
    requires forall i :: 0 <= i < |q| ==> q[i] in ships
    ensures n <= |q|
  {
    if |q| == 0 then 0
    else if ships[q[0]].jobs == [] then 1 + LeadingIdle(ships, q[1..])
    else 0
  }

  /** `LeadingIdle` counts exactly the job-less ships before the first ship that has jobs. */
  lemma {:induction false} LeadingIdleSpec(ships: map<ShipId, Ship>, q: seq<ShipId>)
    requires forall i :: 0 <= i < |q| ==> q[i] in ships
    ensures var n := LeadingIdle(ships, q);
      && (forall i :: 0 <= i < n ==> ships[q[i]].jobs == [])
      && (n < |q| ==> ships[q[n]].jobs != [])
  {
    if |q| > 0 && ships[q[0]].jobs == [] {
      LeadingIdleSpec(ships, q[1..]);
      var n := LeadingIdle(ships, q);
      forall i | 0 <= i < n ensures ships[q[i]].jobs == [] {
        if i > 0 {
          assert q[i] == q[1..][i - 1];
        }
      }
      if n < |q| {
        assert q[n] == q[1..][n - 1];
      }
    }
  }

  /** `Dock.assignShip(s)`: the ship docks at `d` and the dock holds the ship. */
  function AssignShip(w: World, d: DockId, s: ShipId): (r: World)
    requires d in w.docks && s in w.ships
    ensures d in r.docks && s in r.ships
    ensures r.docks[d].ship == Some(s) && r.ships[s].dock == Some(d)
    ensures r.docks == w.docks[d := w.docks[d].(ship := Some(s))]
    ensures r.ships == w.ships[s := w.ships[s].(dock := Some(d))]
    ensures r.ports == w.ports && r.persons == w.persons && r.jobs == w.jobs
    ensures r.portOrder == w.portOrder && r.nextId == w.nextId
  {
    var w1 := w.(ships := w.ships[s := ShipRecord.DockAt(w.ships[s], d)]);
    w1.(docks := w1.docks[d := w1.docks[d].(ship := Some(s))])
  }

  /** How much of the queue the cascade consumes: the purged ships, and the docked ship if there is one. */
  function Cut(ships: map<ShipId, Ship>, q: seq<ShipId>): (k: nat)
    requires forall i :: 0 <= i < |q| ==> q[i] in ships
    ensures k <= |q|
  {
    var n := LeadingIdle(ships, q);
    if n < |q| then n + 1 else n
  }

  /** The queue left after the cascade: the purged ships and the docked one are gone. */
  function QueueAfter(ships: map<ShipId, Ship>, q: seq<ShipId>): seq<ShipId>
    requires forall i :: 0 <= i < |q| ==> q[i] in ships
  {
    q[Cut(ships, q)..]
  }

  /** The ship the cascade docks: the first queued ship with jobs, if any. */
  function NextDocked(ships: map<ShipId, Ship>, q: seq<ShipId>): Option<ShipId>
    requires forall i :: 0 <= i < |q| ==> q[i] in ships
  {
    var n := LeadingIdle(ships, q);
    if n < |q| then Some(q[n]) else None
  }

  /**
   * The recursion of `Port.notifyOfDeparture(dock, x)` on the port's ship
   * list `l` and queue `q`: `x` leaves `l`; a job-less ship at the head of the
   * queue is dequeued and leaves the same way, recursively; a ship with jobs
   * at the head is dequeued and returned to be docked. The queue shrinks on
   * every call.
   */
  function Cascade(ships: map<ShipId, Ship>, q: seq<ShipId>, l: seq<ShipId>, x: ShipId)
    : (r: (seq<ShipId>, seq<ShipId>, Option<ShipId>))
    requires forall i :: 0 <= i < |q| ==> q[i] in ships
    decreases |q|
  {
    var l' := RemoveFirst(l, x);
    if |q| == 0 then (l', [], None)
    else if ships[q[0]].jobs == [] then Cascade(ships, q[1..], l', q[0])
    else (l', q[1..], Some(q[0]))
  }

  /** The cascade drops the leading job-less ships from the queue together with the ship it docks. */
  lemma {:induction false} CascadeQueue(ships: map<ShipId, Ship>, q: seq<ShipId>, l: seq<ShipId>, x: ShipId)
    requires forall i :: 0 <= i < |q| ==> q[i] in ships
    ensures Cascade(ships, q, l, x).1 == QueueAfter(ships, q)
    decreases |q|
  {
    if |q| > 0 && ships[q[0]].jobs == [] {
      CascadeQueue(ships, q[1..], RemoveFirst(l, x), q[0]);
      QueueAfterPurge(ships, q);
    }
  }

  lemma QueueAfterPurge(ships: map<ShipId, Ship>, q: seq<ShipId>)
    requires forall i :: 0 <= i < |q| ==> q[i] in ships
    requires |q| > 0 && ships[q[0]].jobs == []
    ensures QueueAfter(ships, q) == QueueAfter(ships, q[1..])
  {
    var n := LeadingIdle(ships, q[1..]);
    assert LeadingIdle(ships, q) == n + 1;
    if n < |q[1..]| {
      assert q[n + 2..] == q[1..][n + 1..];
    }
  }

  /** The ship the cascade docks is the first queued ship that has jobs. */
  lemma {:induction false} CascadeDocked(ships: map<ShipId, Ship>, q: seq<ShipId>, l: seq<ShipId>, x: ShipId)
    requires forall i :: 0 <= i < |q| ==> q[i] in ships
    ensures Cascade(ships, q, l, x).2 == NextDocked(ships, q)
    decreases |q|
  {
    if |q| > 0 && ships[q[0]].jobs == [] {
      CascadeDocked(ships, q[1..], RemoveFirst(l, x), q[0]);
      var n := LeadingIdle(ships, q[1..]);
      assert LeadingIdle(ships, q) == n + 1;
      if n < |q[1..]| {
        assert q[1..][n] == q[n + 1];
      }
    }
  }

  /** The port's ship list loses the departing ship and every purged ship. */
  lemma {:induction false} CascadeShips(ships: map<ShipId, Ship>, q: seq<ShipId>, l: seq<ShipId>, x: ShipId)
    requires forall i :: 0 <= i < |q| ==> q[i] in ships
    ensures multiset(Cascade(ships, q, l, x).0) == multiset(l) - (multiset{x} + multiset(q[..LeadingIdle(ships, q)]))
    decreases |q|
  {
    if |q| > 0 && ships[q[0]].jobs == [] {
      var l1 := RemoveFirst(l, x);
      CascadeShips(ships, q[1..], l1, q[0]);
      assert LeadingIdle(ships, q) == 1 + LeadingIdle(ships, q[1..]);
      PurgeStep(q, LeadingIdle(ships, q), l, x, l1, Cascade(ships, q, l, x).0);
    }
  }

  /** The bookkeeping of one purged ship: the queue prefix grows by its head and the ship list loses it. */
  lemma PurgeStep(q: seq<ShipId>, k: nat, l: seq<ShipId>, x: ShipId, l1: seq<ShipId>, l2: seq<ShipId>)
    requires 1 <= k <= |q|
    requires multiset(l1) == multiset(l) - multiset{x}
    requires multiset(l2) == multiset(l1) - (multiset{q[0]} + multiset(q[1..][..k - 1]))
    ensures multiset(l2) == multiset(l) - (multiset{x} + multiset(q[..k]))
  {
    assert q[..k] == [q[0]] + q[1..][..k - 1];
    var b := multiset(q[1..][..k - 1]);
    assert multiset(q[..k]) == multiset{q[0]} + b;
    MinusMinus(multiset(l), multiset{x}, multiset{q[0]} + b);
  }

  lemma MinusMinus<T>(m: multiset<T>, a: multiset<T>, b: multiset<T>)
    ensures (m - a) - b == m - (a + b)
  {
    forall e ensures ((m - a) - b)[e] == (m - (a + b))[e] {
    }
  }

  /**
   * `Port.notifyOfDeparture(d, x)` at port `p`: the cascade runs on the
   * port's ship list and queue, and the ship it selects, if any, is docked
   * at `d` by `Dock.assignShip`.
   */
  function PortDeparture(w: World, p: PortId, d: DockId, x: ShipId): (r: World)
    requires p in w.ports && d in w.docks && QueueKnown(w, p)
    ensures var q := w.ports[p].queue; var n := LeadingIdle(w.ships, q);
      && r.docks == (if n < |q| then w.docks[d := w.docks[d].(ship := Some(q[n]))] else w.docks)
      && r.ships == (if n < |q| then w.ships[q[n] := w.ships[q[n]].(dock := Some(d))] else w.ships)
  {
    var port := w.ports[p];
    var c := Cascade(w.ships, port.queue, port.ships, x);
    CascadeDocked(w.ships, port.queue, port.ships, x);
    var w1 := w.(ports := w.ports[p := port.(ships := c.0, queue := c.1)]);
    match c.2
    case None => w1
    case Some(s) => AssignShip(w1, d, s)
  }

  /** The cascade changes only port `p`'s queue and ship list among the ports, and no person or job. */
  lemma PortDeparturePort(w: World, p: PortId, d: DockId, x: ShipId)
    requires p in w.ports && d in w.docks && QueueKnown(w, p)
    ensures var r := PortDeparture(w, p, d, x); var q := w.ports[p].queue;
      && p in r.ports
      && r.ports == w.ports[p := w.ports[p].(queue := QueueAfter(w.ships, q), ships := r.ports[p].ships)]
      && multiset(r.ports[p].ships) == multiset(w.ports[p].ships) - (multiset{x} + multiset(q[..LeadingIdle(w.ships, q)]))
      && r.persons == w.persons && r.jobs == w.jobs
      && r.portOrder == w.portOrder && r.nextId == w.nextId
  {
    var port := w.ports[p];
    var c := Cascade(w.ships, port.queue, port.ships, x);
    CascadeQueue(w.ships, port.queue, port.ships, x);
    CascadeShips(w.ships, port.queue, port.ships, x);
    var w1 := w.(ports := w.ports[p := port.(ships := c.0, queue := c.1)]);
    var r := PortDeparture(w, p, d, x);
    assert r.ports == w1.ports && r.persons == w.persons && r.jobs == w.jobs;
    assert r.portOrder == w.portOrder && r.nextId == w.nextId;
    assert r.ports[p].ships == c.0;
  }

  /** The dock and its port are known and the port's queue names existing ships. */
  predicate DockReady(w: World, d: DockId)
  {
    && d in w.docks
    && w.docks[d].port.Some?
    && w.docks[d].port.value in w.ports
    && QueueKnown(w, w.docks[d].port.value)
  }

  /**
   * `Dock.notifyOfDeparture(x)`: the dock is emptied before its port runs
   * the cascade, so afterwards it holds nothing or the first queued ship that
   * has jobs; no other dock changes and only that ship's dock reference does.
   */
  function DockDeparture(w: World, d: DockId, x: ShipId): (r: World)
    requires DockReady(w, d)
    ensures r.docks == w.docks[d := w.docks[d].(ship := NextDocked(w.ships, w.ports[w.docks[d].port.value].queue))]
  {
    var p := w.docks[d].port.value;
    var dock := w.docks[d];
    var w1 := w.(docks := w.docks[d := dock.(ship := None)]);
    assert w1.ships == w.ships && w1.ports == w.ports;
    PortDeparture(w1, p, d, x)
  }

  /**
   * After a dock's departure its port's queue has lost the purged ships and
   * the docked one, its ship list has lost the departing and the purged
   * ships, and persons, jobs and other ports are unchanged.
   */
  lemma DockDeparturePort(w: World, d: DockId, x: ShipId)
    requires DockReady(w, d)
    ensures var r := DockDeparture(w, d, x);
      var p := w.docks[d].port.value; var q := w.ports[p].queue; var n := LeadingIdle(w.ships, q);
      && r.ships == (if n < |q| then w.ships[q[n] := w.ships[q[n]].(dock := Some(d))] else w.ships)
      && p in r.ports
      && r.ports == w.ports[p := w.ports[p].(queue := QueueAfter(w.ships, q), ships := r.ports[p].ships)]
      && multiset(r.ports[p].ships) == multiset(w.ports[p].ships) - (multiset{x} + multiset(q[..LeadingIdle(w.ships, q)]))
      && r.persons == w.persons && r.jobs == w.jobs
      && r.portOrder == w.portOrder && r.nextId == w.nextId
  {
    var w1 := w.(docks := w.docks[d := w.docks[d].(ship := None)]);
    assert DockDeparture(w, d, x) == PortDeparture(w1, w.docks[d].port.value, d, x);
    assert w1.ships == w.ships && w1.ports == w.ports;
    PortDeparturePort(w1, w.docks[d].port.value, d, x);
  }

  /** `Dock.getShip`: the ship the dock holds, `None` for an empty dock. */
  function GetShip(w: World, d: DockId): Option<ShipId>
    requires d in w.docks
  {
    w.docks[d].ship
  }

  /**
   * After `assignShip(s)` the dock reports `s`; after a departure from it the
   * dock reports the first queued ship that has jobs, or nothing when the
   * queue holds none.
   */
  lemma GetShipAfter(w: World, d: DockId, s: ShipId, x: ShipId)
    requires DockReady(w, d) && s in w.ships
    ensures GetShip(AssignShip(w, d, s), d) == Some(s)
    ensures var q := w.ports[w.docks[d].port.value].queue; var r := GetShip(DockDeparture(w, d, x), d);
      && (r.None? <==> forall i :: 0 <= i < |q| ==> w.ships[q[i]].jobs == [])
      && forall n :: 0 <= n < |q| && w.ships[q[n]].jobs != [] && (forall i :: 0 <= i < n ==> w.ships[q[i]].jobs == []) ==>
           r == Some(q[n])
  {
    var q := w.ports[w.docks[d].port.value].queue;
    LeadingIdleSpec(w.ships, q);
  }

  /** The ship's dock, when it has one, is ready for a departure. */
  predicate CanLeave(w: World, x: ShipId)
  {
    x in w.ships && (w.ships[x].dock.Some? ==> DockReady(w, w.ships[x].dock.value))
  }

  /**
   * `Ship.leavePort`: a docked ship notifies its dock, then the ship's dock
   * and port references are cleared whether or not it was docked. An
   * undocked ship changes nothing else.
   */
  function LeavePort(w: World, x: ShipId): (r: World)
    requires CanLeave(w, x)
    ensures x in r.ships && r.ships[x] == w.ships[x].(dock := None, port := None)
    ensures w.ships[x].dock == None ==> r == w.(ships := w.ships[x := r.ships[x]])
    ensures w.ships[x].dock.Some? ==>
      var d := w.ships[x].dock.value;
      d in r.docks && r.docks[d].ship == NextDocked(w.ships, w.ports[w.docks[d].port.value].queue)
  {
    var w1 := if w.ships[x].dock.Some? then DockDeparture(w, w.ships[x].dock.value, x) else w;
    w1.(ships := w1.ships[x := w1.ships[x].(dock := None, port := None)])
  }

  /** Leaving touches no person, no job, and no port's persons, pool or totals. */
  lemma LeaveKeepsPools(w: World, x: ShipId)
    requires CanLeave(w, x)
    ensures var r := LeavePort(w, x);
      && r.persons == w.persons && r.jobs == w.jobs && r.ports.Keys == w.ports.Keys
      && forall q :: q in w.ports ==>
           r.ports[q].persons == w.ports[q].persons && r.ports[q].pool == w.ports[q].pool && r.ports[q].totals == w.ports[q].totals
  {
    if w.ships[x].dock.Some? {
      var d := w.ships[x].dock.value;
      var w1 := DockDeparture(w, d, x);
      DockDeparturePort(w, d, x);
      var r := LeavePort(w, x);
      assert r.ports == w1.ports && r.persons == w1.persons && r.jobs == w1.jobs;
      var p := w.docks[d].port.value;
      forall q | q in w.ports
        ensures r.ports[q].persons == w.ports[q].persons && r.ports[q].pool == w.ports[q].pool && r.ports[q].totals == w.ports[q].totals
      {
        if q == p {
          assert r.ports[q] == w.ports[p].(queue := r.ports[q].queue, ships := r.ports[q].ships);
        } else {
          assert r.ports[q] == w.ports[q];
        }
      }
    }
  }

  // ----- the dock/ship links ----------------------------------------------

  /** A dock that holds a ship is that ship's dock. */
  predicate DockLinks(w: World)
  {
    forall d :: d in w.docks && w.docks[d].ship.Some? ==>
      w.docks[d].ship.value in w.ships && w.ships[w.docks[d].ship.value].dock == Some(d)
  }

  /** A docked ship's dock holds it and is ready for its departure. */
  predicate ShipLinks(w: World)
  {
    forall s :: s in w.ships && w.ships[s].dock.Some? ==>
      DockReady(w, w.ships[s].dock.value) && w.docks[w.ships[s].dock.value].ship == Some(s)
  }

  /** Every queued ship exists and is not docked. */
  predicate QueuesIdle(w: World)
  {
    forall p, i :: p in w.ports && 0 <= i < |w.ports[p].queue| ==>
      w.ports[p].queue[i] in w.ships && w.ships[w.ports[p].queue[i]].dock == None
  }

  /** No ship is queued twice, at one port or at two. */
  predicate QueuesDisjoint(w: World)
  {
    forall p1, p2, i, j ::
      (p1 in w.ports && p2 in w.ports && 0 <= i < |w.ports[p1].queue| && 0 <= j < |w.ports[p2].queue|
       && w.ports[p1].queue[i] == w.ports[p2].queue[j]) ==> p1 == p2 && i == j
  }

  /**
   * The docking invariant: docks and ships point at each other, queued ships
   * are undocked, and no ship waits in two places.
   */
  predicate Linked(w: World)
  {
    DockLinks(w) && ShipLinks(w) && QueuesIdle(w) && QueuesDisjoint(w)
  }

  /**
   * The part of the invariant a departure needs to keep the dock links and
   * the queues intact; it does not ask every docked ship's dock to be ready.
   */
  predicate QueueLinks(w: World)
  {
    DockLinks(w) && QueuesIdle(w) && QueuesDisjoint(w)
  }

  /** Under the invariant every ship can leave. */
  lemma LinkedCanLeave(w: World, x: ShipId)
    requires Linked(w) && x in w.ships
    ensures CanLeave(w, x)
  {
  }

  /** Leaving an undocked ship keeps the invariant. */
  lemma LeaveUndockedLinked(w: World, x: ShipId)
    requires Linked(w) && x in w.ships && w.ships[x].dock == None
    ensures Linked(LeavePort(w, x))
  {
    var r := LeavePort(w, x);
    assert r.docks == w.docks && r.ports == w.ports;
    assert DockLinks(r) by {
      forall d | d in r.docks && r.docks[d].ship.Some?
        ensures r.docks[d].ship.value in r.ships && r.ships[r.docks[d].ship.value].dock == Some(d)
      {
        assert r.docks[d].ship.value != x;
      }
    }
    assert ShipLinks(r) by {
      forall s | s in r.ships && r.ships[s].dock.Some?
        ensures DockReady(r, r.ships[s].dock.value) && r.docks[r.ships[s].dock.value].ship == Some(s)
      {
        assert s != x && r.ships[s] == w.ships[s];
        assert DockReady(w, w.ships[s].dock.value);
      }
    }
    assert QueuesIdle(r) by {
      forall p, i | p in r.ports && 0 <= i < |r.ports[p].queue|
        ensures r.ports[p].queue[i] in r.ships && r.ships[r.ports[p].queue[i]].dock == None
      {
        assert w.ports[p].queue[i] in w.ships;
      }
    }
  }

  /** What leaving does to a docked ship's world, field by field. */
  lemma LeaveDockedShape(w: World, x: ShipId)
    requires CanLeave(w, x) && w.ships[x].dock.Some?
    ensures var r := LeavePort(w, x); var d := w.ships[x].dock.value;
      var p := w.docks[d].port.value; var q := w.ports[p].queue; var n := LeadingIdle(w.ships, q);
      && r.docks == w.docks[d := w.docks[d].(ship := NextDocked(w.ships, q))]
      && r.ships == (if n < |q| then w.ships[q[n] := w.ships[q[n]].(dock := Some(d))] else w.ships)
                      [x := w.ships[x].(dock := None, port := None)]
      && p in r.ports
      && r.ports == w.ports[p := w.ports[p].(queue := q[Cut(w.ships, q)..], ships := r.ports[p].ships)]
  {
    var d := w.ships[x].dock.value;
    var w1 := DockDeparture(w, d, x);
    DockDeparturePort(w, d, x);
    assert LeavePort(w, x) == w1.(ships := w1.ships[x := w1.ships[x].(dock := None, port := None)]);
  }

  /** Leaving a docked ship keeps the invariant: its dock passes to the first queued ship with jobs, or stays empty. */
  lemma LeaveDockedLinked(w: World, x: ShipId)
    requires Linked(w) && x in w.ships && w.ships[x].dock.Some?
    ensures Linked(LeavePort(w, x))
  {
    var r := LeavePort(w, x);
    LeaveDockedShape(w, x);
    assert DockLinks(r) by { LeaveDockLinks(w, x); }
    assert ShipLinks(r) by { LeaveShipLinks(w, x); }
    assert QueuesIdle(r) by { LeaveQueuesIdle(w, x); }
    assert QueuesDisjoint(r) by { LeaveQueuesDisjoint(w, x); }
  }

  lemma LeaveDockLinks(w: World, x: ShipId)
    requires QueueLinks(w) && CanLeave(w, x) && w.ships[x].dock.Some?
    ensures DockLinks(LeavePort(w, x))
  {
    var r := LeavePort(w, x);
    LeaveDockedShape(w, x);
    var d := w.ships[x].dock.value;
    var q := w.ports[w.docks[d].port.value].queue;
    var n := LeadingIdle(w.ships, q);
    forall d' | d' in r.docks && r.docks[d'].ship.Some?
      ensures r.docks[d'].ship.value in r.ships && r.ships[r.docks[d'].ship.value].dock == Some(d')
    {
      var s := r.docks[d'].ship.value;
      if d' == d {
        assert n < |q| && s == q[n];
        assert w.ships[s].dock == None;
      } else {
        assert r.docks[d'] == w.docks[d'];
        assert w.ships[s].dock == Some(d');
        assert s != x;
        if n < |q| {
          assert w.ships[q[n]].dock == None;
        }
      }
    }
  }

  lemma LeaveShipLinks(w: World, x: ShipId)
    requires Linked(w) && x in w.ships && w.ships[x].dock.Some?
    ensures ShipLinks(LeavePort(w, x))
  {
    var r := LeavePort(w, x);
    LeaveDockedShape(w, x);
    var d := w.ships[x].dock.value;
    var p := w.docks[d].port.value;
    var q := w.ports[p].queue;
    var n := LeadingIdle(w.ships, q);
    forall s | s in r.ships && r.ships[s].dock.Some?
      ensures DockReady(r, r.ships[s].dock.value) && r.docks[r.ships[s].dock.value].ship == Some(s)
    {
      var d' := r.ships[s].dock.value;
      assert s != x;
      if n < |q| && s == q[n] {
        assert d' == d;
        assert DockReady(w, d);
      } else {
        assert r.ships[s] == w.ships[s];
        assert DockReady(w, d');
        assert d' != d;
      }
      assert QueueKnown(r, r.docks[d'].port.value) by {
        LeaveQueueKnown(w, x, r.docks[d'].port.value);
      }
    }
  }

  /** Leaving keeps every port's queue made of existing ships. */
  lemma LeaveQueueKnown(w: World, x: ShipId, p': PortId)
    requires Linked(w) && x in w.ships && w.ships[x].dock.Some?
    requires p' in w.ports
    ensures p' in LeavePort(w, x).ports && QueueKnown(LeavePort(w, x), p')
  {
    var r := LeavePort(w, x);
    LeaveDockedShape(w, x);
    forall i | 0 <= i < |r.ports[p'].queue| ensures r.ports[p'].queue[i] in r.ships {
      LeaveQueueIndex(w, x, p', i);
    }
  }

  /** A port's queue after a departure is a suffix of its queue before: the departure port's is cut, the others are unchanged. */
  lemma LeaveQueueIndex(w: World, x: ShipId, p': PortId, i: int)
    requires CanLeave(w, x) && w.ships[x].dock.Some?
    requires p' in LeavePort(w, x).ports && 0 <= i < |LeavePort(w, x).ports[p'].queue|
    ensures var d := w.ships[x].dock.value; var p := w.docks[d].port.value;
      var j := if p' == p then Cut(w.ships, w.ports[p].queue) + i else i;
      && p' in w.ports && 0 <= j < |w.ports[p'].queue|
      && LeavePort(w, x).ports[p'].queue[i] == w.ports[p'].queue[j]
  {
    LeaveDockedShape(w, x);
  }

  lemma LeaveQueuesIdle(w: World, x: ShipId)
    requires QueueLinks(w) && CanLeave(w, x) && w.ships[x].dock.Some?
    ensures QueuesIdle(LeavePort(w, x))
  {
    var r := LeavePort(w, x);
    LeaveDockedShape(w, x);
    var d := w.ships[x].dock.value;
    var p := w.docks[d].port.value;
    var q := w.ports[p].queue;
    var n := LeadingIdle(w.ships, q);
    forall p', i | p' in r.ports && 0 <= i < |r.ports[p'].queue|
      ensures r.ports[p'].queue[i] in r.ships && r.ships[r.ports[p'].queue[i]].dock == None
    {
      var s := r.ports[p'].queue[i];
      LeaveQueueIndex(w, x, p', i);
      assert w.ships[s].dock == None;
      assert s != x;
      if n < |q| {
        assert q[n] == w.ports[p].queue[n];
        assert s != q[n];
      }
    }
  }

  lemma LeaveQueuesDisjoint(w: World, x: ShipId)
    requires QueueLinks(w) && CanLeave(w, x) && w.ships[x].dock.Some?
    ensures QueuesDisjoint(LeavePort(w, x))
  {
    var r := LeavePort(w, x);
    forall p1, p2, i, j |
      p1 in r.ports && p2 in r.ports && 0 <= i < |r.ports[p1].queue| && 0 <= j < |r.ports[p2].queue|
      && r.ports[p1].queue[i] == r.ports[p2].queue[j]
      ensures p1 == p2 && i == j
    {
      LeaveQueueIndex(w, x, p1, i);
      LeaveQueueIndex(w, x, p2, j);
    }
  }
}
