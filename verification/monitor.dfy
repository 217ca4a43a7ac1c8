/**
 * The parts of `SeaPortMonitor` that act on the world: the sweep after a
 * load that sends job-less docked ships away, `killOldThreads`, the sort
 * helpers of the data view, and `getCharSequence`.
 */
module Monitor {
  import opened Model
  import opened Seqs
  import opened Sorting
  import Docking
  import JobState
  import Queries
  import JobTable

  // ----- the post-load sweep ----------------------------------------------

  /** Every dock a port lists exists and belongs to that port. */
  predicate DocksHome(w: World)
  {
    forall p, i :: p in w.ports && 0 <= i < |w.ports[p].docks| ==>
      w.ports[p].docks[i] in w.docks && w.docks[w.ports[p].docks[i]].port == Some(p)
  }

  /** What the sweep needs: the dock and queue links, and docks at home in their ports. */
  predicate SweepReady(w: World)
  {
    Docking.QueueLinks(w) && DocksHome(w)
  }

  /** The dock is empty or holds a ship that still has jobs. */
  predicate Settled(w: World, d: DockId)
  {
    d in w.docks && (w.docks[d].ship.Some? ==>
      w.docks[d].ship.value in w.ships && w.ships[w.docks[d].ship.value].jobs != [])
  }

  /**
   * What a departure leaves alone: the ports, docks and ships that exist,
   * every port's docks, persons, pool and totals, every dock's port, every
   * ship's jobs, and all persons and jobs.
   */
  predicate Kept(w: World, r: World)
  {
    && r.ports.Keys == w.ports.Keys && r.docks.Keys == w.docks.Keys && r.ships.Keys == w.ships.Keys
    && (forall p :: p in w.ports ==>
          && r.ports[p].docks == w.ports[p].docks && r.ports[p].persons == w.ports[p].persons
          && r.ports[p].pool == w.ports[p].pool && r.ports[p].totals == w.ports[p].totals)
    && (forall p, s :: p in w.ports && s in r.ports[p].ships ==> s in w.ports[p].ships)
    && (forall d :: d in w.docks ==> r.docks[d].port == w.docks[d].port)
    && (forall s :: s in w.ships ==> r.ships[s].jobs == w.ships[s].jobs)
    && r.persons == w.persons && r.jobs == w.jobs && r.portOrder == w.portOrder
  }

  /** A world the sweep has touched still names only existing objects. */
  lemma KeptRefs(w: World, r: World)
    requires Refs(w) && Kept(w, r) && Docking.QueuesIdle(r)
    ensures Refs(r)
  {
    forall p | p in r.ports ensures PortRefs(r, p) {
      assert PortRefs(w, p);
      forall i | 0 <= i < |r.ports[p].ships| ensures r.ports[p].ships[i] in r.ships {
        assert r.ports[p].ships[i] in w.ports[p].ships;
      }
    }
  }

  /** A dock that belongs to an existing port. */
  predicate Homed(w: World, d: DockId)
  {
    d in w.docks && w.docks[d].port.Some? && w.docks[d].port.value in w.ports
  }

  /**
   * The ship at a homed dock can leave. Afterwards the dock is settled, the
   * sweep's precondition still holds, and every dock that was settled still is.
   */
  lemma LeaveAtDock(w: World, d: DockId)
    requires SweepReady(w) && Homed(w, d) && w.docks[d].ship.Some?
    ensures Docking.CanLeave(w, w.docks[d].ship.value)
    ensures var r := Docking.LeavePort(w, w.docks[d].ship.value);
      && SweepReady(r) && Kept(w, r) && Settled(r, d)
      && (forall d' :: Settled(w, d') ==> Settled(r, d'))
  {
    var s := w.docks[d].ship.value;
    var p := w.docks[d].port.value;
    assert w.ships[s].dock == Some(d);
    assert Docking.QueueKnown(w, p);
    var r := Docking.LeavePort(w, s);
    assert Docking.QueueLinks(r) by {
      Docking.LeaveDockLinks(w, s);
      Docking.LeaveQueuesIdle(w, s);
      Docking.LeaveQueuesDisjoint(w, s);
    }
    assert Kept(w, r) by { KeptByLeave(w, s); }
    LeaveSettles(w, s);
    forall d' | Settled(w, d') ensures Settled(r, d') {
      if d' != d {
        LeaveKeepsSettled(w, s, d');
      }
    }
  }

  /** The dock a ship leaves passes to a ship with jobs, or stays empty. */
  lemma LeaveSettles(w: World, s: ShipId)
    requires Docking.CanLeave(w, s) && w.ships[s].dock.Some?
    ensures Settled(Docking.LeavePort(w, s), w.ships[s].dock.value)
  {
    var d := w.ships[s].dock.value;
    var q := w.ports[w.docks[d].port.value].queue;
    Docking.LeadingIdleSpec(w.ships, q);
    LeaveKeepsShipJobs(w, s);
  }

  /** Every other dock keeps its ship. */
  lemma LeaveKeepsSettled(w: World, s: ShipId, e: DockId)
    requires Docking.CanLeave(w, s) && w.ships[s].dock.Some?
    requires e != w.ships[s].dock.value && Settled(w, e)
    ensures Settled(Docking.LeavePort(w, s), e)
  {
    assert Docking.LeavePort(w, s).docks[e] == w.docks[e] by {
      Docking.LeaveDockedShape(w, s);
    }
    LeaveKeepsShipJobs(w, s);
  }

  lemma LeaveKeepsPortDocks(w: World, s: ShipId)
    requires Docking.CanLeave(w, s) && w.ships[s].dock.Some?
    ensures var r := Docking.LeavePort(w, s);
      r.ports.Keys == w.ports.Keys && forall q :: q in w.ports ==> r.ports[q].docks == w.ports[q].docks
  {
    Docking.LeaveDockedShape(w, s);
  }

  lemma LeaveShrinksShipLists(w: World, s: ShipId)
    requires Docking.CanLeave(w, s) && w.ships[s].dock.Some?
    ensures var r := Docking.LeavePort(w, s);
      forall p, x :: p in w.ports && x in r.ports[p].ships ==> x in w.ports[p].ships
  {
    var d := w.ships[s].dock.value;
    var r := Docking.LeavePort(w, s);
    var w1 := Docking.DockDeparture(w, d, s);
    Docking.DockDeparturePort(w, d, s);
    assert r.ports == w1.ports;
    var p := w.docks[d].port.value;
    forall x | x in r.ports[p].ships ensures x in w.ports[p].ships {
      assert x in multiset(r.ports[p].ships);
    }
  }

  lemma LeaveKeepsDockPorts(w: World, s: ShipId)
    requires Docking.CanLeave(w, s) && w.ships[s].dock.Some?
    ensures var r := Docking.LeavePort(w, s);
      r.docks.Keys == w.docks.Keys && forall e :: e in w.docks ==> r.docks[e].port == w.docks[e].port
  {
    Docking.LeaveDockedShape(w, s);
  }

  lemma LeaveKeepsShipJobs(w: World, s: ShipId)
    requires Docking.CanLeave(w, s) && w.ships[s].dock.Some?
    ensures var r := Docking.LeavePort(w, s);
      r.ships.Keys == w.ships.Keys && forall t :: t in w.ships ==> r.ships[t].jobs == w.ships[t].jobs
  {
    Docking.LeaveDockedShape(w, s);
  }

  lemma LeaveKeepsOrder(w: World, s: ShipId)
    requires Docking.CanLeave(w, s)
    ensures Docking.LeavePort(w, s).portOrder == w.portOrder
  {
  }

  lemma KeptByLeave(w: World, s: ShipId)
    requires Docking.CanLeave(w, s) && w.ships[s].dock.Some?
    ensures Kept(w, Docking.LeavePort(w, s))
  {
    LeaveKeepsPortDocks(w, s);
    LeaveKeepsDockPorts(w, s);
    LeaveKeepsShipJobs(w, s);
    LeaveKeepsOrder(w, s);
    LeaveShrinksShipLists(w, s);
    Docking.LeaveKeepsPools(w, s);
  }

  lemma KeptTransitive(a: World, b: World, c: World)
    requires Kept(a, b) && Kept(b, c)
    ensures Kept(a, c)
  {
  }

  // ----- where a ship is listed -------------------------------------------

  /** Every queued ship names the port whose queue holds it. */
  predicate QueuedHome(w: World)
  {
    forall p, i :: p in w.ports && 0 <= i < |w.ports[p].queue| ==>
      w.ports[p].queue[i] in w.ships && w.ships[w.ports[p].queue[i]].port == Some(p)
  }

  /** Every docked ship names its dock's port. */
  predicate DockedHome(w: World)
  {
    forall s :: s in w.ships && w.ships[s].dock.Some? ==>
      w.ships[s].dock.value in w.docks && w.ships[s].port == w.docks[w.ships[s].dock.value].port
  }

  /**
   * The ships a port lists, queues or berths all name that port, and no
   * port lists a ship twice.
   */
  ghost predicate ShipsHome(w: World)
  {
    Queries.ShipsListed(w) && Queries.ListedOnce(w) && QueuedHome(w) && DockedHome(w)
  }

  /**
   * A docked ship's departure keeps every ship at home: `notifyOfDeparture`
   * drops the ship from its port's list before its port is cleared, and the
   * ship it docks from the queue names the dock's port.
   */
  lemma LeaveDockedKeepsHome(w: World, x: ShipId)
    requires Docking.QueueLinks(w) && Docking.CanLeave(w, x) && w.ships[x].dock.Some?
    requires ShipsHome(w)
    ensures ShipsHome(Docking.LeavePort(w, x))
  {
    LeaveKeepsListed(w, x);
    LeaveKeepsOnce(w, x);
    LeaveKeepsQueued(w, x);
    LeaveKeepsDocked(w, x);
  }

  /** The departing ship is listed at its dock's port at most once, and that occurrence goes. */
  lemma LeaveUnlists(w: World, x: ShipId)
    requires Docking.CanLeave(w, x) && w.ships[x].dock.Some? && Queries.ListedOnce(w)
    ensures var r := Docking.LeavePort(w, x); var p := w.docks[w.ships[x].dock.value].port.value;
      && p in r.ports && r.ports.Keys == w.ports.Keys
      && (forall q :: q in w.ports && q != p ==> r.ports[q] == w.ports[q])
      && (forall y :: multiset(r.ports[p].ships)[y] <= multiset(w.ports[p].ships)[y])
      && x !in r.ports[p].ships
  {
    var d := w.ships[x].dock.value;
    var p := w.docks[d].port.value;
    var r := Docking.LeavePort(w, x);
    Docking.DockDeparturePort(w, d, x);
    assert r.ports == Docking.DockDeparture(w, d, x).ports;
    assert multiset(w.ports[p].ships)[x] <= 1;
    assert multiset(r.ports[p].ships)[x] == 0;
  }

  lemma LeaveKeepsOnce(w: World, x: ShipId)
    requires Docking.CanLeave(w, x) && w.ships[x].dock.Some? && Queries.ListedOnce(w)
    ensures Queries.ListedOnce(Docking.LeavePort(w, x))
  {
    var r := Docking.LeavePort(w, x);
    LeaveUnlists(w, x);
    forall q, y | q in r.ports ensures multiset(r.ports[q].ships)[y] <= 1 {
      assert multiset(w.ports[q].ships)[y] <= 1;
    }
  }

  lemma LeaveKeepsListed(w: World, x: ShipId)
    requires Docking.QueueLinks(w) && Docking.CanLeave(w, x) && w.ships[x].dock.Some?
    requires ShipsHome(w)
    ensures Queries.ShipsListed(Docking.LeavePort(w, x))
  {
    var r := Docking.LeavePort(w, x);
    var d := w.ships[x].dock.value;
    var p := w.docks[d].port.value;
    LeaveUnlists(w, x);
    LeaveShrinksShipLists(w, x);
    LeaveKeepsOtherPorts(w, x);
    forall q, i | q in r.ports && 0 <= i < |r.ports[q].ships|
      ensures r.ports[q].ships[i] in r.ships && r.ships[r.ports[q].ships[i]].port == Some(q)
    {
      var y := r.ports[q].ships[i];
      assert y in w.ports[q].ships;
      var k :| 0 <= k < |w.ports[q].ships| && w.ports[q].ships[k] == y;
      assert w.ships[y].port == Some(q);
    }
  }

  /** Only the departing ship's port changes. */
  lemma LeaveKeepsOtherPorts(w: World, x: ShipId)
    requires Docking.CanLeave(w, x) && w.ships[x].dock.Some?
    ensures var r := Docking.LeavePort(w, x);
      r.ships.Keys == w.ships.Keys && forall y :: y in w.ships && y != x ==> r.ships[y].port == w.ships[y].port
  {
    Docking.LeaveDockedShape(w, x);
  }

  lemma LeaveKeepsQueued(w: World, x: ShipId)
    requires Docking.QueueLinks(w) && Docking.CanLeave(w, x) && w.ships[x].dock.Some?
    requires QueuedHome(w)
    ensures QueuedHome(Docking.LeavePort(w, x))
  {
    var r := Docking.LeavePort(w, x);
    var d := w.ships[x].dock.value;
    var p := w.docks[d].port.value;
    var q := w.ports[p].queue;
    var c := Docking.Cut(w.ships, q);
    Docking.LeaveDockedShape(w, x);
    forall p', i | p' in r.ports && 0 <= i < |r.ports[p'].queue|
      ensures r.ports[p'].queue[i] in r.ships && r.ships[r.ports[p'].queue[i]].port == Some(p')
    {
      var j := if p' == p then c + i else i;
      assert r.ports[p'].queue[i] == w.ports[p'].queue[j];
    }
  }

  lemma LeaveKeepsDocked(w: World, x: ShipId)
    requires Docking.QueueLinks(w) && Docking.CanLeave(w, x) && w.ships[x].dock.Some?
    requires QueuedHome(w) && DockedHome(w)
    ensures DockedHome(Docking.LeavePort(w, x))
  {
    var r := Docking.LeavePort(w, x);
    var d := w.ships[x].dock.value;
    var p := w.docks[d].port.value;
    var q := w.ports[p].queue;
    var n := Docking.LeadingIdle(w.ships, q);
    Docking.LeaveDockedShape(w, x);
    forall s | s in r.ships && r.ships[s].dock.Some?
      ensures r.ships[s].dock.value in r.docks && r.ships[s].port == r.docks[r.ships[s].dock.value].port
    {
      if n < |q| && s == q[n] {
        assert w.ships[s].port == Some(p);
      }
    }
  }

  /**
   * `Ship.leavePort` on a ship that waits in a queue clears its port but
   * leaves it in its port's ship list and queue: the ship, which has no port
   * any more, is still listed, and the listing invariant is broken.
   */
  lemma UndockedLeaveStaysListed(w: World, p: PortId, x: ShipId)
    requires Refs(w) && p in w.ports && x in w.ports[p].ships && x in w.ships && w.ships[x].dock.None?
    ensures Docking.CanLeave(w, x)
    ensures var r := Docking.LeavePort(w, x);
      && Refs(r) && r.ships[x].port.None? && r.ports == w.ports
      && !Queries.ShipsListed(r)
      && (p in w.portOrder ==> x in Queries.ListedShips(r))
  {
    var r := Docking.LeavePort(w, x);
    assert r.ports == w.ports && r.portOrder == w.portOrder && r.ships.Keys == w.ships.Keys;
    assert Refs(r) by {
      forall q | q in r.ports ensures PortRefs(r, q) {
        assert PortRefs(w, q);
      }
    }
    var k :| 0 <= k < |r.ports[p].ships| && r.ports[p].ships[k] == x;
    assert r.ships[r.ports[p].ships[k]].port != Some(p);
    if p in w.portOrder {
      var i :| 0 <= i < |w.portOrder| && w.portOrder[i] == p;
      Queries.Listings(r, x);
    }
  }

  /** One step of the inner loop: a docked ship without jobs leaves. */
  function SweepDock(w: World, d: DockId): (r: World)
    requires SweepReady(w) && Homed(w, d)
    ensures SweepReady(r) && Kept(w, r) && Settled(r, d)
    ensures forall d' :: Settled(w, d') ==> Settled(r, d')
    ensures ShipsHome(w) ==> ShipsHome(r)
  {
    var ship := w.docks[d].ship;
    if ship.Some? && ship.value in w.ships && w.ships[ship.value].jobs == [] then
      LeaveAtDock(w, d);
      assert ShipsHome(w) ==> ShipsHome(Docking.LeavePort(w, ship.value)) by {
        if ShipsHome(w) {
          LeaveDockedKeepsHome(w, ship.value);
        }
      }
      Docking.LeavePort(w, ship.value)
    else
      w
  }

  lemma KeptHomed(w: World, r: World, d: DockId)
    requires Kept(w, r) && Homed(w, d)
    ensures Homed(r, d)
  {
  }

  /** The inner loop of the sweep: every dock of `ds` whose ship has no jobs sends it away. */
  function SweepDocks(w: World, ds: seq<DockId>): (r: World)
    requires SweepReady(w)
    requires forall i :: 0 <= i < |ds| ==> Homed(w, ds[i])
    ensures SweepReady(r) && Kept(w, r)
    ensures ShipsHome(w) ==> ShipsHome(r)
    decreases |ds|
  {
    if |ds| == 0 then w
    else
      var w1 := SweepDock(w, ds[0]);
      HomedTail(w, ds);
      var r := SweepDocks(w1, ds[1..]);
      KeptTransitive(w, w1, r);
      r
  }

  /** Every dock of `ds` after the first is still homed after the first step. */
  lemma HomedTail(w: World, ds: seq<DockId>)
    requires SweepReady(w) && |ds| > 0
    requires forall i :: 0 <= i < |ds| ==> Homed(w, ds[i])
    ensures forall i :: 0 <= i < |ds[1..]| ==> Homed(SweepDock(w, ds[0]), ds[1..][i])
  {
    var w1 := SweepDock(w, ds[0]);
    forall i | 0 <= i < |ds[1..]| ensures Homed(w1, ds[1..][i]) {
      assert ds[1..][i] == ds[i + 1];
      KeptHomed(w, w1, ds[i + 1]);
    }
  }

  /** The inner loop unsettles no dock. */
  lemma {:induction false} SweepDocksKeepsSettled(w: World, ds: seq<DockId>, d: DockId)
    requires SweepReady(w)
    requires forall i :: 0 <= i < |ds| ==> Homed(w, ds[i])
    requires Settled(w, d)
    ensures Settled(SweepDocks(w, ds), d)
    decreases |ds|
  {
    if |ds| > 0 {
      HomedTail(w, ds);
      SweepDocksKeepsSettled(SweepDock(w, ds[0]), ds[1..], d);
    }
  }

  /** After the inner loop every dock of `ds` is settled. */
  lemma {:induction false} SweepDocksSettles(w: World, ds: seq<DockId>)
    requires SweepReady(w)
    requires forall i :: 0 <= i < |ds| ==> Homed(w, ds[i])
    ensures forall i :: 0 <= i < |ds| ==> Settled(SweepDocks(w, ds), ds[i])
    decreases |ds|
  {
    if |ds| > 0 {
      var w1 := SweepDock(w, ds[0]);
      HomedTail(w, ds);
      SweepDocksSettles(w1, ds[1..]);
      SweepDocksKeepsSettled(w1, ds[1..], ds[0]);
      forall i | 0 <= i < |ds| ensures Settled(SweepDocks(w, ds), ds[i]) {
        if i > 0 {
          assert ds[i] == ds[1..][i - 1];
        }
      }
    }
  }

  /** The outer loop: the ports of `ps` in order, each port's docks in order. */
  function SweepPorts(w: World, ps: seq<PortId>): (r: World)
    requires SweepReady(w)
    requires Queries.PortsExist(w, ps)
    ensures SweepReady(r) && Kept(w, r)
    ensures ShipsHome(w) ==> ShipsHome(r)
    decreases |ps|
  {
    if |ps| == 0 then w
    else
      var w1 := SweepDocks(w, w.ports[ps[0]].docks);
      assert Queries.PortsExist(w1, ps[1..]) by {
        forall i | 0 <= i < |ps[1..]| ensures ps[1..][i] in w1.ports {
          assert ps[1..][i] == ps[i + 1];
        }
      }
      var r := SweepPorts(w1, ps[1..]);
      KeptTransitive(w, w1, r);
      r
  }

  /** The outer loop unsettles no dock. */
  lemma {:induction false} SweepPortsKeepsSettled(w: World, ps: seq<PortId>, d: DockId)
    requires SweepReady(w)
    requires Queries.PortsExist(w, ps)
    requires Settled(w, d)
    ensures Settled(SweepPorts(w, ps), d)
    decreases |ps|
  {
    if |ps| > 0 {
      var w1 := SweepDocks(w, w.ports[ps[0]].docks);
      SweepDocksKeepsSettled(w, w.ports[ps[0]].docks, d);
      assert Queries.PortsExist(w1, ps[1..]) by {
        forall i | 0 <= i < |ps[1..]| ensures ps[1..][i] in w1.ports {
          assert ps[1..][i] == ps[i + 1];
        }
      }
      SweepPortsKeepsSettled(w1, ps[1..], d);
    }
  }

  /** After the outer loop every dock of every port of `ps` is settled. */
  lemma {:induction false} SweepPortsSettles(w: World, ps: seq<PortId>)
    requires SweepReady(w)
    requires Queries.PortsExist(w, ps)
    ensures forall i, k :: 0 <= i < |ps| && 0 <= k < |w.ports[ps[i]].docks| ==>
      Settled(SweepPorts(w, ps), w.ports[ps[i]].docks[k])
    decreases |ps|
  {
    if |ps| > 0 {
      var ds := w.ports[ps[0]].docks;
      var w1 := SweepDocks(w, ds);
      SweepDocksSettles(w, ds);
      assert Queries.PortsExist(w1, ps[1..]) by {
        forall i | 0 <= i < |ps[1..]| ensures ps[1..][i] in w1.ports {
          assert ps[1..][i] == ps[i + 1];
        }
      }
      SweepPortsSettles(w1, ps[1..]);
      var r := SweepPorts(w, ps);
      forall i, k | 0 <= i < |ps| && 0 <= k < |w.ports[ps[i]].docks| ensures Settled(r, w.ports[ps[i]].docks[k]) {
        if i == 0 {
          SweepPortsKeepsSettled(w1, ps[1..], ds[k]);
        } else {
          assert ps[i] == ps[1..][i - 1];
          assert w1.ports[ps[i]].docks == w.ports[ps[i]].docks;
        }
      }
    }
  }

  /** The sweep after a load. */
  function PostLoadSweep(w: World): (r: World)
    requires SweepReady(w)
    requires Queries.PortsExist(w, w.portOrder)
    ensures SweepReady(r) && Kept(w, r)
    ensures ShipsHome(w) ==> ShipsHome(r)
  {
    SweepPorts(w, w.portOrder)
  }

  /**
   * After the sweep no dock of any port holds a ship without jobs, and
   * nothing but docks, ships and queues has changed.
   */
  lemma PostLoadSettled(w: World)
    requires SweepReady(w)
    requires Queries.PortsExist(w, w.portOrder)
    ensures var r := PostLoadSweep(w);
      forall i, k :: 0 <= i < |r.portOrder| && 0 <= k < |r.ports[r.portOrder[i]].docks| ==>
        Settled(r, r.ports[r.portOrder[i]].docks[k])
  {
    SweepPortsSettles(w, w.portOrder);
  }

  // ----- killOldThreads ---------------------------------------------------

  /** Kills each job of `ids`. */
  function KillList(jobs: map<JobId, Job>, ids: seq<JobId>): (r: map<JobId, Job>)
    ensures r.Keys == jobs.Keys
    ensures forall j :: j in jobs ==> r[j] == if j in ids then JobState.Kill(jobs[j]) else jobs[j]
  {
    if |ids| == 0 then jobs
    else
      var j := ids[0];
      var jobs' := if j in jobs then jobs[j := JobState.Kill(jobs[j])] else jobs;
      var r := KillList(jobs', ids[1..]);
      assert forall k :: k in ids <==> k == j || k in ids[1..];
      r
  }

  /** The job runs on one of the ships `ss`. */
  predicate OnShips(ships: map<ShipId, Ship>, ss: seq<ShipId>, j: JobId)
  {
    exists k :: 0 <= k < |ss| && ss[k] in ships && j in ships[ss[k]].jobs
  }

  /** Kills every job of every ship of `ss`. */
  function KillShips(jobs: map<JobId, Job>, ships: map<ShipId, Ship>, ss: seq<ShipId>): (r: map<JobId, Job>)
    ensures r.Keys == jobs.Keys
    ensures forall j :: j in jobs ==> r[j] == if OnShips(ships, ss, j) then JobState.Kill(jobs[j]) else jobs[j]
  {
    if |ss| == 0 then jobs
    else
      var jobs' := if ss[0] in ships then KillList(jobs, ships[ss[0]].jobs) else jobs;
      var r := KillShips(jobs', ships, ss[1..]);
      forall j | j in jobs
        ensures r[j] == if OnShips(ships, ss, j) then JobState.Kill(jobs[j]) else jobs[j]
      {
        OnShipsStep(ships, ss, j);
      }
      r
  }

  lemma OnShipsStep(ships: map<ShipId, Ship>, ss: seq<ShipId>, j: JobId)
    requires |ss| > 0
    ensures OnShips(ships, ss, j) <==> (ss[0] in ships && j in ships[ss[0]].jobs) || OnShips(ships, ss[1..], j)
  {
    if OnShips(ships, ss[1..], j) {
      var k :| 0 <= k < |ss[1..]| && ss[1..][k] in ships && j in ships[ss[1..][k]].jobs;
      assert ss[k + 1] == ss[1..][k];
    }
    if OnShips(ships, ss, j) && !(ss[0] in ships && j in ships[ss[0]].jobs) {
      var k :| 0 <= k < |ss| && ss[k] in ships && j in ships[ss[k]].jobs;
      assert ss[1..][k - 1] == ss[k];
    }
  }

  /**
   * `killOldThreads`: the table's update loop is told to stop and every job
   * of every ship a port still lists gets its kill flag; no other job and
   * nothing else changes.
   */
  function KillOldThreads(w: World, t: JobTable.Table): (r: (World, JobTable.Table))
    requires Refs(w)
    ensures r.1 == t.(killed := true)
    ensures r.0 == w.(jobs := r.0.jobs) && r.0.jobs.Keys == w.jobs.Keys
    ensures forall j :: j in w.jobs ==>
      r.0.jobs[j] == if OnShips(w.ships, Queries.ListedShips(w), j) then JobState.Kill(w.jobs[j]) else w.jobs[j]
  {
    (w.(jobs := KillShips(w.jobs, w.ships, Queries.ListedShips(w))), t.(killed := true))
  }

  /** After `killOldThreads` a job's kill flag is set exactly when it was set or its ship is still listed by a port. */
  lemma KilledIff(w: World, t: JobTable.Table, j: JobId)
    requires Refs(w) && j in w.jobs
    ensures var r := KillOldThreads(w, t);
      r.0.jobs[j].killFlag <==> w.jobs[j].killFlag || OnShips(w.ships, Queries.ListedShips(w), j)
  {
  }

  // ----- the sort helpers -------------------------------------------------

  /** The sorted list, or the message of the exception thrown instead. */
  datatype SortReply = Reordered(data: seq<nat>) | Rejected(message: string)

  const NoAttribute := "Must select an attribute to sort by"

  /** Ascending, or reversed for "Desc". */
  function Direction(le: (nat, nat) -> bool, sortOrder: string): (nat, nat) -> bool
  {
    if sortOrder == "Desc" then Flip<nat>(le) else le
  }

  lemma DirectionPreorder(le: (nat, nat) -> bool, sortOrder: string)
    requires TotalPreorder(le)
    ensures TotalPreorder(Direction(le, sortOrder))
  {
    FlipPreorder<nat>(le);
  }

  function PortNameOf(w: World): nat -> string
  {
    (p: nat) => if p in w.ports then w.ports[p].name else ""
  }

  function DockNameOf(w: World): nat -> string
  {
    (d: nat) => if d in w.docks then w.docks[d].name else ""
  }

  /** Sorts `data` by `le` in the requested direction. */
  function SortIn(data: seq<nat>, le: (nat, nat) -> bool, sortOrder: string): (r: seq<nat>)
    requires TotalPreorder(le)
    ensures multiset(r) == multiset(data) && Sorted(r, Direction(le, sortOrder))
  {
    DirectionPreorder(le, sortOrder);
    Sort(data, Direction(le, sortOrder))
  }

  /** `sortPortData`: an empty attribute throws; otherwise the ports by name, descending for "Desc". */
  function SortPortData(w: World, data: seq<PortId>, sortBy: string, sortOrder: string): (r: SortReply)
    ensures sortBy == "" <==> r == Rejected(NoAttribute)
    ensures r.Reordered? ==>
      multiset(r.data) == multiset(data) && Sorted(r.data, Direction(ByName<nat>(PortNameOf(w)), sortOrder))
  {
    if sortBy == "" then Rejected(NoAttribute)
    else
      ByNamePreorder<nat>(PortNameOf(w));
      Reordered(SortIn(data, ByName<nat>(PortNameOf(w)), sortOrder))
  }

  /** `sortDockData`: as for ports. */
  function SortDockData(w: World, data: seq<DockId>, sortBy: string, sortOrder: string): (r: SortReply)
    ensures sortBy == "" <==> r == Rejected(NoAttribute)
    ensures r.Reordered? ==>
      multiset(r.data) == multiset(data) && Sorted(r.data, Direction(ByName<nat>(DockNameOf(w)), sortOrder))
  {
    if sortBy == "" then Rejected(NoAttribute)
    else
      ByNamePreorder<nat>(DockNameOf(w));
      Reordered(SortIn(data, ByName<nat>(DockNameOf(w)), sortOrder))
  }

  function ShipNameOf(w: World): nat -> string
  {
    (s: nat) => if s in w.ships then w.ships[s].name else ""
  }

  /** A ship's dimension named by the attribute (zero for a ship that does not exist). */
  function ShipDim(w: World, attr: string): nat -> real
  {
    (s: nat) =>
      if s !in w.ships then 0.0
      else if attr == "Length" then w.ships[s].dims.length
      else if attr == "Width" then w.ships[s].dims.width
      else if attr == "Weight" then w.ships[s].dims.weight
      else w.ships[s].dims.draft
  }

  predicate IsDimension(attr: string)
  {
    attr == "Length" || attr == "Width" || attr == "Weight" || attr == "Draft"
  }

  /** `sortShipData`: by name or one of four dimensions; any other attribute throws. */
  function SortShipData(w: World, data: seq<ShipId>, sortBy: string, sortOrder: string): (r: SortReply)
    ensures sortBy != "Name" && !IsDimension(sortBy) <==> r == Rejected(NoAttribute)
    ensures r.Reordered? ==> multiset(r.data) == multiset(data)
    ensures sortBy == "Name" ==> r.Reordered? && Sorted(r.data, Direction(ByName<nat>(ShipNameOf(w)), sortOrder))
    ensures IsDimension(sortBy) ==> r.Reordered? && Sorted(r.data, Direction(ByReal<nat>(ShipDim(w, sortBy)), sortOrder))
  {
    if sortBy == "Name" then
      ByNamePreorder<nat>(ShipNameOf(w));
      Reordered(SortIn(data, ByName<nat>(ShipNameOf(w)), sortOrder))
    else if IsDimension(sortBy) then
      ByRealPreorder<nat>(ShipDim(w, sortBy));
      Reordered(SortIn(data, ByReal<nat>(ShipDim(w, sortBy)), sortOrder))
    else Rejected(NoAttribute)
  }

  function PersonNameOf(w: World): nat -> string
  {
    (x: nat) => if x in w.persons then w.persons[x].name else ""
  }

  function PersonSkillOf(w: World): nat -> string
  {
    (x: nat) => if x in w.persons then w.persons[x].skill else ""
  }

  /** `sortPersonData`: an empty attribute throws; "Skill" sorts by skill, anything else by name. */
  function SortPersonData(w: World, data: seq<PersonId>, sortBy: string, sortOrder: string): (r: SortReply)
    ensures sortBy == "" <==> r == Rejected(NoAttribute)
    ensures r.Reordered? ==> multiset(r.data) == multiset(data)
    ensures r.Reordered? && sortBy == "Skill" ==> Sorted(r.data, Direction(ByName<nat>(PersonSkillOf(w)), sortOrder))
    ensures r.Reordered? && sortBy != "Skill" ==> Sorted(r.data, Direction(ByName<nat>(PersonNameOf(w)), sortOrder))
  {
    if sortBy == "" then Rejected(NoAttribute)
    else if sortBy == "Skill" then
      ByNamePreorder<nat>(PersonSkillOf(w));
      Reordered(SortIn(data, ByName<nat>(PersonSkillOf(w)), sortOrder))
    else
      ByNamePreorder<nat>(PersonNameOf(w));
      Reordered(SortIn(data, ByName<nat>(PersonNameOf(w)), sortOrder))
  }

  // ----- getCharSequence --------------------------------------------------

  /** `getCharSequence(c, n)`: `n` copies of `c`, none when `n` is not positive. */
  method CharSequence(c: char, n: int) returns (s: string)
    ensures |s| == (if n > 0 then n else 0)
    ensures forall i :: 0 <= i < |s| ==> s[i] == c
  {
    s := "";
    var i := 0;
    while i < n
      invariant i == |s| && (n > 0 ==> i <= n) && (n <= 0 ==> i == 0)
      invariant forall k :: 0 <= k < |s| ==> s[k] == c
    {
      s := s + [c];
      i := i + 1;
    }
  }
}
