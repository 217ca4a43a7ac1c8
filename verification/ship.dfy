/**
 * Ship.java: the constructor's placement of a loaded ship, `initiateJob`
 * and `removeJob`. `addWorkers` and `dock` live in `ShipRecord`, and
 * `leavePort` in `Docking`.
 */
module Ships {
  import opened Model
  import opened Seqs
  import Persons
  import Pool
  import Docking

  // ----- the constructor --------------------------------------------------

  /**
   * The constructor's placement. `dock` and `port` are what the loader's
   * maps hold for the parent index. A parent dock takes the ship and lends it
   * its port; otherwise the parent port queues it; either way the port lists
   * it among its ships. A missing port stops the constructor with the ship
   * already registered, which the loader reports as a broken reference.
   */
  function PlaceShip(w: World, name: string, kind: ShipKind, dims: Dims,
                     dock: Option<DockId>, port: Option<PortId>): (r: (World, Outcome))
    requires dock.Some? ==> dock.value in w.docks && (w.docks[dock.value].port.Some? ==> w.docks[dock.value].port.value in w.ports)
    requires dock.None? && port.Some? ==> port.value in w.ports
    ensures var id := w.nextId;
      && id in r.0.ships && r.0.nextId == id + 1
      && r.0.ships == w.ships[id := r.0.ships[id]]
      && r.0.ships[id].jobs == [] && r.0.ships[id].currentWorkers == []
      && r.0.ships[id].dock == dock
      && r.0.ships[id].port == (if dock.Some? then w.docks[dock.value].port else port)
      && r.1 != BadNumber && (r.1 == Created <==> r.0.ships[id].port.Some?)
      && (r.1 == Created ==>
            var p := r.0.ships[id].port.value;
            && p in r.0.ports
            && r.0.ports[p].ships == w.ports[p].ships + [id]
            && r.0.ports[p].queue == (if dock.Some? then w.ports[p].queue else w.ports[p].queue + [id])
            && r.0.ports == w.ports[p := w.ports[p].(ships := r.0.ports[p].ships, queue := r.0.ports[p].queue)])
      && (r.1 == BrokenRef ==> r.0.ports == w.ports)
      && r.0.docks == (if dock.Some? then w.docks[dock.value := w.docks[dock.value].(ship := Some(id))] else w.docks)
      && r.0.persons == w.persons && r.0.jobs == w.jobs && r.0.portOrder == w.portOrder
  {
    var id := w.nextId;
    var p := if dock.Some? then w.docks[dock.value].port else port;
    var ship := Ship(name, kind, dims, [], [], dock, p);
    var w1 := w.(ships := w.ships[id := ship], nextId := id + 1);
    var w2 := if dock.Some? then w1.(docks := w1.docks[dock.value := w1.docks[dock.value].(ship := Some(id))]) else w1;
    if p.None? then (w2, BrokenRef)
    else
      var port := w2.ports[p.value];
      var port' := if dock.Some? then port.(ships := port.ships + [id])
                   else port.(queue := port.queue + [id], ships := port.ships + [id]);
      (w2.(ports := w2.ports[p.value := port']), Created)
  }

  // ----- initiateJob ------------------------------------------------------

  /** The ship's port exists and its pool is well formed, so the port can be asked for workers. */
  predicate Consultable(w: World, sid: ShipId)
    requires sid in w.ships
  {
    w.ships[sid].port.Some? && w.ships[sid].port.value in w.ports && Pool.PoolShape(w, w.ships[sid].port.value)
  }

  /**
   * `initiateJob`: a job without requirements may start at once and the port
   * is not consulted; otherwise the answer is the port's `requestWorkers`.
   * A refusal never changes anything.
   */
  function InitiateJob(w: World, sid: ShipId, jid: JobId): (r: (World, bool))
    requires sid in w.ships && jid in w.jobs
    requires w.jobs[jid].requirements != [] ==> Consultable(w, sid)
    ensures w.jobs[jid].requirements == [] ==> r == (w, true)
    ensures w.jobs[jid].requirements != [] ==> r == Pool.RequestWorkers(w, w.ships[sid].port.value, sid, jid)
    ensures !r.1 ==> r.0 == w
  {
    if w.jobs[jid].requirements == [] then (w, true)
    else Pool.RequestWorkers(w, w.ships[sid].port.value, sid, jid)
  }

  // ----- removeJob --------------------------------------------------------

  /**
   * Every listed worker exists, and the pool has the skill of every one whose
   * current job is `jid`, so each of those can be handed back.
   */
  predicate Returnable(persons: map<PersonId, Person>, pool: map<string, seq<PersonId>>, ws: seq<PersonId>, jid: JobId)
  {
    && Pool.Known(ws, persons)
    && forall i :: 0 <= i < |ws| ==> (persons[ws[i]].currentJob == Some(jid) ==> persons[ws[i]].skill in pool)
  }

  /**
   * The loop of `removeJob` over the ship's workers, on the persons and the
   * pool of the ship's port: each worker whose current job is `jid` goes
   * through `returnWorker`. Returning clears the current job, so a worker
   * listed twice is returned once.
   */
  function ReturnLoop(persons: map<PersonId, Person>, pool: map<string, seq<PersonId>>, port: PortId,
                      ws: seq<PersonId>, jid: JobId): (r: (map<PersonId, Person>, map<string, seq<PersonId>>))
    requires Returnable(persons, pool, ws, jid)
    ensures r.0.Keys == persons.Keys && r.1.Keys == pool.Keys
    decreases |ws|
  {
    if |ws| == 0 then (persons, pool)
    else
      var x := ws[0];
      assert x in persons;
      if persons[x].currentJob == Some(jid) then
        var k := persons[x].skill;
        var persons' := persons[x := Persons.ClearJobAndReturn(persons[x], port)];
        var pool' := pool[k := pool[k] + [x]];
        assert Returnable(persons', pool', ws[1..], jid) by { ReturnableTail(persons, pool, port, ws, jid); }
        ReturnLoop(persons', pool', port, ws[1..], jid)
      else
        assert Returnable(persons, pool, ws[1..], jid) by { ReturnableTail(persons, pool, port, ws, jid); }
        ReturnLoop(persons, pool, port, ws[1..], jid)
  }

  /** After the first worker is handled the rest stay returnable: a worker that works the job now worked it before. */
  lemma ReturnableTail(persons: map<PersonId, Person>, pool: map<string, seq<PersonId>>, port: PortId,
                       ws: seq<PersonId>, jid: JobId)
    requires Returnable(persons, pool, ws, jid) && |ws| > 0
    ensures ws[0] in persons
    ensures Returnable(persons, pool, ws[1..], jid)
    ensures persons[ws[0]].currentJob == Some(jid) ==>
      var k := persons[ws[0]].skill;
      Returnable(persons[ws[0] := Persons.ClearJobAndReturn(persons[ws[0]], port)], pool[k := pool[k] + [ws[0]]], ws[1..], jid)
  {
    assert ws[0] in persons;
    forall i | 0 <= i < |ws[1..]| ensures ws[1..][i] in persons && (persons[ws[1..][i]].currentJob == Some(jid) ==> persons[ws[1..][i]].skill in pool) {
      assert ws[1..][i] == ws[i + 1];
    }
  }

  /** Every worker that worked the job is back at the port without a job; every other person is unchanged. */
  lemma {:induction false} ReturnLoopPersons(persons: map<PersonId, Person>, pool: map<string, seq<PersonId>>, port: PortId,
                                             ws: seq<PersonId>, jid: JobId, y: PersonId)
    requires Returnable(persons, pool, ws, jid) && y in persons
    ensures ReturnLoop(persons, pool, port, ws, jid).0[y] ==
      if y in ws && persons[y].currentJob == Some(jid) then Persons.ClearJobAndReturn(persons[y], port) else persons[y]
    decreases |ws|
  {
    if |ws| > 0 {
      var x := ws[0];
      ReturnableTail(persons, pool, port, ws, jid);
      assert y in ws <==> y == x || y in ws[1..] by {
        assert ws == [x] + ws[1..];
      }
      if persons[x].currentJob == Some(jid) {
        var k := persons[x].skill;
        ReturnLoopPersons(persons[x := Persons.ClearJobAndReturn(persons[x], port)], pool[k := pool[k] + [x]], port, ws[1..], jid, y);
      } else {
        ReturnLoopPersons(persons, pool, port, ws[1..], jid, y);
      }
    }
  }

  /**
   * The pool list of skill `k` keeps its old contents at the front and
   * gains, behind them, each worker of skill `k` that worked the job, each
   * exactly once however often it is listed.
   */
  lemma {:induction false} ReturnLoopPool(persons: map<PersonId, Person>, pool: map<string, seq<PersonId>>, port: PortId,
                                          ws: seq<PersonId>, jid: JobId, k: string)
    requires Returnable(persons, pool, ws, jid) && k in pool
    ensures var l := pool[k];
      var l' := ReturnLoop(persons, pool, port, ws, jid).1[k];
      && |l| <= |l'| && l'[..|l|] == l
      && Distinct(l'[|l|..])
      && forall y :: y in l'[|l|..] <==> y in ws && y in persons && persons[y].currentJob == Some(jid) && persons[y].skill == k
    decreases |ws|
  {
    var l := pool[k];
    if |ws| == 0 {
      assert ReturnLoop(persons, pool, port, ws, jid).1[k][|l|..] == [];
    } else {
      var x := ws[0];
      ReturnableTail(persons, pool, port, ws, jid);
      var works := persons[x].currentJob == Some(jid);
      var persons1 := if works then persons[x := Persons.ClearJobAndReturn(persons[x], port)] else persons;
      var pool1 := if works then pool[persons[x].skill := pool[persons[x].skill] + [x]] else pool;
      var h := if works && persons[x].skill == k then [x] else [];
      assert pool1[k] == l + h;
      ReturnLoopPool(persons1, pool1, port, ws[1..], jid, k);
      var l' := ReturnLoop(persons1, pool1, port, ws[1..], jid).1[k];
      assert ReturnLoop(persons, pool, port, ws, jid).1[k] == l';
      var t1 := l'[|l + h|..];
      GainStep(l, h, l');
      forall y ensures y in l'[|l|..] <==> y in ws && y in persons && persons[y].currentJob == Some(jid) && persons[y].skill == k {
        assert y in l'[|l|..] <==> y in h || y in t1;
        assert y in ws <==> y == x || y in ws[1..] by {
          assert ws == [x] + ws[1..];
        }
      }
    }
  }

  /** Prepending a fresh head to a distinct tail that follows the same prefix. */
  lemma GainStep<T>(l: seq<T>, h: seq<T>, l': seq<T>)
    requires |h| <= 1
    requires |l + h| <= |l'| && l'[..|l + h|] == l + h && Distinct(l'[|l + h|..])
    requires |h| == 1 ==> h[0] !in l'[|l + h|..]
    ensures |l| <= |l'| && l'[..|l|] == l
    ensures l'[|l|..] == h + l'[|l + h|..] && Distinct(l'[|l|..])
  {
    assert l'[..|l|] == (l + h)[..|l|] == l;
    var t := l'[|l + h|..];
    assert l'[|l|..] == h + t by {
      assert l' == l'[..|l + h|] + t;
    }
    if |h| == 1 {
      forall i, j | 0 <= i < j < |h + t| ensures (h + t)[i] != (h + t)[j] {
        if i > 0 {
          assert (h + t)[i] == t[i - 1] && (h + t)[j] == t[j - 1];
        } else {
          assert (h + t)[j] == t[j - 1];
        }
      }
    }
  }

  /** One iteration of the loop on the world is exactly `returnWorker`. */
  lemma ReturnStepIsReturnWorker(w: World, p: PortId, x: PersonId)
    requires p in w.ports && x in w.persons && w.persons[x].skill in w.ports[p].pool
    ensures var k := w.persons[x].skill; var pool := w.ports[p].pool;
      Pool.ReturnWorker(w, p, x) ==
        w.(persons := w.persons[x := Persons.ClearJobAndReturn(w.persons[x], p)],
           ports := w.ports[p := w.ports[p].(pool := pool[k := pool[k] + [x]])])
  {
  }

  /** The workers of the ship can go back to its port `p`; without a port, none of them works the job. */
  predicate CanReturn(w: World, p: Option<PortId>, ws: seq<PersonId>, jid: JobId)
  {
    && Pool.Known(ws, w.persons)
    && (p.Some? ==> p.value in w.ports && Returnable(w.persons, w.ports[p.value].pool, ws, jid))
    && (p.None? ==> forall i :: 0 <= i < |ws| ==> w.persons[ws[i]].currentJob != Some(jid))
  }

  /** The loop on the world: only the persons and the pool of port `p` change. */
  function ReturnMatching(w: World, p: Option<PortId>, ws: seq<PersonId>, jid: JobId): (r: World)
    requires CanReturn(w, p, ws, jid)
    ensures r.ships == w.ships && r.jobs == w.jobs && r.docks == w.docks
    ensures r.portOrder == w.portOrder && r.nextId == w.nextId
    ensures r.ports.Keys == w.ports.Keys && r.persons.Keys == w.persons.Keys
    ensures forall q :: q in w.ports ==> r.ports[q] == w.ports[q].(pool := r.ports[q].pool)
  {
    if p.None? then w
    else
      var a := ReturnLoop(w.persons, w.ports[p.value].pool, p.value, ws, jid);
      w.(persons := a.0, ports := w.ports[p.value := w.ports[p.value].(pool := a.1)])
  }

  /** The ship may run `removeJob` for `jid`: its matching workers can go back, and it can leave if this was its last job. */
  predicate CanRemove(w: World, sid: ShipId, jid: JobId)
  {
    && sid in w.ships
    && CanReturn(w, w.ships[sid].port, w.ships[sid].currentWorkers, jid)
    && (RemoveFirst(w.ships[sid].jobs, jid) == [] ==> Docking.CanLeave(w, sid))
  }

  /**
   * `removeJob`: the job leaves the ship's list, the workers of that job go
   * back to the ship's port, and the ship leaves its port exactly when no job
   * is left.
   */
  function RemoveJob(w: World, sid: ShipId, jid: JobId): (r: World)
    requires CanRemove(w, sid, jid)
    ensures var jobs := RemoveFirst(w.ships[sid].jobs, jid);
      && sid in r.ships
      && r.ships[sid].jobs == jobs
      && r.ships[sid].currentWorkers == w.ships[sid].currentWorkers
      && r.ships[sid].port == (if jobs == [] then None else w.ships[sid].port)
      && r.ships[sid].dock == (if jobs == [] then None else w.ships[sid].dock)
      && (jobs != [] ==> r.ships == w.ships[sid := w.ships[sid].(jobs := jobs)] && r.docks == w.docks)
      && r.jobs == w.jobs
  {
    var ship := w.ships[sid];
    var jobs := RemoveFirst(ship.jobs, jid);
    var w1 := w.(ships := w.ships[sid := ship.(jobs := jobs)]);
    assert CanReturn(w1, ship.port, ship.currentWorkers, jid);
    var w2 := ReturnMatching(w1, ship.port, ship.currentWorkers, jid);
    if jobs == [] then
      assert Docking.CanLeave(w2, sid) by { ReturnKeepsLeave(w, w1, w2, sid); }
      Docking.LeavePort(w2, sid)
    else w2
  }

  /** Every worker of the ship that worked the job is back at the ship's port without a job; every other person is unchanged. */
  lemma RemoveJobPersons(w: World, sid: ShipId, jid: JobId, y: PersonId)
    requires CanRemove(w, sid, jid) && y in w.persons
    ensures var ship := w.ships[sid]; var r := RemoveJob(w, sid, jid);
      && y in r.persons
      && r.persons[y] == if y in ship.currentWorkers && w.persons[y].currentJob == Some(jid)
                         then Persons.ClearJobAndReturn(w.persons[y], ship.port.value) else w.persons[y]
  {
    var ship := w.ships[sid];
    var jobs := RemoveFirst(ship.jobs, jid);
    var w1 := w.(ships := w.ships[sid := ship.(jobs := jobs)]);
    var w2 := ReturnMatching(w1, ship.port, ship.currentWorkers, jid);
    if jobs == [] {
      assert Docking.CanLeave(w2, sid) by { ReturnKeepsLeave(w, w1, w2, sid); }
      Docking.LeaveKeepsPools(w2, sid);
    }
    assert RemoveJob(w, sid, jid).persons == w2.persons;
    if ship.port.Some? {
      ReturnLoopPersons(w.persons, w.ports[ship.port.value].pool, ship.port.value, ship.currentWorkers, jid, y);
    } else if y in ship.currentWorkers {
      var i :| 0 <= i < |ship.currentWorkers| && ship.currentWorkers[i] == y;
    }
  }

  /**
   * At the ship's port, the pool list of skill `k` keeps its contents and
   * gains behind them each worker of skill `k` that worked the job, once.
   */
  lemma RemoveJobPool(w: World, sid: ShipId, jid: JobId, k: string)
    requires CanRemove(w, sid, jid)
    requires w.ships[sid].port.Some? && k in w.ports[w.ships[sid].port.value].pool
    ensures var ship := w.ships[sid]; var p := ship.port.value; var r := RemoveJob(w, sid, jid);
      var l := w.ports[p].pool[k];
      && p in r.ports && k in r.ports[p].pool
      && var l' := r.ports[p].pool[k];
      && |l| <= |l'| && l'[..|l|] == l
      && Distinct(l'[|l|..])
      && forall y :: y in l'[|l|..] <==>
           y in ship.currentWorkers && y in w.persons && w.persons[y].currentJob == Some(jid) && w.persons[y].skill == k
  {
    var ship := w.ships[sid];
    var p := ship.port.value;
    var jobs := RemoveFirst(ship.jobs, jid);
    var w1 := w.(ships := w.ships[sid := ship.(jobs := jobs)]);
    var w2 := ReturnMatching(w1, ship.port, ship.currentWorkers, jid);
    if jobs == [] {
      assert Docking.CanLeave(w2, sid) by { ReturnKeepsLeave(w, w1, w2, sid); }
      Docking.LeaveKeepsPools(w2, sid);
    }
    assert p in RemoveJob(w, sid, jid).ports && RemoveJob(w, sid, jid).ports[p].pool == w2.ports[p].pool;
    ReturnLoopPool(w.persons, w.ports[p].pool, p, ship.currentWorkers, jid, k);
  }

  /** One iteration of the loop on a busy person of the port keeps the port's conservation invariant. */
  lemma ReturnConserves(port: Port, persons: map<PersonId, Person>, p: PortId, x: PersonId)
    requires Pool.Conserved(port, persons)
    requires x in port.persons && x in persons && persons[x].currentJob != None && persons[x].skill in port.pool
    ensures var k := persons[x].skill;
      Pool.Conserved(port.(pool := port.pool[k := port.pool[k] + [x]]),
                     persons[x := Persons.ClearJobAndReturn(persons[x], p)])
  {
    var v := World([], map[p := port], map[], map[], persons, map[], 0);
    Pool.ReturnPreservesInv(v, p, x);
    ReturnStepIsReturnWorker(v, p, x);
  }

  /**
   * The loop of `removeJob` keeps the conservation invariant of the port
   * when every listed worker is a person of it: each worker still on the job
   * is a busy person of the port, and handing it back is `returnWorker`.
   */
  lemma {:induction false} ReturnLoopConserves(port: Port, persons: map<PersonId, Person>, p: PortId,
                                               ws: seq<PersonId>, jid: JobId)
    requires Pool.Conserved(port, persons) && Returnable(persons, port.pool, ws, jid)
    requires forall i :: 0 <= i < |ws| ==> ws[i] in port.persons
    ensures var a := ReturnLoop(persons, port.pool, p, ws, jid); Pool.Conserved(port.(pool := a.1), a.0)
    decreases |ws|
  {
    if |ws| == 0 {
      assert port.(pool := port.pool) == port;
    } else {
      var x := ws[0];
      ReturnableTail(persons, port.pool, p, ws, jid);
      forall i | 0 <= i < |ws[1..]| ensures ws[1..][i] in port.persons {
        assert ws[1..][i] == ws[i + 1];
      }
      if persons[x].currentJob == Some(jid) {
        var k := persons[x].skill;
        var port' := port.(pool := port.pool[k := port.pool[k] + [x]]);
        var persons' := persons[x := Persons.ClearJobAndReturn(persons[x], p)];
        ReturnConserves(port, persons, p, x);
        ReturnLoopConserves(port', persons', p, ws[1..], jid);
        assert port'.(pool := ReturnLoop(persons', port'.pool, p, ws[1..], jid).1)
            == port.(pool := ReturnLoop(persons', port'.pool, p, ws[1..], jid).1);
      } else {
        ReturnLoopConserves(port, persons, p, ws[1..], jid);
      }
    }
  }

  /**
   * `removeJob` keeps the conservation invariant of the ship's port when the
   * ship's workers are persons of that port, and leaves the port's persons
   * and totals as they were.
   */
  lemma RemoveJobPreservesInv(w: World, sid: ShipId, jid: JobId)
    requires CanRemove(w, sid, jid)
    requires w.ships[sid].port.Some? && Pool.PoolInv(w, w.ships[sid].port.value)
    requires forall i :: 0 <= i < |w.ships[sid].currentWorkers| ==>
      w.ships[sid].currentWorkers[i] in w.ports[w.ships[sid].port.value].persons
    ensures var p := w.ships[sid].port.value; var r := RemoveJob(w, sid, jid);
      && p in r.ports && Pool.PoolInv(r, p)
      && r.ports[p].persons == w.ports[p].persons && r.ports[p].totals == w.ports[p].totals
  {
    var ship := w.ships[sid];
    var p := ship.port.value;
    var jobs := RemoveFirst(ship.jobs, jid);
    var w1 := w.(ships := w.ships[sid := ship.(jobs := jobs)]);
    var w2 := ReturnMatching(w1, ship.port, ship.currentWorkers, jid);
    var a := ReturnLoop(w.persons, w.ports[p].pool, p, ship.currentWorkers, jid);
    assert Pool.Conserved(w.ports[p].(pool := a.1), a.0) by {
      ReturnLoopConserves(w.ports[p], w.persons, p, ship.currentWorkers, jid);
    }
    assert w2.ports[p] == w.ports[p].(pool := a.1) && w2.persons == a.0;
    var r := RemoveJob(w, sid, jid);
    if jobs == [] {
      assert Docking.CanLeave(w2, sid) by { ReturnKeepsLeave(w, w1, w2, sid); }
      assert r == Docking.LeavePort(w2, sid);
      Docking.LeaveKeepsPools(w2, sid);
      Pool.ConservedFields(w2.ports[p], r.ports[p], a.0);
    } else {
      assert r == w2;
    }
  }


  /** Returning workers touches neither docks, ships nor queues, so a ship that could leave still can. */
  lemma ReturnKeepsLeave(w: World, w1: World, w2: World, sid: ShipId)
    requires Docking.CanLeave(w, sid)
    requires w1.ships.Keys == w.ships.Keys && w1.ships[sid].dock == w.ships[sid].dock
    requires w1.docks == w.docks && w1.ports == w.ports
    requires w2.docks == w1.docks && w2.ships == w1.ships && w2.ports.Keys == w1.ports.Keys
    requires forall q :: q in w1.ports ==> w2.ports[q].queue == w1.ports[q].queue
    ensures Docking.CanLeave(w2, sid)
  {
    if w.ships[sid].dock.Some? {
      var d := w.ships[sid].dock.value;
      var p := w.docks[d].port.value;
      assert Docking.QueueKnown(w2, p) by {
        assert Docking.QueueKnown(w, p);
      }
    }
  }
}
