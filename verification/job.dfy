/**
 * Job.java: the constructor and `run`. The body of `run` is a step machine
 * over the program counter `Pc`; each step is one atomic transition of the
 * world. Time is logical: elapsed milliseconds since the work started.
 */
module Jobs {
  import opened Model
  import opened Seqs
  import Ships
  import Pool
  import Docking

  // ----- the constructor --------------------------------------------------

  /**
   * The constructor for a job of ship `sid`. The job is appended to the
   * ship's list and records the ship's port before anything can fail. A
   * duration that does not parse stops it there (the flags keep Java's
   * defaults and no requirement is read); a ship without a port stops it
   * when the job table reads the port's name. Only a completed job is live:
   * it is waiting to dock with progress 0, the go flag set and the kill flag
   * clear.
   */
  function NewJob(w: World, name: string, sid: ShipId, duration: Option<int>, reqs: seq<string>): (r: (World, Outcome))
    requires sid in w.ships
    ensures var id := w.nextId; var ship := w.ships[sid];
      && id in r.0.jobs && r.0.jobs == w.jobs[id := r.0.jobs[id]] && r.0.nextId == id + 1
      && sid in r.0.ships && r.0.ships == w.ships[sid := ship.(jobs := ship.jobs + [id])]
      && r.0.jobs[id].ship == sid && r.0.jobs[id].port == ship.port && r.0.jobs[id].name == name
      && r.1 == (if duration.None? then BadNumber else if ship.port.None? then BrokenRef else Created)
      && (r.0.jobs[id].live <==> r.1 == Created)
      && (duration.Some? ==>
            && r.0.jobs[id].durationMs == duration.value && r.0.jobs[id].requirements == reqs
            && r.0.jobs[id].status == WaitingToDock && r.0.jobs[id].progress == 0
            && r.0.jobs[id].goFlag && !r.0.jobs[id].killFlag)
      && r.0.ports == w.ports && r.0.docks == w.docks && r.0.persons == w.persons && r.0.portOrder == w.portOrder
  {
    var id := w.nextId;
    var ship := w.ships[sid];
    var w1 := w.(ships := w.ships[sid := ship.(jobs := ship.jobs + [id])], nextId := id + 1);
    if duration.None? then
      (w1.(jobs := w.jobs[id := Job(name, sid, ship.port, 0, [], false, false, 0, WaitingToDock, false)]), BadNumber)
    else
      var live := ship.port.Some?;
      var job := Job(name, sid, ship.port, duration.value, reqs, true, false, 0, WaitingToDock, live);
      (w1.(jobs := w.jobs[id := job]), if live then Created else BrokenRef)
  }

  // ----- one tick and the finish, on the job alone ------------------------

  /** The program counter of `run`. `Ticking(e)` holds the logical time elapsed since the work started. */
  datatype Pc = Start | DockWaiting | Acquiring | ResourceWaiting | Ticking(elapsed: nat) | Ended

  /** The progress the job reports after `e` of `d` milliseconds: the truncated percentage. */
  function ProgressAt(e: int, d: int): int
    requires d > 0
  {
    (e * 100) / d
  }

  /** The work loop goes round once more: time is left and the job is not killed. */
  predicate Continues(j: Job, e: int)
  {
    e < j.durationMs && !j.killFlag
  }

  /**
   * One round of the work loop. With the go flag set the job runs: 100 ms
   * pass, the status is `Running` and the progress is recomputed. Without it
   * the job is suspended and neither time nor progress moves.
   */
  function Tick(j: Job, e: nat): (r: (Job, nat))
    requires Continues(j, e)
    ensures j.goFlag ==> r.1 == e + 100 && r.0 == j.(status := Running, progress := ProgressAt(e + 100, j.durationMs))
    ensures !j.goFlag ==> r.1 == e && r.0 == j.(status := Suspended)
  {
    if j.goFlag then (j.(status := Running, progress := ProgressAt(e + 100, j.durationMs)), e + 100)
    else (j.(status := Suspended), e)
  }

  /**
   * After the loop: a killed job drops its progress to 0 and is `Cancelled`
   * unless it already failed for lack of resources; any other job is `Done`
   * at 100.
   */
  function Finish(j: Job): (r: Job)
    ensures j.killFlag ==> r.progress == 0 && r.status == (if j.status == LackOfResources then LackOfResources else Cancelled)
    ensures !j.killFlag ==> r.progress == 100 && r.status == Done
    ensures r.(progress := j.progress, status := j.status) == j
  {
    if j.killFlag then j.(progress := 0, status := if j.status == LackOfResources then LackOfResources else Cancelled)
    else j.(progress := 100, status := Done)
  }

  lemma DivMono(a: int, b: int, d: int)
    requires 0 < d && a <= b
    ensures a / d <= b / d
  {
    var qa, ra := a / d, a % d;
    var qb, rb := b / d, b % d;
    assert a == d * qa + ra && 0 <= ra < d;
    assert b == d * qb + rb && 0 <= rb < d;
    if qa > qb {
      MulLe(d, qb + 1, qa);
      assert false;
    }
  }

  lemma MulLe(d: int, x: int, y: int)
    requires 0 < d && x <= y
    ensures d * x <= d * y
  {
    assert d * y == d * x + d * (y - x);
  }

  /** Progress never goes down across running ticks: each tick reports a later time over the same duration. */
  lemma TickMonotone(j: Job, e: nat)
    requires Continues(j, e) && j.goFlag && j.durationMs > 0
    requires j.progress == ProgressAt(e, j.durationMs)
    ensures Tick(j, e).0.progress >= j.progress
  {
    DivMono(e * 100, (e + 100) * 100, j.durationMs);
  }

  /**
   * The progress can exceed 100 on the last tick: with a duration of 150 ms
   * the second tick reports 133 before the finish sets 100.
   */
  lemma ProgressOvershoots(j: Job)
    requires j.durationMs == 150 && j.goFlag && !j.killFlag
    ensures Tick(j, 100).0.progress == 133
    ensures Finish(Tick(j, 100).0).progress == 100
  {
  }

  // ----- how many running ticks -------------------------------------------

  /** The number of running ticks from elapsed time `e` until the loop's time runs out at `d`. */
  function TickCount(e: int, d: int): nat
    decreases d - e
  {
    if e >= d then 0 else 1 + TickCount(e + 100, d)
  }

  /** From the start, the loop runs ceil(d / 100) times for a positive duration and not at all otherwise. */
  lemma {:induction false} TickCountCeil(e: int, d: int)
    ensures TickCount(e, d) == if e >= d then 0 else (d - e + 99) / 100
    decreases d - e
  {
    if e < d {
      TickCountCeil(e + 100, d);
      if e + 100 < d {
        assert (d - e + 99) / 100 == (d - (e + 100) + 99) / 100 + 1;
      } else {
        assert 0 < d - e + 99 && d - e + 99 < 200;
      }
    }
  }

  /**
   * The work loop of a job that is never suspended or killed: it ticks until
   * the time runs out. The result is the job, the final elapsed time and the
   * number of ticks.
   */
  function RunLoop(j: Job, e: nat): (r: (Job, nat, nat))
    requires j.goFlag && !j.killFlag
    ensures !Continues(r.0, r.1) && r.1 == e + 100 * r.2
    ensures r.2 == TickCount(e, j.durationMs)
    ensures r.0.(status := j.status, progress := j.progress) == j
    ensures r.2 > 0 ==> r.0.status == Running && r.0.progress == ProgressAt(r.1, j.durationMs)
    decreases j.durationMs - e
  {
    if Continues(j, e) then
      var t := Tick(j, e);
      var r := RunLoop(t.0, t.1);
      (r.0, r.1, r.2 + 1)
    else (j, e, 0)
  }

  /**
   * A job that is never suspended or killed ticks exactly ceil(d / 100)
   * times and ends `Done` at 100.
   */
  lemma UndisturbedRun(j: Job)
    requires j.goFlag && !j.killFlag && j.durationMs > 0
    ensures var r := RunLoop(j, 0);
      && r.2 == (j.durationMs + 99) / 100
      && Finish(r.0).status == Done && Finish(r.0).progress == 100
  {
    TickCountCeil(0, j.durationMs);
  }

  /** The number of rounds of the schedule `go` that run. */
  function Runs(go: seq<bool>): nat
  {
    if |go| == 0 then 0 else (if go[0] then 1 else 0) + Runs(go[1..])
  }

  /**
   * The work loop while the go flag is toggled between rounds and nobody
   * kills the job: round `k` runs with the go flag `go[k]`, and the loop
   * stops when the time runs out or the schedule ends. The result is the
   * job, the elapsed time and the number of running rounds. Only a running
   * round advances the time, so the loop ends after exactly as many running
   * rounds as an undisturbed run takes, whatever the suspended rounds
   * between them.
   */
  function ScheduledLoop(j: Job, e: nat, go: seq<bool>): (r: (Job, nat, nat))
    requires !j.killFlag
    ensures r.1 == e + 100 * r.2
    ensures r.2 <= TickCount(e, j.durationMs) && r.2 <= Runs(go)
    ensures !Continues(r.0, r.1) <==> r.2 == TickCount(e, j.durationMs)
    ensures r.0.(status := j.status, progress := j.progress, goFlag := j.goFlag) == j
    ensures r.0.progress == if r.2 > 0 then ProgressAt(r.1, j.durationMs) else j.progress
    decreases |go|
  {
    if |go| == 0 || !Continues(j, e) then (j, e, 0)
    else
      var t := Tick(j.(goFlag := go[0]), e);
      var r := ScheduledLoop(t.0, t.1, go[1..]);
      (r.0, r.1, r.2 + if go[0] then 1 else 0)
  }

  /** A schedule with enough running rounds lets the time run out. */
  lemma {:induction false} ScheduleEnds(j: Job, e: nat, go: seq<bool>)
    requires !j.killFlag && Runs(go) >= TickCount(e, j.durationMs)
    ensures var r := ScheduledLoop(j, e, go); !Continues(r.0, r.1)
    decreases |go|
  {
    if |go| > 0 && Continues(j, e) {
      var t := Tick(j.(goFlag := go[0]), e);
      ScheduleEnds(t.0, t.1, go[1..]);
    }
  }

  /**
   * A job that is suspended and resumed any number of times but never
   * killed has run ceil(d / 100) rounds when its time is up, and then ends
   * `Done` at 100.
   */
  lemma SuspendedRun(j: Job, go: seq<bool>)
    requires !j.killFlag && j.durationMs > 0
    ensures var r := ScheduledLoop(j, 0, go);
      && (!Continues(r.0, r.1) <==> r.2 == (j.durationMs + 99) / 100)
      && (!Continues(r.0, r.1) ==> Finish(r.0).status == Done && Finish(r.0).progress == 100)
  {
    TickCountCeil(0, j.durationMs);
  }

  // ----- the step machine on the world ------------------------------------

  /** The job exists, its constructor completed, and its ship exists. */
  predicate Alive(w: World, jid: JobId)
  {
    jid in w.jobs && w.jobs[jid].live && w.jobs[jid].ship in w.ships
  }

  /**
   * The step from `pc` can be taken: a dock wait ends only once the ship is
   * docked; an acquisition attempt that consults the port needs the port;
   * the finish needs `removeJob` to be possible.
   */
  predicate Enabled(w: World, jid: JobId, pc: Pc)
    requires Alive(w, jid)
  {
    var j := w.jobs[jid];
    match pc
    case Start => true
    case DockWaiting => w.ships[j.ship].dock.Some?
    case Acquiring => j.requirements != [] ==> Ships.Consultable(w, j.ship)
    case ResourceWaiting => true
    case Ticking(e) => !Continues(j, e) ==> Ships.CanRemove(w, j.ship, jid)
    case Ended => false
  }

  /** Stores `j` as job `jid`. */
  function SetJob(w: World, jid: JobId, j: Job): (r: World)
    ensures r.jobs == w.jobs[jid := j]
    ensures r.(jobs := w.jobs) == w
  {
    w.(jobs := w.jobs[jid := j])
  }

  /**
   * What a step may do to the jobs: job `jid` stays alive with only its
   * status, progress and kill flag changed, a kill is never undone, and no
   * other job changes.
   */
  predicate JobFrame(w: World, r: World, jid: JobId)
    requires Alive(w, jid)
  {
    var j := w.jobs[jid];
    && Alive(r, jid)
    && r.jobs.Keys == w.jobs.Keys
    && (forall k :: k in w.jobs && k != jid ==> r.jobs[k] == w.jobs[k])
    && r.jobs[jid].(status := j.status, progress := j.progress, killFlag := j.killFlag) == j
    && (j.killFlag ==> r.jobs[jid].killFlag)
  }

  /** `initiateJob` keeps to the frame: a grant changes no job and a cancellation only kills this one. */
  lemma InitiateFrame(w: World, jid: JobId)
    requires Alive(w, jid) && Enabled(w, jid, Acquiring)
    ensures JobFrame(w, Ships.InitiateJob(w, w.jobs[jid].ship, jid).0, jid)
  {
    var j := w.jobs[jid];
    var a := Ships.InitiateJob(w, j.ship, jid).0;
    if j.requirements != [] {
      var p := w.ships[j.ship].port.value;
      var port := w.ports[p];
      if |port.pool| > 0 && Pool.Feasible(j.requirements, port.totals) && Pool.Available(j.requirements, port.pool) {
        assert Pool.Granted(w, a, p, j.ship, jid);
        assert a.jobs == w.jobs && j.ship in a.ships;
      }
    }
  }

  /**
   * The acquisition step: the kill flag is looked at only after the attempt.
   * A refused attempt of a job that is not killed waits for resources;
   * otherwise the work loop starts at time 0.
   */
  function Acquire(w: World, jid: JobId): (r: (World, Pc))
    requires Alive(w, jid) && Enabled(w, jid, Acquiring)
    ensures JobFrame(w, r.0, jid)
    ensures r.1 == ResourceWaiting || r.1 == Ticking(0)
  {
    var a := Ships.InitiateJob(w, w.jobs[jid].ship, jid);
    assert JobFrame(w, a.0, jid) by { InitiateFrame(w, jid); }
    if !a.1 && !a.0.jobs[jid].killFlag then
      (SetJob(a.0, jid, a.0.jobs[jid].(status := WaitingForResources)), ResourceWaiting)
    else (a.0, Ticking(0))
  }

  /**
   * A step of the work loop from elapsed time `e`: one round while the time
   * lasts and the job is not killed, otherwise the finish followed by
   * `removeJob`, which ends the machine.
   */
  function Work(w: World, jid: JobId, e: nat): (r: (World, Pc))
    requires Alive(w, jid) && Enabled(w, jid, Ticking(e))
    ensures JobFrame(w, r.0, jid)
    ensures r.1 != Start
    ensures r.1.Ended? <==> !Continues(w.jobs[jid], e)
    ensures r.1.Ended? ==> r.0.jobs[jid].status in {Done, Cancelled, LackOfResources}
    ensures r.1.Ended? ==> r.0.jobs[jid].progress == if w.jobs[jid].killFlag then 0 else 100
  {
    var j := w.jobs[jid];
    if Continues(j, e) then
      var t := Tick(j, e);
      (SetJob(w, jid, t.0), Ticking(t.1))
    else (FinishJob(w, jid), Ended)
  }

  /** Storing a job does not change whether `removeJob` can run: that reads no job. */
  lemma SetJobKeepsRemove(w: World, jid: JobId, j: Job, sid: ShipId)
    requires Ships.CanRemove(w, sid, jid)
    ensures Ships.CanRemove(SetJob(w, jid, j), sid, jid)
  {
    var r := SetJob(w, jid, j);
    assert r.ships == w.ships && r.persons == w.persons && r.ports == w.ports && r.docks == w.docks;
  }

  /** The finish: the job takes its final status and progress, then the ship runs `removeJob` for it. */
  function FinishJob(w: World, jid: JobId): (r: World)
    requires Alive(w, jid) && Ships.CanRemove(w, w.jobs[jid].ship, jid)
    ensures JobFrame(w, r, jid)
    ensures r.jobs[jid] == Finish(w.jobs[jid])
  {
    var j := w.jobs[jid];
    var w1 := SetJob(w, jid, Finish(j));
    assert Ships.CanRemove(w1, j.ship, jid) by { SetJobKeepsRemove(w, jid, Finish(j), j.ship); }
    Ships.RemoveJob(w1, j.ship, jid)
  }

  /**
   * One atomic step of `run`.
   * - `Start`: wait for the dock unless the ship is docked or the job killed.
   * - `DockWaiting`: the ship docked and woke the job.
   * - `Acquiring`: ask the ship to initiate the job. The kill flag is looked
   *   at only after the attempt. A refused attempt of a job that is not
   *   killed waits for resources; otherwise the work loop starts.
   * - `ResourceWaiting`: a returned worker, the pool's build or a spurious
   *   wake-up ends the wait and the job tries again.
   * - `Ticking(e)`: one round of the work loop, or the finish followed by
   *   `removeJob`.
   */
  function Step(w: World, jid: JobId, pc: Pc): (r: (World, Pc))
    requires Alive(w, jid) && Enabled(w, jid, pc)
    ensures JobFrame(w, r.0, jid)
    ensures r.1 != Start
    ensures r.1.Ended? <==> pc.Ticking? && !Continues(w.jobs[jid], pc.elapsed)
    ensures r.1.Ended? ==> r.0.jobs[jid].status in {Done, Cancelled, LackOfResources}
    ensures r.1.Ended? ==> r.0.jobs[jid].progress == if w.jobs[jid].killFlag then 0 else 100
  {
    var j := w.jobs[jid];
    match pc
    case Start =>
      if w.ships[j.ship].dock.None? && !j.killFlag then (w, DockWaiting) else (w, Acquiring)
    case DockWaiting => (w, Acquiring)
    case Acquiring => Acquire(w, jid)
    case ResourceWaiting => (w, Acquiring)
    case Ticking(e) => Work(w, jid, e)
  }

  /** The dock wait is skipped exactly when the ship is docked or the job killed, and the job is left `WaitingToDock` as it was. */
  lemma StartStep(w: World, jid: JobId)
    requires Alive(w, jid)
    ensures var j := w.jobs[jid]; var r := Step(w, jid, Start);
      && r.0 == w
      && (r.1 == DockWaiting <==> w.ships[j.ship].dock.None? && !j.killFlag)
      && (r.1 != DockWaiting ==> r.1 == Acquiring)
  {
  }

  /**
   * The acquisition attempt happens whatever the kill flag says. A refusal
   * leaves the world unchanged except that a job that is not killed now
   * waits for resources; a job that was granted, cancelled, has no
   * requirements or was killed goes on to the work loop at time 0.
   */
  lemma AcquireStep(w: World, jid: JobId)
    requires Alive(w, jid) && Enabled(w, jid, Acquiring)
    ensures var j := w.jobs[jid]; var a := Ships.InitiateJob(w, j.ship, jid); var r := Step(w, jid, Acquiring);
      && (!a.1 && !j.killFlag ==> r == (SetJob(w, jid, j.(status := WaitingForResources)), ResourceWaiting))
      && (a.1 || j.killFlag ==> r == (a.0, Ticking(0)))
  {
    var j := w.jobs[jid];
    var a := Ships.InitiateJob(w, j.ship, jid);
    if !a.1 {
      assert a.0 == w;
    }
  }

  /**
   * The work loop only ever changes this job and only ever ends by the
   * finish, which calls `removeJob` for this job once: the step that does so
   * is the one that reaches `Ended`, from which no step is enabled.
   */
  lemma TickStep(w: World, jid: JobId, e: nat)
    requires Alive(w, jid) && Enabled(w, jid, Ticking(e))
    ensures var j := w.jobs[jid]; var r := Step(w, jid, Ticking(e));
      && (Continues(j, e) ==> r == (SetJob(w, jid, Tick(j, e).0), Ticking(Tick(j, e).1)))
      && (!Continues(j, e) ==> r == (Ships.RemoveJob(SetJob(w, jid, Finish(j)), j.ship, jid), Ended))
      && (r.1 == Ended <==> !Continues(j, e))
  {
  }

  /**
   * A job cancelled for lack of resources is killed and stays so: no step
   * clears the kill flag or changes that status, so it never runs.
   */
  lemma LackIsFinal(w: World, jid: JobId, pc: Pc)
    requires Alive(w, jid) && Enabled(w, jid, pc)
    requires w.jobs[jid].killFlag && w.jobs[jid].status == LackOfResources
    ensures var r := Step(w, jid, pc);
      jid in r.0.jobs && r.0.jobs[jid].killFlag && r.0.jobs[jid].status == LackOfResources
  {
    var j := w.jobs[jid];
    if pc == Acquiring {
      var a := Ships.InitiateJob(w, j.ship, jid);
      LackSurvivesInitiate(w, jid);
    }
  }

  /** Initiating a killed, resource-starved job leaves it so, whichever branch `requestWorkers` takes. */
  lemma LackSurvivesInitiate(w: World, jid: JobId)
    requires Alive(w, jid) && Enabled(w, jid, Acquiring)
    requires w.jobs[jid].killFlag && w.jobs[jid].status == LackOfResources
    ensures var a := Ships.InitiateJob(w, w.jobs[jid].ship, jid);
      jid in a.0.jobs && a.0.jobs[jid].killFlag && a.0.jobs[jid].status == LackOfResources
  {
  }

  // ----- the step machine keeps the pool invariant -------------------------

  /** The ship is at port `p`, which keeps the conservation invariant and employs every worker of the ship. */
  predicate AtPortInv(w: World, sid: ShipId, p: PortId)
    requires sid in w.ships
  {
    && w.ships[sid].port == Some(p) && p in w.ports && Pool.PoolInv(w, p)
    && forall i :: 0 <= i < |w.ships[sid].currentWorkers| ==> w.ships[sid].currentWorkers[i] in w.ports[p].persons
  }

  /** Storing a job touches no port, person or ship. */
  lemma SetJobKeepsInv(w: World, jid: JobId, j: Job, sid: ShipId, p: PortId)
    requires sid in w.ships && AtPortInv(w, sid, p)
    ensures var r := SetJob(w, jid, j); sid in r.ships && AtPortInv(r, sid, p)
  {
    var r := SetJob(w, jid, j);
    assert r.ports == w.ports && r.persons == w.persons && r.ships == w.ships;
  }

  /** `initiateJob` keeps the invariant at the ship's port; granted workers come from that port. */
  lemma InitiateKeepsInv(w: World, jid: JobId, p: PortId)
    requires Alive(w, jid) && Enabled(w, jid, Acquiring)
    requires AtPortInv(w, w.jobs[jid].ship, p)
    ensures var sid := w.jobs[jid].ship; var a := Ships.InitiateJob(w, sid, jid).0;
      sid in a.ships && AtPortInv(a, sid, p)
  {
    var j := w.jobs[jid];
    var sid := j.ship;
    var reqs := j.requirements;
    var port := w.ports[p];
    if reqs != [] {
      Pool.RequestPreservesInv(w, p, sid, jid);
      if |port.pool| > 0 && Pool.Feasible(reqs, port.totals) && Pool.Available(reqs, port.pool) {
        GrantKeepsWorkers(w, jid, p);
      }
    }
  }

  /** A granted request adds the heads of the port's lists to the ship's workers, so they stay persons of the port. */
  lemma GrantKeepsWorkers(w: World, jid: JobId, p: PortId)
    requires Alive(w, jid) && Enabled(w, jid, Acquiring)
    requires AtPortInv(w, w.jobs[jid].ship, p)
    requires var reqs := w.jobs[jid].requirements; var port := w.ports[p];
      reqs != [] && |port.pool| > 0 && Pool.Feasible(reqs, port.totals) && Pool.Available(reqs, port.pool)
    ensures var sid := w.jobs[jid].ship; var a := Ships.InitiateJob(w, sid, jid).0;
      && sid in a.ships && p in a.ports
      && forall i :: 0 <= i < |a.ships[sid].currentWorkers| ==> a.ships[sid].currentWorkers[i] in a.ports[p].persons
  {
    var sid := w.jobs[jid].ship;
    var a := Ships.InitiateJob(w, sid, jid).0;
    assert Pool.Granted(w, a, p, sid, jid);
    Pool.GrantWorkersAtPort(w, a, p, sid, jid);
  }


  /** An acquisition attempt keeps the invariant at the ship's port. */
  lemma AcquireKeepsInv(w: World, jid: JobId, p: PortId)
    requires Alive(w, jid) && Enabled(w, jid, Acquiring)
    requires AtPortInv(w, w.jobs[jid].ship, p)
    ensures var sid := w.jobs[jid].ship; var r := Step(w, jid, Acquiring).0;
      sid in r.ships && AtPortInv(r, sid, p)
  {
    var sid := w.jobs[jid].ship;
    var a := Ships.InitiateJob(w, sid, jid);
    InitiateKeepsInv(w, jid, p);
    if !a.1 && !a.0.jobs[jid].killFlag {
      SetJobKeepsInv(a.0, jid, a.0.jobs[jid].(status := WaitingForResources), sid, p);
    }
  }

  /** The finish keeps the invariant at the ship's port, which the ship keeps or leaves with its workers still employed there. */
  lemma FinishKeepsInv(w: World, jid: JobId, e: nat, p: PortId)
    requires Alive(w, jid) && Enabled(w, jid, Ticking(e)) && !Continues(w.jobs[jid], e)
    requires AtPortInv(w, w.jobs[jid].ship, p)
    ensures var sid := w.jobs[jid].ship; var r := Step(w, jid, Ticking(e)).0;
      && p in r.ports && Pool.PoolInv(r, p) && sid in r.ships
      && (r.ships[sid].port.Some? ==> AtPortInv(r, sid, p))
  {
    var j := w.jobs[jid];
    var sid := j.ship;
    var w1 := SetJob(w, jid, Finish(j));
    SetJobKeepsInv(w, jid, Finish(j), sid, p);
    Ships.RemoveJobPreservesInv(w1, sid, jid);
  }

  /**
   * Every step keeps the conservation invariant of the ship's port, and the
   * ship either stays there with every worker still a person of that port
   * or, after its last job, leaves it.
   */
  lemma StepPreservesInv(w: World, jid: JobId, pc: Pc, p: PortId)
    requires Alive(w, jid) && Enabled(w, jid, pc)
    requires AtPortInv(w, w.jobs[jid].ship, p)
    ensures var sid := w.jobs[jid].ship; var r := Step(w, jid, pc).0;
      && p in r.ports && Pool.PoolInv(r, p) && sid in r.ships
      && (r.ships[sid].port.Some? ==> AtPortInv(r, sid, p))
  {
    var j := w.jobs[jid];
    match pc
    case Acquiring => AcquireKeepsInv(w, jid, p);
    case Ticking(e) =>
      if Continues(j, e) {
        SetJobKeepsInv(w, jid, Tick(j, e).0, j.ship, p);
      } else {
        FinishKeepsInv(w, jid, e, p);
      }
    case _ =>
  }

  /** A job waiting for its ship to dock can go on once a dock takes the ship. */
  lemma DockArrivalEnables(w: World, jid: JobId, d: DockId)
    requires Alive(w, jid) && d in w.docks
    ensures var r := Docking.AssignShip(w, d, w.jobs[jid].ship);
      Alive(r, jid) && Enabled(r, jid, DockWaiting)
  {
  }
}
