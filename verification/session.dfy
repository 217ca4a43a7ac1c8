/**
 * The load button of the main window. Unless this is the first load, the
 * old jobs are killed first; then the file is read into a fresh world and
 * job table, the table is sorted by port, the first port's button is
 * selected, and docked ships without jobs are sent away. Only a listener
 * that reaches its last statement clears the first-load flag.
 */
module Session {
  import opened Model
  import opened Sorting
  import JobTable
  import Monitor
  import Loader
  import Pool
  import Queries

  /** What outlives one press of the button: the world, the job table, and whether no load has completed yet. */
  datatype Window = Window(w: World, table: JobTable.Table, initial: bool)

  /** What the file name field yields: nothing, a file that cannot be opened, or a readable file as lines. */
  datatype Source = NoName | Unreadable | Readable(lines: seq<Loader.Line>)

  /**
   * How the listener ends: it completes; it stops at the "Must choose a data
   * file" dialog; it catches `FileNotFoundException`; or an exception it does
   * not catch leaves it midway.
   */
  datatype Ending = Completed | NoFileChosen | NotFound | Interrupted

  const Start := Window(EmptyWorld, JobTable.EmptyTable, true)

  /** The previous world once `killOldThreads` has or has not run: its job threads keep this state. */
  function Previous(s: Window): (r: World)
    requires Refs(s.w)
    ensures r.jobs.Keys == s.w.jobs.Keys && r == s.w.(jobs := r.jobs)
    ensures Refs(r)
    ensures forall j :: j in s.w.jobs && !s.initial && Monitor.OnShips(s.w.ships, Queries.ListedShips(s.w), j) ==>
      r.jobs[j].killFlag
    ensures s.initial ==> r == s.w
  {
    if s.initial then s.w else Monitor.KillOldThreads(s.w, s.table).0
  }

  /** The load completes: the port sort finds every listed job's port, and there is a first port button to select. */
  predicate Completes(l: Loader.Load)
  {
    JobTable.PortSortable(l.table, l.w) && |l.w.portOrder| > 0
  }

  /** A completed load: pools conserved, the table sorted by port as the file named them, every dock of a listed port settled. */
  predicate Finished(s: Window, loaded: World)
  {
    && Refs(s.w) && !s.initial
    && (forall p :: p in s.w.ports ==> Pool.PoolInv(s.w, p))
    && s.table.col == Some(JobTable.PortColumn) && s.table.order == Some(JobTable.Ascending)
    && Sorted(s.table.data, JobTable.PortAscending(loaded))
    && forall i, k :: 0 <= i < |s.w.portOrder| && 0 <= k < |s.w.ports[s.w.portOrder[i]].docks| ==>
         Monitor.Settled(s.w, s.w.ports[s.w.portOrder[i]].docks[k])
  }

  /** The tail of the listener after a sort that succeeds: the sweep. */
  function Finish(l: Loader.Load): (r: Window)
    requires Loader.Loaded(l) && JobTable.PortSortable(l.table, l.w)
    ensures Finished(r, l.w)
  {
    var t := JobTable.SortBy(l.table, l.w, JobTable.PortColumn);
    var w := Monitor.PostLoadSweep(l.w);
    Monitor.KeptRefs(l.w, w);
    Monitor.PostLoadSettled(l.w);
    SweptPools(l.w, w);
    Window(w, t, false)
  }

  /**
   * The listener after `processDataFile` returns: the port sort, which
   * throws on a job without a port; the first port button, which is missing
   * when there is no port; then the sweep.
   */
  function AfterLoad(l: Loader.Load, initial: bool): (r: (Window, Ending))
    requires Loader.Loaded(l)
    ensures Refs(r.0.w)
    ensures r.1 == Completed || r.1 == Interrupted
    ensures r.1 == Completed <==> Completes(l)
    ensures r.1 == Completed ==> Finished(r.0, l.w)
    ensures r.1 == Interrupted ==> r.0.w == l.w && r.0.initial == initial
  {
    if !JobTable.PortSortable(l.table, l.w) then
      (Window(l.w, l.table, initial), Interrupted)
    else if |l.w.portOrder| == 0 then
      (Window(l.w, JobTable.SortBy(l.table, l.w, JobTable.PortColumn), initial), Interrupted)
    else
      (Finish(l), Completed)
  }

  /**
   * One press of the load button. The result holds the window afterwards,
   * how the listener ended, and the previous world as its threads see it.
   * A missing file leaves the freshly created, empty world and table in
   * place; an interrupted load leaves the loaded world unswept.
   */
  function LoadButton(s: Window, src: Source): (r: (Window, Ending, World))
    requires Refs(s.w)
    ensures Refs(r.0.w)
    ensures r.2 == Previous(s)
    ensures r.0.initial == (s.initial && r.1 != Completed)
    ensures r.1 == NoFileChosen <==> src == NoName
    ensures r.1 == NotFound <==> src == Unreadable
    ensures src == NoName ==> r.0.w == r.2 && r.0.table == s.table.(killed := s.table.killed || !s.initial)
    ensures src == Unreadable ==> r.0.w == EmptyWorld && r.0.table == JobTable.EmptyTable
    ensures src.Readable? ==> (r.1 == Completed <==> Completes(Loader.LoadFile(src.lines)))
    ensures r.1 == Completed ==> src.Readable? && Finished(r.0, Loader.LoadFile(src.lines).w)
  {
    var prev := Previous(s);
    match src
    case NoName =>
      var t := if s.initial then s.table else s.table.(killed := true);
      (Window(prev, t, s.initial), NoFileChosen, prev)
    case Unreadable => (Window(EmptyWorld, JobTable.EmptyTable, s.initial), NotFound, prev)
    case Readable(lines) =>
      var (w, e) := AfterLoad(Loader.LoadFile(lines), s.initial);
      (w, e, prev)
  }

  /** The sweep moves no person and touches no pool, so every pool keeps its invariant. */
  lemma SweptPools(w: World, r: World)
    requires Monitor.Kept(w, r)
    requires forall p :: p in w.ports ==> Pool.PoolInv(w, p)
    ensures forall p :: p in r.ports ==> Pool.PoolInv(r, p)
  {
    forall p | p in r.ports ensures Pool.PoolInv(r, p) {
      assert Pool.PoolInv(w, p);
      SameFieldsConserved(w.ports[p], r.ports[p], w.persons);
    }
  }

  lemma SameFieldsConserved(a: Port, b: Port, persons: map<PersonId, Person>)
    requires Pool.Conserved(a, persons)
    requires b.persons == a.persons && b.pool == a.pool && b.totals == a.totals
    ensures Pool.Conserved(b, persons)
  {
  }

  /**
   * A first load that the port sort or the missing first port interrupts
   * leaves the first-load flag set, so the next press of the button does not
   * kill the jobs that load started.
   */
  lemma InterruptedLoadKeepsJobs(l: Loader.Load, next: Source)
    requires Loader.Loaded(l) && !Completes(l)
    ensures var r := AfterLoad(l, true).0; r.initial && LoadButton(r, next).2 == r.w
  {
  }

  /**
   * Every press of the load button keeps every ship at home: a fresh load
   * lists each ship once at the port it names, and the sweep sends only
   * docked ships away, so a ship without a port is found by no search.
   */
  lemma LoadButtonHome(s: Window, src: Source)
    requires Refs(s.w) && Monitor.ShipsHome(s.w)
    ensures Monitor.ShipsHome(LoadButton(s, src).0.w)
    ensures Queries.ShipsListed(LoadButton(s, src).0.w)
  {
    var prev := Previous(s);
    assert prev == s.w.(jobs := prev.jobs);
    if src.Readable? {
      AfterLoadHome(Loader.LoadFile(src.lines), s.initial);
    }
  }

  lemma AfterLoadHome(l: Loader.Load, initial: bool)
    requires Loader.Loaded(l) && Monitor.ShipsHome(l.w)
    ensures Monitor.ShipsHome(AfterLoad(l, initial).0.w)
  {
  }
}
