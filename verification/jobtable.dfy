/**
 * The jobs table: one row per loaded job, the header-click sort state
 * machine and the periodic refresh of locations and statuses. The Swing
 * widgets are reduced to their contents: a row is the nine cell values and
 * a button is its text and whether it is enabled.
 */
module JobTable {
  import opened Model
  import opened Seqs
  import opened Sorting

  datatype Button = Button(text: string, enabled: bool)

  /** The nine columns of a row, in display order. */
  datatype Row = Row(
    port: string,
    ship: string,
    job: string,
    location: string,
    skills: string,
    progress: int,
    status: string,
    suspend: Button,
    cancel: Button)

  datatype Column = PortColumn | ShipColumn | JobColumn

  datatype Order = Ascending | Descending

  /**
   * `data` is the display order of the jobs, `rows` the cells of each job;
   * `col` and `order` are the last sort (`null` before the first one);
   * `complete` is `jobsComplete` and `killed` the update loop's kill flag.
   */
  datatype Table = Table(
    data: seq<JobId>,
    rows: map<JobId, Row>,
    col: Option<Column>,
    order: Option<Order>,
    complete: bool,
    killed: bool)

  const EmptyTable := Table([], map[], None, None, false, false)

  // ----- adding a job -----------------------------------------------------

  /** The requirements joined by ", ", with no separator after the last one. */
  function Join(xs: seq<string>): (r: string)
  {
    if |xs| == 0 then ""
    else if |xs| == 1 then xs[0]
    else Join(xs[..|xs| - 1]) + ", " + xs[|xs| - 1]
  }

  /** The row's skills text as the source builds it: each requirement, then ", " unless it is the last. */
  method JoinLoop(xs: seq<string>) returns (s: string)
    ensures s == Join(xs)
  {
    s := "";
    var i := 0;
    while i < |xs|
      invariant 0 <= i <= |xs|
      invariant i == 0 ==> s == ""
      invariant 0 < i < |xs| ==> s == Join(xs[..i]) + ", "
      invariant 0 < i == |xs| ==> s == Join(xs[..i])
    {
      s := s + xs[i];
      assert xs[..i + 1][..i] == xs[..i];
      if i + 1 != |xs| {
        s := s + ", ";
      }
      i := i + 1;
    }
    assert xs[..|xs|] == xs;
  }

  /** The joined text begins with the first requirement and ends with the last one. */
  lemma {:induction false} JoinEnds(xs: seq<string>)
    requires |xs| > 0
    ensures xs[0] <= Join(xs)
    ensures |xs[|xs| - 1]| <= |Join(xs)|
    ensures Join(xs)[|Join(xs)| - |xs[|xs| - 1]|..] == xs[|xs| - 1]
  {
    if |xs| > 1 {
      var init := xs[..|xs| - 1];
      JoinEnds(init);
      assert init[0] == xs[0];
    }
  }

  /** Every id a job's row would read exists. */
  predicate RowReadable(w: World, jid: JobId)
  {
    && jid in w.jobs
    && w.jobs[jid].ship in w.ships
    && (w.jobs[jid].port.Some? ==> w.jobs[jid].port.value in w.ports)
    && (w.ships[w.jobs[jid].ship].dock.Some? ==> w.ships[w.jobs[jid].ship].dock.value in w.docks)
  }

  /**
   * `addJob`: the job joins the display order, then its row is built. For a
   * job without a port the row's first cell throws, so the job is listed
   * without a row.
   */
  function AddJob(t: Table, w: World, jid: JobId): (r: Table)
    requires RowReadable(w, jid)
    ensures r.data == t.data + [jid]
    ensures r.col == t.col && r.order == t.order && r.complete == t.complete && r.killed == t.killed
    ensures w.jobs[jid].port.None? ==> r.rows == t.rows
    ensures w.jobs[jid].port.Some? ==>
      && r.rows.Keys == t.rows.Keys + {jid}
      && (forall k :: k in t.rows && k != jid ==> r.rows[k] == t.rows[k])
    ensures w.jobs[jid].port.Some? ==>
      var job := w.jobs[jid];
      var ship := w.ships[job.ship];
      var row := r.rows[jid];
      && row.port == w.ports[job.port.value].name
      && row.ship == ship.name
      && row.job == job.name
      && row.location == (if ship.dock.None? then "Port queue" else w.docks[ship.dock.value].name)
      && row.skills == Join(job.requirements)
      && row.progress == 0
      && row.status == "Waiting..."
      && row.suspend == Button("Suspend", false)
      && row.cancel == Button("Cancel", false)
  {
    var job := w.jobs[jid];
    var ship := w.ships[job.ship];
    match job.port
    case None => t.(data := t.data + [jid])
    case Some(p) =>
      var location := if ship.dock.None? then "Port queue" else w.docks[ship.dock.value].name;
      var row := Row(w.ports[p].name, ship.name, job.name, location, Join(job.requirements),
                     0, "Waiting...", Button("Suspend", false), Button("Cancel", false));
      t.(data := t.data + [jid], rows := t.rows[jid := row])
  }

  // ----- sorting ----------------------------------------------------------

  /** The name of a job's port; every job a PORT sort compares has one. */
  function PortName(w: World, j: JobId): string
  {
    if j in w.jobs && w.jobs[j].port.Some? && w.jobs[j].port.value in w.ports
    then w.ports[w.jobs[j].port.value].name else ""
  }

  function ShipName(w: World, j: JobId): string
  {
    if j in w.jobs && w.jobs[j].ship in w.ships then w.ships[w.jobs[j].ship].name else ""
  }

  function JobName(w: World, j: JobId): string
  {
    if j in w.jobs then w.jobs[j].name else ""
  }

  function ByPort(w: World): (JobId, JobId) -> bool { ByName<JobId>((j: JobId) => PortName(w, j)) }

  function ByShip(w: World): (JobId, JobId) -> bool { ByName<JobId>((j: JobId) => ShipName(w, j)) }

  function ByJob(w: World): (JobId, JobId) -> bool { ByName<JobId>((j: JobId) => JobName(w, j)) }

  /** Port ascending, ships ascending within a port. */
  function PortAscending(w: World): (JobId, JobId) -> bool { Then<JobId>(ByPort(w), ByShip(w)) }

  /** Port descending, ships still ascending within a port. */
  function PortDescending(w: World): (JobId, JobId) -> bool { Then<JobId>(Flip<JobId>(ByPort(w)), ByShip(w)) }

  lemma ShipOrder(w: World)
    ensures TotalPreorder(ByShip(w))
  {
    ByNamePreorder<JobId>((j: JobId) => ShipName(w, j));
  }

  lemma JobOrder(w: World)
    ensures TotalPreorder(ByJob(w))
  {
    ByNamePreorder<JobId>((j: JobId) => JobName(w, j));
  }

  lemma PortAscendingOrder(w: World)
    ensures TotalPreorder(PortAscending(w))
  {
    ByNamePreorder<JobId>((j: JobId) => PortName(w, j));
    ShipOrder(w);
    ThenPreorder<JobId>(ByPort(w), ByShip(w));
  }

  lemma PortDescendingOrder(w: World)
    ensures TotalPreorder(PortDescending(w))
  {
    ByNamePreorder<JobId>((j: JobId) => PortName(w, j));
    FlipPreorder<JobId>(ByPort(w));
    ShipOrder(w);
    ThenPreorder<JobId>(Flip<JobId>(ByPort(w)), ByShip(w));
  }

  /** Every listed job has a port: comparing a job without one would throw. */
  predicate PortsKnown(t: Table, w: World)
  {
    forall k :: 0 <= k < |t.data| ==> t.data[k] in w.jobs && w.jobs[t.data[k]].port.Some?
  }

  /**
   * A PORT sort completes: every listed job has a port, or the list is too
   * short for `List.sort` to compare anything.
   */
  predicate PortSortable(t: Table, w: World)
  {
    PortsKnown(t, w) || |t.data| <= 1
  }

  function Reverse<T>(s: seq<T>): (r: seq<T>)
    ensures |r| == |s| && forall i :: 0 <= i < |s| ==> r[i] == s[|s| - 1 - i]
    ensures multiset(r) == multiset(s)
  {
    if |s| == 0 then []
    else
      assert s == [s[0]] + s[1..];
      Reverse(s[1..]) + [s[0]]
  }

  /**
   * `sort(col)`: a second click on the SHIP or JOB header reverses the list
   * and keeps the state; a PORT click after a PORT-ascending sort sorts by
   * port descending, any other PORT click by port ascending; a new SHIP or
   * JOB sort forgets the order.
   */
  function SortBy(t: Table, w: World, col: Column): (r: Table)
    requires col == PortColumn ==> PortSortable(t, w)
    ensures r.rows == t.rows && r.complete == t.complete && r.killed == t.killed
    ensures multiset(r.data) == multiset(t.data)
    ensures t.col == Some(col) && col != PortColumn ==>
      |r.data| == |t.data| && (forall i :: 0 <= i < |t.data| ==> r.data[i] == t.data[|t.data| - 1 - i])
      && r.col == t.col && r.order == t.order
    ensures t.col != Some(col) || col == PortColumn ==> r.col == Some(col)
    ensures col == PortColumn && t.col == Some(PortColumn) && t.order == Some(Ascending) ==>
      r.order == Some(Descending) && Sorted(r.data, PortDescending(w))
    ensures col == PortColumn && !(t.col == Some(PortColumn) && t.order == Some(Ascending)) ==>
      r.order == Some(Ascending) && Sorted(r.data, PortAscending(w))
    ensures col == ShipColumn && t.col != Some(ShipColumn) ==> r.order == None && Sorted(r.data, ByShip(w))
    ensures col == JobColumn && t.col != Some(JobColumn) ==> r.order == None && Sorted(r.data, ByJob(w))
  {
    if t.col == Some(col) && col != PortColumn then
      t.(data := Reverse(t.data))
    else
      match col
      case PortColumn =>
        if t.col == Some(PortColumn) && t.order == Some(Ascending) then
          assert TotalPreorder(PortDescending(w)) by { PortDescendingOrder(w); }
          t.(data := Sort(t.data, PortDescending(w)), col := Some(col), order := Some(Descending))
        else
          assert TotalPreorder(PortAscending(w)) by { PortAscendingOrder(w); }
          t.(data := Sort(t.data, PortAscending(w)), col := Some(col), order := Some(Ascending))
      case ShipColumn =>
        assert TotalPreorder(ByShip(w)) by { ShipOrder(w); }
        t.(data := Sort(t.data, ByShip(w)), col := Some(col), order := None)
      case JobColumn =>
        assert TotalPreorder(ByJob(w)) by { JobOrder(w); }
        t.(data := Sort(t.data, ByJob(w)), col := Some(col), order := None)
  }

  /** A reversed sorted list is sorted by the reversed comparator. */
  lemma ReverseSorted<T>(s: seq<T>, le: (T, T) -> bool)
    requires Sorted(s, le)
    ensures Sorted(Reverse(s), Flip(le))
  {
    var r := Reverse(s);
    forall i, j | 0 <= i < j < |r| ensures Flip(le)(r[i], r[j]) {
      assert r[i] == s[|s| - 1 - i] && r[j] == s[|s| - 1 - j];
    }
  }

  /** Clicking the SHIP header twice leaves the jobs in descending ship order. */
  lemma ShipTwiceDescending(t: Table, w: World)
    requires t.col != Some(ShipColumn)
    ensures var r := SortBy(SortBy(t, w, ShipColumn), w, ShipColumn);
      Sorted(r.data, Flip(ByShip(w))) && r.col == Some(ShipColumn) && r.order == None
  {
    var r1 := SortBy(t, w, ShipColumn);
    var r2 := SortBy(r1, w, ShipColumn);
    assert r2.data == Reverse(r1.data);
    ReverseSorted(r1.data, ByShip(w));
  }

  /** A third click on the same SHIP or JOB header restores the order of the first. */
  lemma {:induction false} ReverseTwice<T>(s: seq<T>)
    ensures Reverse(Reverse(s)) == s
  {
  }

  lemma SameColumnTwice(t: Table, w: World, col: Column)
    requires col != PortColumn && t.col == Some(col)
    ensures SortBy(SortBy(t, w, col), w, col) == t
  {
    ReverseTwice(t.data);
  }

  /** Repeated PORT clicks alternate between ascending and descending. */
  lemma PortClicksAlternate(t: Table, w: World)
    requires PortsKnown(t, w)
    ensures var r1 := SortBy(t, w, PortColumn);
      PortsKnown(r1, w) && SortBy(r1, w, PortColumn).order ==
        (if r1.order == Some(Ascending) then Some(Descending) else Some(Ascending))
  {
    var r1 := SortBy(t, w, PortColumn);
    forall k | 0 <= k < |r1.data| ensures r1.data[k] in w.jobs && w.jobs[r1.data[k]].port.Some? {
      assert r1.data[k] in multiset(t.data);
    }
  }

  // ----- the refresh loop -------------------------------------------------

  /** Where the table says a ship is. */
  function LocationLabel(w: World, s: ShipId): (r: string)
    requires s in w.ships
    requires w.ships[s].port.Some? && w.ships[s].dock.Some? ==> w.ships[s].dock.value in w.docks
    ensures w.ships[s].port.None? ==> r == "Departed"
    ensures w.ships[s].port.Some? && w.ships[s].dock.None? ==> r == "Port queue"
    ensures w.ships[s].port.Some? && w.ships[s].dock.Some? ==> r == w.docks[w.ships[s].dock.value].name
  {
    var ship := w.ships[s];
    if ship.port.None? then "Departed"
    else if ship.dock.None? then "Port queue"
    else w.docks[ship.dock.value].name
  }

  /** A job that will not change again: done, cancelled, or cancelled for lack of resources. */
  predicate Finished(s: Status)
  {
    s == Done || s == Cancelled || s == LackOfResources
  }

  /** The status column's text for each status. */
  function StatusLabel(s: Status): string
  {
    match s
    case Running => "Running..."
    case Suspended => "Suspended"
    case WaitingToDock => "Waiting for ship to dock"
    case WaitingForResources => "Waiting for resources"
    case Done => "Done"
    case Cancelled => "CANCELLED"
    case LackOfResources => "CANCELLED (resources)"
  }

  /** The labels tell the statuses apart; the two cancellations are the ones drawn in red. */
  lemma StatusLabelsDistinct(a: Status, b: Status)
    ensures StatusLabel(a) == StatusLabel(b) ==> a == b
    ensures StatusLabel(a) in {"CANCELLED", "CANCELLED (resources)"} <==> a == Cancelled || a == LackOfResources
  {
  }

  /** Row readable for refreshing: the job and its ship exist, and a docked ship's dock exists. */
  predicate RefreshReadable(w: World, jid: JobId)
  {
    && jid in w.jobs
    && w.jobs[jid].ship in w.ships
    && (w.ships[w.jobs[jid].ship].port.Some? && w.ships[w.jobs[jid].ship].dock.Some? ==>
          w.ships[w.jobs[jid].ship].dock.value in w.docks)
  }

  /** `JProgressBar.setValue`: the bar's model keeps the value within the bar's range, 0 to 100. */
  function BarValue(v: int): int
  {
    if v < 0 then 0 else if v > 100 then 100 else v
  }

  /**
   * One job's row after a refresh: location, progress, status text and
   * buttons. The progress bar shows the job's progress held within 0..100.
   */
  function Refresh(row: Row, w: World, jid: JobId): (r: Row)
    requires RefreshReadable(w, jid)
    ensures r.port == row.port && r.ship == row.ship && r.job == row.job && r.skills == row.skills
    ensures r.location == LocationLabel(w, w.jobs[jid].ship)
    ensures var p := w.jobs[jid].progress;
      && 0 <= r.progress <= 100
      && (0 <= p <= 100 ==> r.progress == p)
      && (p > 100 ==> r.progress == 100)
      && (p < 0 ==> r.progress == 0)
    ensures r.status == StatusLabel(w.jobs[jid].status)
    ensures Finished(w.jobs[jid].status) ==> !r.suspend.enabled && !r.cancel.enabled
    ensures w.jobs[jid].status == Running ==> r.suspend == Button("Suspend", true) && r.cancel.enabled
    ensures w.jobs[jid].status == Suspended ==>
      r.suspend == Button("Resume", row.suspend.enabled) && r.cancel == row.cancel
    ensures w.jobs[jid].status in {WaitingToDock, WaitingForResources} ==>
      r.suspend == row.suspend && r.cancel == row.cancel
  {
    var job := w.jobs[jid];
    var row' := row.(location := LocationLabel(w, job.ship), progress := BarValue(job.progress),
                     status := StatusLabel(job.status));
    match job.status
    case Running =>
      row'.(suspend := Button("Suspend", true), cancel := row.cancel.(enabled := true))
    case Suspended => row'.(suspend := row.suspend.(text := "Resume"))
    case WaitingToDock => row'
    case WaitingForResources => row'
    case _ => row'.(suspend := row.suspend.(enabled := false), cancel := row.cancel.(enabled := false))
  }

  /** The jobs with a row whose status is finished. */
  function DoneSet(t: Table, w: World): set<JobId>
  {
    set k | k in t.rows && k in w.jobs && Finished(w.jobs[k].status)
  }

  /**
   * One pass of the update loop: refresh every row, count the finished ones
   * and compare the count with the number of listed jobs. The first pass
   * that finds them all finished sets `complete`; the next one stops the
   * loop. The second component says whether the loop has stopped.
   */
  function Pass(t: Table, w: World): (r: (Table, bool))
    requires forall k :: k in t.rows ==> RefreshReadable(w, k)
    ensures t.killed ==> r == (t, true)
    ensures !t.killed ==>
      && r.0.rows.Keys == t.rows.Keys
      && (forall k :: k in t.rows ==> r.0.rows[k] == Refresh(t.rows[k], w, k))
      && r.0.data == t.data && r.0.col == t.col && r.0.order == t.order && !r.0.killed
    ensures !t.killed ==> (r.1 <==> t.complete && |DoneSet(t, w)| == |t.data|)
    ensures !t.killed ==> (r.0.complete <==> t.complete || |DoneSet(t, w)| == |t.data|)
  {
    if t.killed then (t, true)
    else
      var rows := map k | k in t.rows :: Refresh(t.rows[k], w, k);
      var all := |DoneSet(t, w)| == |t.data|;
      if all && t.complete then (t.(rows := rows), true)
      else (t.(rows := rows, complete := t.complete || all), false)
  }

  /** When every listed job has a finished row, two passes stop the loop. */
  lemma AllFinishedStopsInTwo(t: Table, w: World)
    requires forall k :: k in t.rows ==> RefreshReadable(w, k)
    requires !t.killed && Distinct(t.data)
    requires t.rows.Keys == set k: JobId | k in t.data
    requires forall k :: k in t.rows ==> k in w.jobs && Finished(w.jobs[k].status)
    ensures var r1 := Pass(t, w); r1.0.complete && Pass(r1.0, w).1
  {
    assert DoneSet(t, w) == t.rows.Keys;
    SetOfDistinct(t.data);
    assert |set k: JobId | k in t.data| == |t.data|;
    assert |DoneSet(t, w)| == |t.data|;
    var r1 := Pass(t, w);
    assert r1.0.complete;
    assert DoneSet(r1.0, w) == r1.0.rows.Keys == t.rows.Keys;
    assert r1.0.data == t.data && !r1.0.killed;
  }

  /**
   * A listed job without a row (its port was missing when it was added) is
   * never counted, so the update loop never stops on its own.
   */
  lemma MissingRowNeverStops(t: Table, w: World, j: JobId)
    requires forall k :: k in t.rows ==> RefreshReadable(w, k)
    requires !t.killed && Distinct(t.data)
    requires t.rows.Keys <= set k: JobId | k in t.data
    requires j in t.data && j !in t.rows
    ensures !Pass(t, w).1
    ensures !t.complete ==> !Pass(t, w).0.complete
  {
    var data := set k: JobId | k in t.data;
    SetOfDistinct(t.data);
    assert DoneSet(t, w) <= t.rows.Keys;
    assert t.rows.Keys < data;
    SubsetCard(DoneSet(t, w), t.rows.Keys);
    assert |t.rows.Keys| < |data| by {
      assert data == t.rows.Keys + (data - t.rows.Keys);
    }
  }
}
