/**
 * `processDataFile`: the data file is read line by line, the first token of
 * a line picks the constructor to run, and a constructor that stops midway
 * is reported in a dialog. The model receives each line already split into
 * its fields; a numeric field that `Double.parseDouble` or
 * `Integer.parseInt` rejects is `None`.
 */
module Loader {
  import opened Model
  import opened Seqs
  import Persons
  import Ships
  import Jobs
  import Pool
  import Docking
  import Monitor
  import JobTable
  import Queries

  /** One line of the data file, by its first token. */
  datatype Line =
    | Blank
    | Comment
    | PortLine(name: string, index: int)
    | DockLine(name: string, index: int, parent: int)
    | ShipLine(kind: ShipKind, name: string, index: int, parent: int, dims: Option<Dims>, extrasOk: bool)
    | PersonLine(name: string, parent: int, skill: string)
    | JobLine(name: string, parent: int, duration: Option<int>, requirements: seq<string>)
    | Unknown(token: string)

  /** A message dialog: a `DataFileFormatException` or the broken-reference notice. */
  datatype Dialog = FormatDialog(line: nat, text: string) | RefDialog(line: nat, text: string)

  /**
   * The loader's state between two lines: the world and job table being
   * built, the maps from file index to object, the line and error counters,
   * whether the broken-reference dialog has been shown, and the dialogs shown.
   */
  datatype Load = Load(
    w: World,
    table: JobTable.Table,
    hmp: map<int, PortId>,
    hmd: map<int, DockId>,
    hms: map<int, ShipId>,
    line: nat,
    errors: nat,
    refReported: bool,
    dialogs: seq<Dialog>)

  const Initial := Load(EmptyWorld, JobTable.EmptyTable, map[], map[], map[], 0, 0, false, [])

  // ----- numbers in messages ----------------------------------------------

  function Digit(d: nat): char
    requires d < 10
  {
    ('0' as int + d) as char
  }

  predicate IsDigits(s: string)
  {
    forall i :: 0 <= i < |s| ==> '0' <= s[i] <= '9'
  }

  /** The decimal text of `n`, as string concatenation renders an `int`. */
  function NatToString(n: nat): (s: string)
    ensures |s| > 0 && IsDigits(s)
    ensures s == "0" <==> n == 0
    ensures |s| > 1 ==> s[0] != '0'
    decreases n
  {
    if n < 10 then [Digit(n)]
    else NatToString(n / 10) + [Digit(n % 10)]
  }

  /** The value of a decimal digit string. */
  function ParseDigits(s: string): nat
    requires IsDigits(s)
  {
    if |s| == 0 then 0
    else ParseDigits(s[..|s| - 1]) * 10 + (s[|s| - 1] as int - '0' as int)
  }

  /** Reading the decimal text back gives the number. */
  lemma {:induction false} ParseNatToString(n: nat)
    ensures ParseDigits(NatToString(n)) == n
    decreases n
  {
    if n >= 10 {
      var t := NatToString(n / 10);
      ParseNatToString(n / 10);
      assert (t + [Digit(n % 10)])[..|t|] == t;
    }
  }

  // ----- the dialogs ------------------------------------------------------

  const LinePrefix := "Error in data file found on line "
  const LineSuffix := ".\nLine will be ignored."
  const Numerous := "Numerous errors found in data file. Generated data may not reflect intended data structure.\nPlease review data file for proper formatting."

  /** `DataFileFormatException(line, errCount).getMessage()`. */
  function FormatMessage(line: nat, errCount: nat): string
  {
    if errCount < 2 then LinePrefix + NatToString(line) + LineSuffix
    else if errCount == 2 then Numerous
    else ""
  }

  /** The line number a specific format message names. */
  function MessageLine(msg: string): nat
  {
    if |msg| >= |LinePrefix| + |LineSuffix| && IsDigits(msg[|LinePrefix|..|msg| - |LineSuffix|])
    then ParseDigits(msg[|LinePrefix|..|msg| - |LineSuffix|])
    else 0
  }

  /**
   * The first two format messages name the offending line, which can be read
   * back from them; the third is the generic notice; later ones are empty.
   */
  lemma FormatMessageLine(line: nat, errCount: nat)
    ensures errCount < 2 ==> MessageLine(FormatMessage(line, errCount)) == line
    ensures errCount == 2 ==> FormatMessage(line, errCount) == Numerous
    ensures errCount > 2 ==> FormatMessage(line, errCount) == ""
  {
    if errCount < 2 {
      var msg := FormatMessage(line, errCount);
      var t := NatToString(line);
      assert msg[|LinePrefix|..|msg| - |LineSuffix|] == t;
      ParseNatToString(line);
    }
  }

  /** The broken-reference notice. */
  function RefMessage(line: nat): string
  {
    "Error: Attempt to link object on line " + NatToString(line)
      + " to an object that does not exist.\nProgram will continue but objects may be missing."
  }

  /** The outer handler: the error count goes up, and only the first three errors are shown. */
  function FormatError(s: Load): (r: Load)
  {
    var shown := if s.errors + 1 <= 3 then [FormatDialog(s.line, FormatMessage(s.line, s.errors))] else [];
    s.(errors := s.errors + 1, dialogs := s.dialogs + shown)
  }

  /** The inner handler: a broken reference is shown once per file. */
  function RefError(s: Load): (r: Load)
  {
    if s.refReported then s
    else s.(refReported := true, dialogs := s.dialogs + [RefDialog(s.line, RefMessage(s.line))])
  }

  function IsFormat(d: Dialog): bool { d.FormatDialog? }

  function IsRef(d: Dialog): bool { d.RefDialog? }

  function Min(a: int, b: int): int { if a <= b then a else b }

  /**
   * The dialogs shown so far: one per format error up to three, the k-th
   * carrying the message for error count k; one broken-reference notice
   * exactly when one has been reported.
   */
  predicate DialogInv(s: Load)
  {
    var f := Queries.Filter(s.dialogs, IsFormat);
    && |f| == Min(s.errors, 3)
    && (forall k :: 0 <= k < |f| ==> f[k].FormatDialog? && f[k].text == FormatMessage(f[k].line, k))
    && |Queries.Filter(s.dialogs, IsRef)| == (if s.refReported then 1 else 0)
  }

  lemma FilterOne<T(!new)>(a: seq<T>, x: T, keep: T -> bool)
    ensures Queries.Filter(a + [x], keep) == Queries.Filter(a, keep) + (if keep(x) then [x] else [])
  {
    Queries.FilterAppend(a, [x], keep);
    assert Queries.Filter([x], keep) == (if keep(x) then [x] else []) by {
      assert [x][1..] == [];
    }
  }

  lemma FormatErrorDialogs(s: Load)
    requires DialogInv(s)
    ensures DialogInv(FormatError(s))
  {
    var r := FormatError(s);
    if s.errors + 1 <= 3 {
      var d := FormatDialog(s.line, FormatMessage(s.line, s.errors));
      var f := Queries.Filter(s.dialogs, IsFormat);
      assert r.dialogs == s.dialogs + [d];
      FilterOne(s.dialogs, d, IsFormat);
      FilterOne(s.dialogs, d, IsRef);
      var f' := Queries.Filter(r.dialogs, IsFormat);
      assert f' == f + [d];
      assert |f| == s.errors;
      forall k | 0 <= k < |f'| ensures f'[k].FormatDialog? && f'[k].text == FormatMessage(f'[k].line, k) {
        if k < |f| {
          assert f'[k] == f[k];
        }
      }
    } else {
      assert r.dialogs == s.dialogs;
    }
  }

  lemma RefErrorDialogs(s: Load)
    requires DialogInv(s)
    ensures DialogInv(RefError(s))
  {
    if !s.refReported {
      var d := RefDialog(s.line, RefMessage(s.line));
      FilterOne(s.dialogs, d, IsFormat);
      FilterOne(s.dialogs, d, IsRef);
    }
  }

  // ----- the invariant of a world under construction ----------------------

  /** Every id in use is below the allocation counter. */
  predicate Fresh(w: World)
  {
    && (forall p :: p in w.ports ==> p < w.nextId)
    && (forall d :: d in w.docks ==> d < w.nextId)
    && (forall s :: s in w.ships ==> s < w.nextId)
    && (forall x :: x in w.persons ==> x < w.nextId)
    && (forall j :: j in w.jobs ==> j < w.nextId)
  }

  /** Each port is listed once in load order; its pool is not built yet and it lists each person once. */
  predicate PortsLoaded(w: World)
  {
    && Distinct(w.portOrder)
    && (forall p :: p in w.ports ==> p in w.portOrder)
    && (forall p :: p in w.ports ==> w.ports[p].pool == map[] && w.ports[p].totals == map[])
    && (forall p :: p in w.ports ==> Distinct(w.ports[p].persons))
  }

  /** Nobody has a job yet. */
  predicate PersonsIdle(w: World)
  {
    forall x :: x in w.persons ==> w.persons[x].currentJob == None
  }

  /** Every reference a dock, ship or job holds names an existing object. */
  predicate Links(w: World)
  {
    && (forall d :: d in w.docks && w.docks[d].port.Some? ==> w.docks[d].port.value in w.ports)
    && (forall s :: s in w.ships && w.ships[s].port.Some? ==> w.ships[s].port.value in w.ports)
    && (forall s :: s in w.ships && w.ships[s].dock.Some? ==> w.ships[s].dock.value in w.docks)
    && (forall j :: j in w.jobs ==> JobTable.RowReadable(w, j))
  }

  predicate WorldOk(w: World)
  {
    Refs(w) && Fresh(w) && PortsLoaded(w) && PersonsIdle(w) && Links(w) && Monitor.SweepReady(w)
  }

  /** The index maps point at existing objects. */
  predicate MapsOk(s: Load)
  {
    && (forall i :: i in s.hmp ==> s.hmp[i] in s.w.ports)
    && (forall i :: i in s.hmd ==> s.hmd[i] in s.w.docks)
    && (forall i :: i in s.hms ==> s.hms[i] in s.w.ships)
  }

  /**
   * The job table lists each job whose duration parsed once, in load order;
   * a listed job has a row exactly when it has a port; it is not sorted yet.
   */
  predicate TableOk(s: Load)
  {
    && Distinct(s.table.data)
    && (forall i :: 0 <= i < |s.table.data| ==> s.table.data[i] in s.w.jobs)
    && (forall i :: 0 <= i < |s.table.data| ==>
          (s.table.data[i] in s.table.rows <==> s.w.jobs[s.table.data[i]].port.Some?))
    && (forall k :: k in s.table.rows ==> k in s.table.data)
    && s.table.col == None && s.table.order == None && !s.table.complete && !s.table.killed
  }

  predicate LoadInv(s: Load)
  {
    WorldOk(s.w) && MapsOk(s) && TableOk(s)
  }

  lemma InitialInv()
    ensures LoadInv(Initial) && DialogInv(Initial)
  {
  }

  lemma InitialHome()
    ensures Monitor.ShipsHome(Initial.w)
  {
  }

  // ----- the constructors -------------------------------------------------

  /** `new Port(sc, world, hmp)`: the port joins the world's list and the index map. */
  function NewPort(s: Load, name: string, index: int): (r: (Load, Outcome))
    ensures var id := s.w.nextId;
      && r.1 == Created && r.0.hmp == s.hmp[index := id] && r.0.hmd == s.hmd && r.0.hms == s.hms
      && r.0.w.portOrder == s.w.portOrder + [id]
      && r.0.w.ports == s.w.ports[id := Port(name, [], [], [], [], map[], map[])]
      && r.0.w.nextId == id + 1
      && r.0.w == s.w.(portOrder := r.0.w.portOrder, ports := r.0.w.ports, nextId := id + 1)
      && r.0 == s.(w := r.0.w, hmp := r.0.hmp)
  {
    var id := s.w.nextId;
    var w := s.w.(portOrder := s.w.portOrder + [id], ports := s.w.ports[id := Port(name, [], [], [], [], map[], map[])], nextId := id + 1);
    (s.(w := w, hmp := s.hmp[index := id]), Created)
  }

  /**
   * `new Dock(sc, hmp, hmd)`: the dock is registered under its index first;
   * then its port is looked up. A missing port stops the constructor with
   * the dock registered but listed by no port.
   */
  function NewDock(s: Load, name: string, index: int, parent: int): (r: (Load, Outcome))
    requires MapsOk(s)
    ensures var id := s.w.nextId;
      && r.0.hmd == s.hmd[index := id] && r.0.hmp == s.hmp && r.0.hms == s.hms
      && r.0.w.docks == s.w.docks[id := Dock(name, if parent in s.hmp then Some(s.hmp[parent]) else None, None)]
      && r.0.w.nextId == id + 1
      && (r.1 == Created <==> parent in s.hmp) && (r.1 != Created ==> r.1 == BrokenRef)
      && (parent in s.hmp ==>
            var p := s.hmp[parent];
            r.0.w.ports == s.w.ports[p := s.w.ports[p].(docks := s.w.ports[p].docks + [id])])
      && (parent !in s.hmp ==> r.0.w.ports == s.w.ports)
      && r.0.w == s.w.(docks := r.0.w.docks, ports := r.0.w.ports, nextId := id + 1)
      && r.0 == s.(w := r.0.w, hmd := r.0.hmd)
  {
    var id := s.w.nextId;
    var port := if parent in s.hmp then Some(s.hmp[parent]) else None;
    var w := s.w.(docks := s.w.docks[id := Dock(name, port, None)], nextId := id + 1);
    var s1 := s.(w := w, hmd := s.hmd[index := id]);
    if port.None? then (s1, BrokenRef)
    else
      var p := port.value;
      (s1.(w := w.(ports := w.ports[p := w.ports[p].(docks := w.ports[p].docks + [id])])), Created)
  }

  /**
   * `new CargoShip(...)` and `new PassengerShip(...)`: the ship is
   * registered under its index, placed at its parent dock or in its parent
   * port's queue, and then its numbers are parsed. A broken reference stops
   * it before the dimensions are read; a number that does not parse stops it
   * after the placement.
   */
  function NewShip(s: Load, kind: ShipKind, name: string, index: int, parent: int, dims: Option<Dims>, extrasOk: bool): (r: (Load, Outcome))
    requires MapsOk(s) && Links(s.w)
    ensures var id := s.w.nextId;
      var dock := if parent in s.hmd then Some(s.hmd[parent]) else None;
      var port := if dock.Some? then s.w.docks[dock.value].port else if parent in s.hmp then Some(s.hmp[parent]) else None;
      && r.0.hms == s.hms[index := id] && r.0.hmp == s.hmp && r.0.hmd == s.hmd
      && id in r.0.w.ships && r.0.w.ships[id].dock == dock && r.0.w.ships[id].port == port
      && r.0.w.ships[id].dims == (if port.Some? && dims.Some? then dims.value else NoDims)
      && r.1 == (if port.None? then BrokenRef else if dims.None? || !extrasOk then BadNumber else Created)
      && r.0 == s.(w := r.0.w, hms := r.0.hms)
  {
    var dock := if parent in s.hmd then Some(s.hmd[parent]) else None;
    var port := if dock.None? && parent in s.hmp then Some(s.hmp[parent]) else None;
    var resolved := if dock.Some? then s.w.docks[dock.value].port else port;
    var d := if resolved.Some? && dims.Some? then dims.value else NoDims;
    var (w, out) := Ships.PlaceShip(s.w, name, kind, d, dock, port);
    var s1 := s.(w := w, hms := s.hms[index := s.w.nextId]);
    (s1, if out == BrokenRef then BrokenRef else if dims.None? || !extrasOk then BadNumber else Created)
  }

  /**
   * `new Person(sc, hmp)`: the person joins its port's list and is
   * available there with no job. A missing port stops the constructor
   * before anything is registered.
   */
  function NewPerson(s: Load, name: string, parent: int, skill: string): (r: (Load, Outcome))
    requires MapsOk(s)
    ensures parent !in s.hmp <==> r == (s, BrokenRef)
    ensures parent in s.hmp ==>
      var id := s.w.nextId; var p := s.hmp[parent];
      && r.1 == Created
      && r.0.w.persons == s.w.persons[id := Persons.NewPerson(name, skill, p)]
      && r.0.w.ports == s.w.ports[p := s.w.ports[p].(persons := s.w.ports[p].persons + [id])]
      && r.0.w == s.w.(persons := r.0.w.persons, ports := r.0.w.ports, nextId := id + 1)
      && r.0 == s.(w := r.0.w)
  {
    if parent !in s.hmp then (s, BrokenRef)
    else
      var id := s.w.nextId;
      var p := s.hmp[parent];
      var w := s.w.(persons := s.w.persons[id := Persons.NewPerson(name, skill, p)],
                    ports := s.w.ports[p := s.w.ports[p].(persons := s.w.ports[p].persons + [id])],
                    nextId := id + 1);
      (s.(w := w), Created)
  }

  /**
   * `new Job(sc, hms, table)`: a missing ship stops it before anything
   * changes. Otherwise the job joins its ship's list; a duration that does
   * not parse stops it there; otherwise it is added to the job table, whose
   * row building stops on a job without a port.
   */
  function NewJob(s: Load, name: string, parent: int, duration: Option<int>, reqs: seq<string>): (r: (Load, Outcome))
    requires MapsOk(s) && Links(s.w)
    ensures parent !in s.hms <==> r == (s, BrokenRef)
    ensures parent in s.hms ==>
      var sid := s.hms[parent]; var id := s.w.nextId;
      && r.0.w == Jobs.NewJob(s.w, name, sid, duration, reqs).0
      && r.1 == Jobs.NewJob(s.w, name, sid, duration, reqs).1
      && r.0.table.data == s.table.data + (if duration.Some? then [id] else [])
      && r.0 == s.(w := r.0.w, table := r.0.table)
  {
    if parent !in s.hms then (s, BrokenRef)
    else
      var sid := s.hms[parent];
      var (w, out) := Jobs.NewJob(s.w, name, sid, duration, reqs);
      var id := s.w.nextId;
      if out == BadNumber then (s.(w := w), BadNumber)
      else
        assert JobTable.RowReadable(w, id);
        (s.(w := w, table := JobTable.AddJob(s.table, w, id)), out)
  }

  /** The `switch` on the first token: each line runs its constructor; an unknown token is a format error. */
  function Construct(s: Load, l: Line): (r: (Load, Outcome))
    requires LoadInv(s)
    ensures r.0.line == s.line && r.0.errors == s.errors && r.0.refReported == s.refReported && r.0.dialogs == s.dialogs
    ensures l.Blank? || l.Comment? ==> r == (s, Created)
    ensures l.Unknown? ==> r == (s, BadNumber)
  {
    match l
    case Blank => (s, Created)
    case Comment => (s, Created)
    case PortLine(name, index) => NewPort(s, name, index)
    case DockLine(name, index, parent) => NewDock(s, name, index, parent)
    case ShipLine(kind, name, index, parent, dims, extrasOk) => NewShip(s, kind, name, index, parent, dims, extrasOk)
    case PersonLine(name, parent, skill) => NewPerson(s, name, parent, skill)
    case JobLine(name, parent, duration, reqs) => NewJob(s, name, parent, duration, reqs)
    case Unknown(_) => (s, BadNumber)
  }

  /**
   * A job of a ship that has no port, whose duration parses, is listed in
   * the table although it has no port and no row.
   */
  lemma PortlessJobListed(s: Load, name: string, parent: int, duration: Option<int>, reqs: seq<string>)
    requires MapsOk(s) && Links(s.w) && Fresh(s.w) && TableOk(s)
    requires parent in s.hms && s.w.ships[s.hms[parent]].port.None? && duration.Some?
    ensures var r := NewJob(s, name, parent, duration, reqs);
      && r.1 == BrokenRef
      && r.0.table.data == s.table.data + [s.w.nextId]
      && r.0.w.jobs[s.w.nextId].port.None? && s.w.nextId !in r.0.table.rows
  {
    var id := s.w.nextId;
    assert id !in s.w.jobs;
  }

  // ----- each constructor keeps the invariant -----------------------------

  lemma NewPortInv(s: Load, name: string, index: int)
    requires LoadInv(s)
    ensures LoadInv(NewPort(s, name, index).0)
  {
    NewPortRefs(s, name, index);
    NewPortLoaded(s, name, index);
    NewPortLinks(s, name, index);
    NewPortSweep(s, name, index);
    NewPortRest(s, name, index);
  }

  lemma NewPortRest(s: Load, name: string, index: int)
    requires Fresh(s.w) && PersonsIdle(s.w) && MapsOk(s) && TableOk(s)
    ensures var r := NewPort(s, name, index).0;
      Fresh(r.w) && PersonsIdle(r.w) && MapsOk(r) && TableOk(r)
  {
  }

  lemma NewPortRefs(s: Load, name: string, index: int)
    requires Refs(s.w)
    ensures Refs(NewPort(s, name, index).0.w)
  {
    var r := NewPort(s, name, index).0;
    forall p | p in r.w.ports ensures PortRefs(r.w, p) {
      if p != s.w.nextId {
        assert PortRefs(s.w, p);
      }
    }
  }

  lemma NewPortLoaded(s: Load, name: string, index: int)
    requires Refs(s.w) && Fresh(s.w) && PortsLoaded(s.w)
    ensures PortsLoaded(NewPort(s, name, index).0.w)
  {
    var w := NewPort(s, name, index).0.w;
    var id := s.w.nextId;
    assert w.portOrder == s.w.portOrder + [id];
    assert id !in s.w.portOrder;
    DistinctAppend(s.w.portOrder, id);
    forall p | p in w.ports
      ensures p in w.portOrder && w.ports[p].pool == map[] && w.ports[p].totals == map[] && Distinct(w.ports[p].persons)
    {
      if p != id {
        assert w.ports[p] == s.w.ports[p];
      }
    }
  }

  lemma NewPortLinks(s: Load, name: string, index: int)
    requires Links(s.w)
    ensures Links(NewPort(s, name, index).0.w)
  {
  }

  lemma NewPortSweep(s: Load, name: string, index: int)
    requires Monitor.SweepReady(s.w) && Fresh(s.w)
    ensures Monitor.SweepReady(NewPort(s, name, index).0.w)
  {
    var r := NewPort(s, name, index).0;
    assert Docking.DockLinks(r.w);
    assert Docking.QueuesIdle(r.w);
    assert Docking.QueuesDisjoint(r.w);
    assert Monitor.DocksHome(r.w);
  }

  lemma NewDockInv(s: Load, name: string, index: int, parent: int)
    requires LoadInv(s)
    ensures LoadInv(NewDock(s, name, index, parent).0)
  {
    NewDockRefs(s, name, index, parent);
    NewDockLoaded(s, name, index, parent);
    NewDockLinks(s, name, index, parent);
    NewDockSweep(s, name, index, parent);
    NewDockRest(s, name, index, parent);
  }

  lemma NewDockRefs(s: Load, name: string, index: int, parent: int)
    requires Refs(s.w) && MapsOk(s)
    ensures Refs(NewDock(s, name, index, parent).0.w)
  {
    var r := NewDock(s, name, index, parent).0;
    forall p | p in r.w.ports ensures PortRefs(r.w, p) {
      assert PortRefs(s.w, p);
    }
  }

  lemma NewDockLoaded(s: Load, name: string, index: int, parent: int)
    requires PortsLoaded(s.w) && MapsOk(s)
    ensures PortsLoaded(NewDock(s, name, index, parent).0.w)
  {
    var w := NewDock(s, name, index, parent).0.w;
    forall p | p in w.ports
      ensures p in w.portOrder && w.ports[p].pool == map[] && w.ports[p].totals == map[] && Distinct(w.ports[p].persons)
    {
      assert w.ports[p].persons == s.w.ports[p].persons && w.ports[p].pool == s.w.ports[p].pool;
    }
  }

  lemma NewDockLinks(s: Load, name: string, index: int, parent: int)
    requires Links(s.w) && MapsOk(s) && Fresh(s.w)
    ensures Links(NewDock(s, name, index, parent).0.w)
  {
    var w := NewDock(s, name, index, parent).0.w;
    forall j | j in w.jobs ensures JobTable.RowReadable(w, j) {
      assert JobTable.RowReadable(s.w, j);
    }
  }

  lemma NewDockSweep(s: Load, name: string, index: int, parent: int)
    requires Monitor.SweepReady(s.w) && Fresh(s.w) && MapsOk(s)
    ensures Monitor.SweepReady(NewDock(s, name, index, parent).0.w)
  {
    var w := NewDock(s, name, index, parent).0.w;
    var id := s.w.nextId;
    assert Docking.DockLinks(w) by {
      forall d | d in w.docks && w.docks[d].ship.Some?
        ensures w.docks[d].ship.value in w.ships && w.ships[w.docks[d].ship.value].dock == Some(d)
      {
        assert d != id && w.docks[d] == s.w.docks[d];
      }
    }
    assert Docking.QueuesIdle(w) by {
      forall p, i | p in w.ports && 0 <= i < |w.ports[p].queue|
        ensures w.ports[p].queue[i] in w.ships && w.ships[w.ports[p].queue[i]].dock == None
      {
        assert w.ports[p].queue == s.w.ports[p].queue;
      }
    }
    assert Docking.QueuesDisjoint(w) by {
      assert forall p :: p in w.ports ==> w.ports[p].queue == s.w.ports[p].queue;
    }
    assert Monitor.DocksHome(w) by {
      forall p, i | p in w.ports && 0 <= i < |w.ports[p].docks|
        ensures w.ports[p].docks[i] in w.docks && w.docks[w.ports[p].docks[i]].port == Some(p)
      {
        if i < |s.w.ports[p].docks| {
          assert w.ports[p].docks[i] == s.w.ports[p].docks[i];
        }
      }
    }
  }

  lemma NewDockRest(s: Load, name: string, index: int, parent: int)
    requires Fresh(s.w) && PersonsIdle(s.w) && MapsOk(s) && TableOk(s)
    ensures var r := NewDock(s, name, index, parent).0;
      Fresh(r.w) && PersonsIdle(r.w) && MapsOk(r) && TableOk(r)
  {
  }

  lemma NewPersonInv(s: Load, name: string, parent: int, skill: string)
    requires LoadInv(s)
    ensures LoadInv(NewPerson(s, name, parent, skill).0)
  {
    if parent in s.hmp {
      NewPersonRefs(s, name, parent, skill);
      NewPersonLoaded(s, name, parent, skill);
      NewPersonLinks(s, name, parent, skill);
      NewPersonSweep(s, name, parent, skill);
      NewPersonRest(s, name, parent, skill);
    }
  }

  lemma NewPersonRefs(s: Load, name: string, parent: int, skill: string)
    requires Refs(s.w) && MapsOk(s) && parent in s.hmp
    ensures Refs(NewPerson(s, name, parent, skill).0.w)
  {
    var r := NewPerson(s, name, parent, skill).0;
    forall p | p in r.w.ports ensures PortRefs(r.w, p) {
      assert PortRefs(s.w, p);
    }
  }

  lemma NewPersonLoaded(s: Load, name: string, parent: int, skill: string)
    requires Refs(s.w) && Fresh(s.w) && PortsLoaded(s.w) && MapsOk(s) && parent in s.hmp
    ensures PortsLoaded(NewPerson(s, name, parent, skill).0.w)
  {
    var w := NewPerson(s, name, parent, skill).0.w;
    var id := s.w.nextId;
    var p := s.hmp[parent];
    assert PortRefs(s.w, p);
    assert id !in s.w.ports[p].persons;
    DistinctAppend(s.w.ports[p].persons, id);
    forall q | q in w.ports
      ensures q in w.portOrder && w.ports[q].pool == map[] && w.ports[q].totals == map[] && Distinct(w.ports[q].persons)
    {
      if q != p {
        assert w.ports[q] == s.w.ports[q];
      }
    }
  }

  lemma NewPersonLinks(s: Load, name: string, parent: int, skill: string)
    requires Links(s.w) && MapsOk(s) && parent in s.hmp
    ensures Links(NewPerson(s, name, parent, skill).0.w)
  {
    var w := NewPerson(s, name, parent, skill).0.w;
    forall j | j in w.jobs ensures JobTable.RowReadable(w, j) {
      assert JobTable.RowReadable(s.w, j);
    }
  }

  lemma NewPersonSweep(s: Load, name: string, parent: int, skill: string)
    requires Monitor.SweepReady(s.w) && MapsOk(s) && parent in s.hmp
    ensures Monitor.SweepReady(NewPerson(s, name, parent, skill).0.w)
  {
    var w := NewPerson(s, name, parent, skill).0.w;
    assert forall p :: p in w.ports ==> w.ports[p].queue == s.w.ports[p].queue && w.ports[p].docks == s.w.ports[p].docks;
    assert Docking.QueuesDisjoint(w);
    assert Docking.QueuesIdle(w);
    assert Monitor.DocksHome(w);
  }

  lemma NewPersonRest(s: Load, name: string, parent: int, skill: string)
    requires Fresh(s.w) && PersonsIdle(s.w) && MapsOk(s) && TableOk(s) && parent in s.hmp
    ensures var r := NewPerson(s, name, parent, skill).0;
      Fresh(r.w) && PersonsIdle(r.w) && MapsOk(r) && TableOk(r)
  {
  }

  /**
   * What placing the new ship `id` changes in a world: the ship is added;
   * at a dock, the dock now holds it and lends it its port; at a port, the
   * port lists it among its ships and, when it is not docked, queues it.
   */
  predicate Placed(w: World, r: World, id: ShipId)
  {
    && id == w.nextId && id in r.ships && r.ships == w.ships[id := r.ships[id]] && r.nextId == id + 1
    && (var ship := r.ships[id];
        && (ship.dock.Some? ==>
              && ship.dock.value in w.docks && ship.port == w.docks[ship.dock.value].port
              && r.docks == w.docks[ship.dock.value := w.docks[ship.dock.value].(ship := Some(id))])
        && (ship.dock.None? ==> r.docks == w.docks)
        && (ship.port.Some? ==>
              var p := ship.port.value;
              && p in w.ports
              && r.ports == w.ports[p := w.ports[p].(ships := w.ports[p].ships + [id],
                                                     queue := if ship.dock.Some? then w.ports[p].queue else w.ports[p].queue + [id])])
        && (ship.port.None? ==> r.ports == w.ports))
    && r.persons == w.persons && r.jobs == w.jobs && r.portOrder == w.portOrder
  }

  lemma NewShipPlaced(s: Load, kind: ShipKind, name: string, index: int, parent: int, dims: Option<Dims>, extrasOk: bool)
    requires MapsOk(s) && Links(s.w)
    ensures var r := NewShip(s, kind, name, index, parent, dims, extrasOk).0;
      && Placed(s.w, r.w, s.w.nextId) && r.table == s.table
      && r.hmp == s.hmp && r.hmd == s.hmd && r.hms == s.hms[index := s.w.nextId]
  {
    var dock := if parent in s.hmd then Some(s.hmd[parent]) else None;
    var port := if dock.None? && parent in s.hmp then Some(s.hmp[parent]) else None;
    var resolved := if dock.Some? then s.w.docks[dock.value].port else port;
    var d := if resolved.Some? && dims.Some? then dims.value else NoDims;
    PlaceShipPlaced(s.w, name, kind, d, dock, port);
  }

  lemma PlaceShipPlaced(w: World, name: string, kind: ShipKind, dims: Dims, dock: Option<DockId>, port: Option<PortId>)
    requires dock.Some? ==> dock.value in w.docks && (w.docks[dock.value].port.Some? ==> w.docks[dock.value].port.value in w.ports)
    requires dock.None? && port.Some? ==> port.value in w.ports
    ensures Placed(w, Ships.PlaceShip(w, name, kind, dims, dock, port).0, w.nextId)
  {
  }

  lemma NewShipInv(s: Load, kind: ShipKind, name: string, index: int, parent: int, dims: Option<Dims>, extrasOk: bool)
    requires LoadInv(s)
    ensures LoadInv(NewShip(s, kind, name, index, parent, dims, extrasOk).0)
  {
    var r := NewShip(s, kind, name, index, parent, dims, extrasOk).0;
    NewShipPlaced(s, kind, name, index, parent, dims, extrasOk);
    PlacedRefs(s.w, r.w, s.w.nextId);
    PlacedFresh(s.w, r.w, s.w.nextId);
    PlacedLoaded(s.w, r.w, s.w.nextId);
    PlacedLinks(s.w, r.w, s.w.nextId);
    PlacedDocks(s.w, r.w, s.w.nextId);
    PlacedQueues(s.w, r.w, s.w.nextId);
    PlacedRest(s, r, index);
  }

  lemma PlacedRefs(w: World, r: World, id: ShipId)
    requires Refs(w) && Placed(w, r, id)
    ensures Refs(r)
  {
    forall p | p in r.ports ensures PortRefs(r, p) {
      assert PortRefs(w, p);
      if r.ports[p] != w.ports[p] {
        assert r.ports[p].ships == w.ports[p].ships + [id];
      }
    }
  }

  lemma PlacedFresh(w: World, r: World, id: ShipId)
    requires Fresh(w) && Placed(w, r, id)
    ensures Fresh(r)
  {
  }

  lemma PlacedLoaded(w: World, r: World, id: ShipId)
    requires PortsLoaded(w) && Placed(w, r, id)
    ensures PortsLoaded(r)
  {
    forall p | p in r.ports ensures r.ports[p].persons == w.ports[p].persons && r.ports[p].pool == w.ports[p].pool && r.ports[p].totals == w.ports[p].totals {
    }
  }

  lemma PlacedLinks(w: World, r: World, id: ShipId)
    requires Links(w) && Fresh(w) && Placed(w, r, id)
    ensures Links(r)
  {
    forall d | d in r.docks ensures r.docks[d].port == w.docks[d].port {
    }
    forall j | j in r.jobs ensures JobTable.RowReadable(r, j) {
      assert JobTable.RowReadable(w, j);
      assert r.jobs[j].ship != id;
    }
  }

  lemma PlacedDocks(w: World, r: World, id: ShipId)
    requires Docking.DockLinks(w) && Monitor.DocksHome(w) && Fresh(w) && Placed(w, r, id)
    ensures Docking.DockLinks(r) && Monitor.DocksHome(r)
  {
    forall d | d in r.docks && r.docks[d].ship.Some?
      ensures r.docks[d].ship.value in r.ships && r.ships[r.docks[d].ship.value].dock == Some(d)
    {
      if r.ships[id].dock != Some(d) {
        assert r.docks[d] == w.docks[d];
        assert r.docks[d].ship.value != id;
      }
    }
    forall p, i | p in r.ports && 0 <= i < |r.ports[p].docks|
      ensures r.ports[p].docks[i] in r.docks && r.docks[r.ports[p].docks[i]].port == Some(p)
    {
      assert r.ports[p].docks == w.ports[p].docks;
      assert r.docks[r.ports[p].docks[i]].port == w.docks[w.ports[p].docks[i]].port;
    }
  }

  /** A queue entry is the new ship exactly at the end of the queue that grew. */
  lemma QueueEntry(w: World, r: World, id: ShipId, p: PortId, i: int)
    requires Docking.QueuesIdle(w) && Fresh(w) && Placed(w, r, id)
    requires p in r.ports && 0 <= i < |r.ports[p].queue|
    ensures i < |w.ports[p].queue| ==> r.ports[p].queue[i] == w.ports[p].queue[i] && r.ports[p].queue[i] != id
    ensures i >= |w.ports[p].queue| ==> r.ports[p].queue[i] == id && r.ships[id].dock == None && r.ships[id].port == Some(p)
  {
    if i < |w.ports[p].queue| {
      assert w.ports[p].queue[i] in w.ships;
    }
  }

  lemma PlacedQueues(w: World, r: World, id: ShipId)
    requires Docking.QueuesIdle(w) && Docking.QueuesDisjoint(w) && Fresh(w) && Placed(w, r, id)
    ensures Docking.QueuesIdle(r) && Docking.QueuesDisjoint(r)
  {
    forall p, i | p in r.ports && 0 <= i < |r.ports[p].queue|
      ensures r.ports[p].queue[i] in r.ships && r.ships[r.ports[p].queue[i]].dock == None
    {
      QueueEntry(w, r, id, p, i);
    }
    forall p1, p2, i, j | p1 in r.ports && p2 in r.ports && 0 <= i < |r.ports[p1].queue| && 0 <= j < |r.ports[p2].queue|
        && r.ports[p1].queue[i] == r.ports[p2].queue[j]
      ensures p1 == p2 && i == j
    {
      QueueEntry(w, r, id, p1, i);
      QueueEntry(w, r, id, p2, j);
    }
  }

  lemma PlacedRest(s: Load, r: Load, index: int)
    requires PersonsIdle(s.w) && MapsOk(s) && TableOk(s)
    requires Placed(s.w, r.w, s.w.nextId) && r.table == s.table
    requires r.hmp == s.hmp && r.hmd == s.hmd && r.hms == s.hms[index := s.w.nextId]
    ensures PersonsIdle(r.w) && MapsOk(r) && TableOk(r)
  {
  }

  /**
   * What adding job `id` to ship `sid` changes in a world: the ship's job
   * list grows; the job is added for that ship with the ship's port; the
   * ports, docks and persons stay.
   */
  predicate JobAdded(w: World, r: World, sid: ShipId, id: JobId)
  {
    && id == w.nextId && sid in w.ships && r.nextId == id + 1
    && id in r.jobs && r.jobs == w.jobs[id := r.jobs[id]]
    && r.ships == w.ships[sid := w.ships[sid].(jobs := w.ships[sid].jobs + [id])]
    && r.jobs[id].ship == sid && r.jobs[id].port == w.ships[sid].port
    && r.ports == w.ports && r.docks == w.docks && r.persons == w.persons && r.portOrder == w.portOrder
  }

  lemma NewJobAdded(s: Load, name: string, parent: int, duration: Option<int>, reqs: seq<string>)
    requires MapsOk(s) && Links(s.w) && parent in s.hms
    ensures var r := NewJob(s, name, parent, duration, reqs).0;
      && JobAdded(s.w, r.w, s.hms[parent], s.w.nextId) && r == s.(w := r.w, table := r.table)
  {
  }

  lemma NewJobInv(s: Load, name: string, parent: int, duration: Option<int>, reqs: seq<string>)
    requires LoadInv(s)
    ensures LoadInv(NewJob(s, name, parent, duration, reqs).0)
  {
    if parent in s.hms {
      var r := NewJob(s, name, parent, duration, reqs).0;
      var sid := s.hms[parent];
      var id := s.w.nextId;
      NewJobAdded(s, name, parent, duration, reqs);
      JobAddedRefs(s.w, r.w, sid, id);
      JobAddedFresh(s.w, r.w, sid, id);
      JobAddedLinks(s.w, r.w, sid, id);
      JobAddedSweep(s.w, r.w, sid, id);
      JobAddedMaps(s, r, sid, id);
      NewJobTable(s, name, parent, duration, reqs);
    }
  }

  lemma JobAddedRefs(w: World, r: World, sid: ShipId, id: JobId)
    requires Refs(w) && JobAdded(w, r, sid, id)
    ensures Refs(r)
  {
    forall p | p in r.ports ensures PortRefs(r, p) {
      assert PortRefs(w, p);
    }
  }

  lemma JobAddedFresh(w: World, r: World, sid: ShipId, id: JobId)
    requires Fresh(w) && PortsLoaded(w) && PersonsIdle(w) && JobAdded(w, r, sid, id)
    ensures Fresh(r) && PortsLoaded(r) && PersonsIdle(r)
  {
  }

  lemma JobAddedLinks(w: World, r: World, sid: ShipId, id: JobId)
    requires Links(w) && JobAdded(w, r, sid, id)
    ensures Links(r)
  {
    forall j | j in r.jobs ensures JobTable.RowReadable(r, j) {
      if j != id {
        assert JobTable.RowReadable(w, j);
      }
    }
  }

  lemma JobAddedSweep(w: World, r: World, sid: ShipId, id: JobId)
    requires Monitor.SweepReady(w) && JobAdded(w, r, sid, id)
    ensures Monitor.SweepReady(r)
  {
    forall x | x in r.ships ensures r.ships[x].dock == w.ships[x].dock {
    }
  }

  lemma JobAddedMaps(s: Load, r: Load, sid: ShipId, id: JobId)
    requires MapsOk(s) && JobAdded(s.w, r.w, sid, id) && r == s.(w := r.w, table := r.table)
    ensures MapsOk(r)
  {
  }

  lemma NewJobTable(s: Load, name: string, parent: int, duration: Option<int>, reqs: seq<string>)
    requires LoadInv(s) && parent in s.hms
    ensures TableOk(NewJob(s, name, parent, duration, reqs).0)
  {
    var r := NewJob(s, name, parent, duration, reqs).0;
    var id := s.w.nextId;
    if duration.Some? {
      assert id !in s.table.data;
      DistinctAppend(s.table.data, id);
      assert r.table.data == s.table.data + [id];
      forall i | 0 <= i < |r.table.data|
        ensures r.table.data[i] in r.w.jobs
        ensures r.table.data[i] in r.table.rows <==> r.w.jobs[r.table.data[i]].port.Some?
      {
        if i < |s.table.data| {
          assert r.table.data[i] == s.table.data[i];
        }
      }
    }
  }


  // ----- the loop over the lines ------------------------------------------

  lemma ConstructInv(s: Load, l: Line)
    requires LoadInv(s)
    ensures LoadInv(Construct(s, l).0)
  {
    match l
    case Blank =>
    case Comment =>
    case PortLine(name, index) => NewPortInv(s, name, index);
    case DockLine(name, index, parent) => NewDockInv(s, name, index, parent);
    case ShipLine(kind, name, index, parent, dims, extrasOk) => NewShipInv(s, kind, name, index, parent, dims, extrasOk);
    case PersonLine(name, parent, skill) => NewPersonInv(s, name, parent, skill);
    case JobLine(name, parent, duration, reqs) => NewJobInv(s, name, parent, duration, reqs);
    case Unknown(_) =>
  }

  /** Only the loader's counters and dialogs differ. */
  predicate SameBuild(a: Load, b: Load)
  {
    b == a.(line := b.line, errors := b.errors, refReported := b.refReported, dialogs := b.dialogs)
  }

  lemma SameBuildInv(a: Load, b: Load)
    requires LoadInv(a) && SameBuild(a, b)
    ensures LoadInv(b)
  {
    assert b.w == a.w && b.table == a.table && b.hmp == a.hmp && b.hmd == a.hmd && b.hms == a.hms;
  }

  /** The two handlers around the `switch`: a format error goes to the outer one, a missing parent to the inner one. */
  function Handle(s: Load, out: Outcome): (r: Load)
    requires DialogInv(s)
    ensures DialogInv(r) && SameBuild(s, r) && r.line == s.line
    ensures out == Created ==> r == s
    ensures out == BadNumber ==> r.errors == s.errors + 1 && r.refReported == s.refReported
    ensures out == BrokenRef ==> r.errors == s.errors && r.refReported
    ensures s.refReported ==> r.refReported
  {
    match out
    case Created => s
    case BadNumber => FormatErrorDialogs(s); FormatError(s)
    case BrokenRef => RefErrorDialogs(s); RefError(s)
  }

  /**
   * One pass of the `while` loop: the line counter goes up first, even for a
   * blank line; the constructor runs; its failure goes to a handler. The
   * world keeps its invariant and the dialogs theirs.
   */
  function Process(s: Load, l: Line): (r: Load)
    requires LoadInv(s) && DialogInv(s)
    ensures LoadInv(r) && DialogInv(r)
    ensures r.line == s.line + 1 && s.errors <= r.errors <= s.errors + 1
    ensures s.refReported ==> r.refReported
    ensures l.Blank? || l.Comment? ==> r == s.(line := s.line + 1)
    ensures l.Unknown? ==> r.errors == s.errors + 1 && r.w == s.w && r.table == s.table
    ensures Monitor.ShipsHome(s.w) ==> Monitor.ShipsHome(r.w)
  {
    var s1 := s.(line := s.line + 1);
    SameBuildInv(s, s1);
    ConstructInv(s1, l);
    var c := Construct(s1, l);
    ConstructHome(s1, l);
    var r := Handle(c.0, c.1);
    SameBuildInv(c.0, r);
    r
  }

  /** The `while` loop over the remaining lines. */
  function ProcessLines(s: Load, ls: seq<Line>): (r: Load)
    requires LoadInv(s) && DialogInv(s)
    ensures LoadInv(r) && DialogInv(r)
    ensures r.line == s.line + |ls| && r.errors >= s.errors
    ensures s.refReported ==> r.refReported
    ensures Monitor.ShipsHome(s.w) ==> Monitor.ShipsHome(r.w)
    decreases |ls|
  {
    if |ls| == 0 then s else ProcessLines(Process(s, ls[0]), ls[1..])
  }

  /** Every format error is counted, but at most three dialogs report them and at most one reports a broken reference. */
  lemma DialogsCapped(s: Load)
    requires DialogInv(s)
    ensures |Queries.Filter(s.dialogs, IsFormat)| <= 3 && |Queries.Filter(s.dialogs, IsRef)| <= 1
    ensures s.errors >= 3 ==> Queries.Filter(s.dialogs, IsFormat)[2].text == Numerous
  {
    if s.errors >= 3 {
      FormatMessageLine(Queries.Filter(s.dialogs, IsFormat)[2].line, 2);
    }
  }

  // ----- the pools --------------------------------------------------------

  /** Each port of `ps` is listed once and has not built its pool yet. */
  predicate Unbuilt(w: World, ps: seq<PortId>)
  {
    && Distinct(ps) && Queries.PortsExist(w, ps)
    && (forall i :: 0 <= i < |ps| ==>
          Pool.Known(w.ports[ps[i]].persons, w.persons) && w.ports[ps[i]].pool.Keys == w.ports[ps[i]].totals.Keys)
  }

  /** The closing `for` loop: each port of `ps` builds its resource map, and nothing else changes. */
  function BuildAll(w: World, ps: seq<PortId>): (r: World)
    requires Unbuilt(w, ps)
    ensures r == w.(ports := r.ports) && r.ports.Keys == w.ports.Keys
    ensures forall p :: p in w.ports ==>
      r.ports[p] == if p in ps then Pool.BuildResourceMap(w.ports[p], w.persons) else w.ports[p]
    decreases |ps|
  {
    if |ps| == 0 then w
    else
      var p := ps[0];
      var w1 := w.(ports := w.ports[p := Pool.BuildResourceMap(w.ports[p], w.persons)]);
      assert Unbuilt(w1, ps[1..]) by {
        forall i | 0 <= i < |ps[1..]| ensures ps[1..][i] != p && ps[1..][i] in w.ports {
          assert ps[1..][i] == ps[i + 1];
        }
      }
      assert forall q :: q in ps <==> q == p || q in ps[1..] by {
        assert ps == [p] + ps[1..];
      }
      BuildAll(w1, ps[1..])
  }

  /** A freshly loaded world has not built any pool yet. */
  lemma BuildReady(w: World)
    requires Refs(w) && PortsLoaded(w)
    ensures Unbuilt(w, w.portOrder)
  {
    forall i | 0 <= i < |w.portOrder| ensures Pool.Known(w.ports[w.portOrder[i]].persons, w.persons) {
      assert PortRefs(w, w.portOrder[i]);
    }
  }

  /** Only the ports' pools and totals may differ. */
  predicate ListsKept(w: World, r: World)
  {
    && r == w.(ports := r.ports) && r.ports.Keys == w.ports.Keys
    && (forall p :: p in w.ports ==>
          && r.ports[p].docks == w.ports[p].docks && r.ports[p].queue == w.ports[p].queue
          && r.ports[p].ships == w.ports[p].ships && r.ports[p].persons == w.ports[p].persons)
  }

  /** Building the pools leaves every list of every port in place. */
  lemma BuildAllLists(w: World)
    requires Unbuilt(w, w.portOrder)
    ensures ListsKept(w, BuildAll(w, w.portOrder))
  {
  }

  lemma ListsKeptRefs(w: World, r: World)
    requires Refs(w) && ListsKept(w, r)
    ensures Refs(r)
  {
    forall p | p in r.ports ensures PortRefs(r, p) {
      assert PortRefs(w, p);
    }
  }

  lemma ListsKeptSweep(w: World, r: World)
    requires Monitor.SweepReady(w) && ListsKept(w, r)
    ensures Monitor.SweepReady(r)
  {
    assert r.docks == w.docks && r.ships == w.ships;
  }

  /** After the closing loop every port's pool holds exactly its idle persons, counted by skill. */
  lemma BuildAllPools(w: World)
    requires Refs(w) && PortsLoaded(w) && PersonsIdle(w) && Unbuilt(w, w.portOrder)
    ensures var r := BuildAll(w, w.portOrder); forall p :: p in r.ports ==> Pool.PoolInv(r, p)
  {
    var r := BuildAll(w, w.portOrder);
    forall p | p in r.ports ensures Pool.PoolInv(r, p) {
      assert PortRefs(w, p);
      assert p in w.portOrder;
      Pool.BuildEstablishesInv(w.ports[p], w.persons);
    }
  }

  /**
   * What a finished load hands over: the dialogs follow the error cap; the
   * world is ready for the sweep and the searches; every port's pool holds
   * its idle persons; the table lists each job once and is not sorted yet.
   */
  predicate Loaded(r: Load)
  {
    && DialogInv(r)
    && Refs(r.w) && Monitor.SweepReady(r.w)
    && (forall p :: p in r.w.ports ==> Pool.PoolInv(r.w, p))
    && (forall i :: 0 <= i < |r.table.data| ==> r.table.data[i] in r.w.jobs)
    && Distinct(r.table.data) && r.table.col == None && !r.table.killed
  }

  lemma BuildLoaded(s: Load)
    requires LoadInv(s) && DialogInv(s)
    ensures Unbuilt(s.w, s.w.portOrder)
    ensures Loaded(s.(w := BuildAll(s.w, s.w.portOrder)))
  {
    BuildReady(s.w);
    var r := BuildAll(s.w, s.w.portOrder);
    BuildAllLists(s.w);
    ListsKeptRefs(s.w, r);
    ListsKeptSweep(s.w, r);
    BuildAllPools(s.w);
  }

  // ----- where a ship is listed -------------------------------------------

  /**
   * A step that moves no ship, re-homes no dock, and changes no list or
   * queue of an existing port (a new port starts with both empty) keeps
   * every ship at home.
   */
  lemma UnmovedHome(w: World, r: World)
    requires Monitor.ShipsHome(w)
    requires w.ports.Keys <= r.ports.Keys && r.ships.Keys == w.ships.Keys && w.docks.Keys <= r.docks.Keys
    requires forall p :: p in r.ports ==>
      if p in w.ports then r.ports[p].ships == w.ports[p].ships && r.ports[p].queue == w.ports[p].queue
      else r.ports[p].ships == [] && r.ports[p].queue == []
    requires forall x :: x in w.ships ==> r.ships[x].dock == w.ships[x].dock && r.ships[x].port == w.ships[x].port
    requires forall d :: d in w.docks ==> r.docks[d].port == w.docks[d].port
    ensures Monitor.ShipsHome(r)
  {
    forall p, x | p in r.ports ensures multiset(r.ports[p].ships)[x] <= 1 {
      if p in w.ports {
        assert multiset(w.ports[p].ships)[x] <= 1;
      }
    }
  }

  /** A placed ship is listed once, at the port it names, and waits in that port's queue or at a dock of it. */
  lemma PlacedHome(w: World, r: World, id: ShipId)
    requires Refs(w) && Fresh(w) && Placed(w, r, id) && Monitor.ShipsHome(w)
    ensures Monitor.ShipsHome(r)
  {
    PlacedListed(w, r, id);
    PlacedOnce(w, r, id);
    PlacedQueuedHome(w, r, id);
    PlacedDockedHome(w, r, id);
  }

  lemma PlacedListed(w: World, r: World, id: ShipId)
    requires Refs(w) && Fresh(w) && Placed(w, r, id) && Queries.ShipsListed(w)
    ensures Queries.ShipsListed(r)
  {
    forall p, i | p in r.ports && 0 <= i < |r.ports[p].ships|
      ensures r.ports[p].ships[i] in r.ships && r.ships[r.ports[p].ships[i]].port == Some(p)
    {
      assert PortRefs(w, p);
      if i < |w.ports[p].ships| {
        assert r.ports[p].ships[i] == w.ports[p].ships[i];
      }
    }
  }

  lemma PlacedOnce(w: World, r: World, id: ShipId)
    requires Refs(w) && Fresh(w) && Placed(w, r, id) && Queries.ListedOnce(w)
    ensures Queries.ListedOnce(r)
  {
    forall p, x | p in r.ports ensures multiset(r.ports[p].ships)[x] <= 1 {
      assert multiset(w.ports[p].ships)[x] <= 1;
      if r.ports[p].ships != w.ports[p].ships {
        assert PortRefs(w, p);
        assert id !in w.ports[p].ships;
        assert r.ports[p].ships == w.ports[p].ships + [id];
      }
    }
  }

  lemma PlacedQueuedHome(w: World, r: World, id: ShipId)
    requires Refs(w) && Fresh(w) && Placed(w, r, id) && Monitor.QueuedHome(w)
    ensures Monitor.QueuedHome(r)
  {
    forall p, i | p in r.ports && 0 <= i < |r.ports[p].queue|
      ensures r.ports[p].queue[i] in r.ships && r.ships[r.ports[p].queue[i]].port == Some(p)
    {
      if i < |w.ports[p].queue| {
        assert r.ports[p].queue[i] == w.ports[p].queue[i];
      }
    }
  }

  lemma PlacedDockedHome(w: World, r: World, id: ShipId)
    requires Fresh(w) && Placed(w, r, id) && Monitor.DockedHome(w)
    ensures Monitor.DockedHome(r)
  {
  }

  lemma NewPortHome(s: Load, name: string, index: int)
    requires Fresh(s.w) && Monitor.ShipsHome(s.w)
    ensures Monitor.ShipsHome(NewPort(s, name, index).0.w)
  {
    UnmovedHome(s.w, NewPort(s, name, index).0.w);
  }

  lemma NewDockHome(s: Load, name: string, index: int, parent: int)
    requires MapsOk(s) && Fresh(s.w) && Monitor.ShipsHome(s.w)
    ensures Monitor.ShipsHome(NewDock(s, name, index, parent).0.w)
  {
    UnmovedHome(s.w, NewDock(s, name, index, parent).0.w);
  }

  lemma NewShipHome(s: Load, kind: ShipKind, name: string, index: int, parent: int, dims: Option<Dims>, extrasOk: bool)
    requires MapsOk(s) && Links(s.w) && Refs(s.w) && Fresh(s.w) && Monitor.ShipsHome(s.w)
    ensures Monitor.ShipsHome(NewShip(s, kind, name, index, parent, dims, extrasOk).0.w)
  {
    NewShipPlaced(s, kind, name, index, parent, dims, extrasOk);
    PlacedHome(s.w, NewShip(s, kind, name, index, parent, dims, extrasOk).0.w, s.w.nextId);
  }

  lemma NewPersonHome(s: Load, name: string, parent: int, skill: string)
    requires MapsOk(s) && Monitor.ShipsHome(s.w)
    ensures Monitor.ShipsHome(NewPerson(s, name, parent, skill).0.w)
  {
    UnmovedHome(s.w, NewPerson(s, name, parent, skill).0.w);
  }

  lemma NewJobHome(s: Load, name: string, parent: int, duration: Option<int>, reqs: seq<string>)
    requires MapsOk(s) && Links(s.w) && Monitor.ShipsHome(s.w)
    ensures Monitor.ShipsHome(NewJob(s, name, parent, duration, reqs).0.w)
  {
    if parent in s.hms {
      NewJobAdded(s, name, parent, duration, reqs);
      UnmovedHome(s.w, NewJob(s, name, parent, duration, reqs).0.w);
    }
  }

  /** Every constructor keeps every ship at home. */
  lemma ConstructHome(s: Load, l: Line)
    requires LoadInv(s)
    ensures Monitor.ShipsHome(s.w) ==> Monitor.ShipsHome(Construct(s, l).0.w)
  {
    if Monitor.ShipsHome(s.w) {
      match l
      case Blank =>
      case Comment =>
      case PortLine(name, index) => NewPortHome(s, name, index);
      case DockLine(name, index, parent) => NewDockHome(s, name, index, parent);
      case ShipLine(kind, name, index, parent, dims, extrasOk) =>
        NewShipHome(s, kind, name, index, parent, dims, extrasOk);
      case PersonLine(name, parent, skill) => NewPersonHome(s, name, parent, skill);
      case JobLine(name, parent, duration, reqs) => NewJobHome(s, name, parent, duration, reqs);
      case Unknown(_) =>
    }
  }

  /** Building the pools keeps every ship at home. */
  lemma BuildAllHome(w: World)
    requires Unbuilt(w, w.portOrder) && Monitor.ShipsHome(w)
    ensures Monitor.ShipsHome(BuildAll(w, w.portOrder))
  {
    BuildAllLists(w);
    UnmovedHome(w, BuildAll(w, w.portOrder));
  }

  /** `processDataFile` on a whole file of `ls`: every line, then every port's resource map. */
  function LoadFile(ls: seq<Line>): (r: Load)
    ensures Loaded(r) && r.line == |ls|
    ensures Monitor.ShipsHome(r.w)
  {
    InitialInv();
    InitialHome();
    var s := ProcessLines(Initial, ls);
    BuildLoaded(s);
    BuildAllHome(s.w);
    s.(w := BuildAll(s.w, s.w.portOrder))
  }
}
