/**
 * The searches of `World`: every one walks the ports in load order and,
 * within a port, one of its lists in order, keeping the entries that match.
 * A search is therefore a filter of the concatenation of the per-port lists.
 */
module Queries {
  import opened Model
  import opened Seqs

  /** The entries of `s` that `keep` accepts, in their order. */
  function Filter<T(!new)>(s: seq<T>, keep: T -> bool): (r: seq<T>)
    ensures |r| <= |s|
    ensures forall x :: x in r <==> x in s && keep(x)
  {
    if |s| == 0 then []
    else if keep(s[0]) then [s[0]] + Filter(s[1..], keep)
    else Filter(s[1..], keep)
  }

  lemma {:induction false} FilterAppend<T(!new)>(a: seq<T>, b: seq<T>, keep: T -> bool)
    ensures Filter(a + b, keep) == Filter(a, keep) + Filter(b, keep)
  {
    if |a| > 0 {
      assert (a + b)[1..] == a[1..] + b;
      FilterAppend(a[1..], b, keep);
    } else {
      assert a + b == b;
    }
  }

  /** Every port in `ps` exists. */
  predicate PortsExist(w: World, ps: seq<PortId>)
  {
    forall i :: 0 <= i < |ps| ==> ps[i] in w.ports
  }

  /** One list of each port of `ps`, concatenated in port order. */
  function AllOf(w: World, ps: seq<PortId>, pick: Port -> seq<nat>): seq<nat>
    requires PortsExist(w, ps)
  {
    if |ps| == 0 then [] else pick(w.ports[ps[0]]) + AllOf(w, ps[1..], pick)
  }

  /** An id is in the concatenation iff some port of `ps` lists it. */
  lemma {:induction false} AllOfMember(w: World, ps: seq<PortId>, pick: Port -> seq<nat>, x: nat)
    requires PortsExist(w, ps)
    ensures x in AllOf(w, ps, pick) <==> exists i :: 0 <= i < |ps| && x in pick(w.ports[ps[i]])
  {
    if |ps| > 0 {
      AllOfMember(w, ps[1..], pick, x);
      if x in AllOf(w, ps[1..], pick) {
        var i :| 0 <= i < |ps[1..]| && x in pick(w.ports[ps[1..][i]]);
        assert ps[1..][i] == ps[i + 1];
      }
      if x !in pick(w.ports[ps[0]]) && exists i :: 0 <= i < |ps| && x in pick(w.ports[ps[i]]) {
        var i :| 0 <= i < |ps| && x in pick(w.ports[ps[i]]);
        assert i > 0 && ps[1..][i - 1] == ps[i];
      }
    }
  }

  /** The nested loops of a search: per port, the matching entries of its list. */
  function Search(w: World, ps: seq<PortId>, pick: Port -> seq<nat>, keep: nat -> bool): (r: seq<nat>)
    requires PortsExist(w, ps)
  {
    if |ps| == 0 then [] else Filter(pick(w.ports[ps[0]]), keep) + Search(w, ps[1..], pick, keep)
  }

  /** A search returns exactly the matching entries of the concatenated lists, in that order. */
  lemma {:induction false} SearchIsFilter(w: World, ps: seq<PortId>, pick: Port -> seq<nat>, keep: nat -> bool)
    requires PortsExist(w, ps)
    ensures Search(w, ps, pick, keep) == Filter(AllOf(w, ps, pick), keep)
  {
    if |ps| > 0 {
      SearchIsFilter(w, ps[1..], pick, keep);
      FilterAppend(pick(w.ports[ps[0]]), AllOf(w, ps[1..], pick), keep);
    }
  }

  // ----- the per-port lists -----------------------------------------------

  function DocksOf(p: Port): seq<nat> { p.docks }

  function ShipsOf(p: Port): seq<nat> { p.ships }

  function PersonsOf(p: Port): seq<nat> { p.persons }

  /** `getPorts()`: the world's ports in load order, every one of them existing. */
  function GetPorts(w: World): (r: seq<PortId>)
    requires Refs(w)
    ensures |r| == |w.portOrder| && forall x :: x in r ==> x in w.ports
  {
    w.portOrder
  }

  /** `getDocks()`. */
  function GetDocks(w: World): seq<DockId>
    requires Refs(w)
  {
    AllOf(w, w.portOrder, DocksOf)
  }

  /** `getPersons()`. */
  function GetPersons(w: World): seq<PersonId>
    requires Refs(w)
  {
    AllOf(w, w.portOrder, PersonsOf)
  }

  /** Every ship some port still lists: the ships all searches walk. */
  function ListedShips(w: World): seq<ShipId>
    requires Refs(w)
  {
    AllOf(w, w.portOrder, ShipsOf)
  }

  /** `getPorts()`, `getDocks()` and `getPersons()` list what the ports list, in port order. */
  lemma Listings(w: World, x: nat)
    requires Refs(w)
    ensures x in GetDocks(w) <==> exists i :: 0 <= i < |w.portOrder| && x in w.ports[w.portOrder[i]].docks
    ensures x in GetPersons(w) <==> exists i :: 0 <= i < |w.portOrder| && x in w.ports[w.portOrder[i]].persons
    ensures x in ListedShips(w) <==> exists i :: 0 <= i < |w.portOrder| && x in w.ports[w.portOrder[i]].ships
  {
    AllOfMember(w, w.portOrder, DocksOf, x);
    AllOfMember(w, w.portOrder, PersonsOf, x);
    AllOfMember(w, w.portOrder, ShipsOf, x);
  }

  // ----- searches ---------------------------------------------------------

  function SkillIs(w: World, q: string): nat -> bool
  {
    (x: nat) => x in w.persons && Lower(w.persons[x].skill) == q
  }

  /** `searchBySkill(q)`: the persons whose lowercased skill is `q`, in port and person order. */
  function SearchBySkill(w: World, q: string): (r: seq<PersonId>)
    requires Refs(w)
    ensures r == Filter(GetPersons(w), SkillIs(w, q))
    ensures forall x :: x in r <==> x in GetPersons(w) && x in w.persons && Lower(w.persons[x].skill) == q
  {
    SearchIsFilter(w, w.portOrder, PersonsOf, SkillIs(w, q));
    Search(w, w.portOrder, PersonsOf, SkillIs(w, q))
  }

  lemma PersonsKnown(w: World)
    requires Refs(w)
    ensures forall x :: x in GetPersons(w) ==> x in w.persons
  {
    forall x | x in GetPersons(w) ensures x in w.persons {
      AllOfMember(w, w.portOrder, PersonsOf, x);
      var i :| 0 <= i < |w.portOrder| && x in w.ports[w.portOrder[i]].persons;
      assert PortRefs(w, w.portOrder[i]);
    }
  }

  function PortNamed(w: World, q: string): nat -> bool
  {
    (x: nat) => x in w.ports && Lower(w.ports[x].name) == q
  }

  function DockNamed(w: World, q: string): nat -> bool
  {
    (x: nat) => x in w.docks && Lower(w.docks[x].name) == q
  }

  function ShipNamed(w: World, q: string): nat -> bool
  {
    (x: nat) => x in w.ships && Lower(w.ships[x].name) == q
  }

  function PersonNamed(w: World, q: string): nat -> bool
  {
    (x: nat) => x in w.persons && Lower(w.persons[x].name) == q
  }

  /**
   * `searchByName(q)`: five lists, the matching ports, docks, ships (cargo
   * and passenger alike), persons, and a fifth list that stays empty.
   */
  function SearchByName(w: World, q: string): (r: seq<seq<nat>>)
    requires Refs(w)
    ensures |r| == 5 && r[4] == []
    ensures r[0] == Filter(w.portOrder, PortNamed(w, q))
    ensures r[1] == Filter(GetDocks(w), DockNamed(w, q))
    ensures r[2] == Filter(ListedShips(w), ShipNamed(w, q))
    ensures r[3] == Filter(GetPersons(w), PersonNamed(w, q))
  {
    var docks := Search(w, w.portOrder, DocksOf, DockNamed(w, q));
    assert docks == Filter(GetDocks(w), DockNamed(w, q)) by {
      SearchIsFilter(w, w.portOrder, DocksOf, DockNamed(w, q));
    }
    var ships := Search(w, w.portOrder, ShipsOf, ShipNamed(w, q));
    assert ships == Filter(ListedShips(w), ShipNamed(w, q)) by {
      SearchIsFilter(w, w.portOrder, ShipsOf, ShipNamed(w, q));
    }
    var persons := Search(w, w.portOrder, PersonsOf, PersonNamed(w, q));
    assert persons == Filter(GetPersons(w), PersonNamed(w, q)) by {
      SearchIsFilter(w, w.portOrder, PersonsOf, PersonNamed(w, q));
    }
    [Filter(w.portOrder, PortNamed(w, q)), docks, ships, persons, []]
  }

  function LengthBelow(w: World, v: real): nat -> bool
  {
    (x: nat) => x in w.ships && w.ships[x].dims.length < v
  }

  function WidthBelow(w: World, v: real): nat -> bool
  {
    (x: nat) => x in w.ships && w.ships[x].dims.width < v
  }

  /** `searchShipByMaxX(attr, v)`: listed ships strictly below `v` in length or width; nothing for any other attribute. */
  function SearchShipByMaxX(w: World, attr: string, v: real): (r: seq<ShipId>)
    requires Refs(w)
    ensures attr == "length" ==> r == Filter(ListedShips(w), LengthBelow(w, v))
    ensures attr == "width" ==> r == Filter(ListedShips(w), WidthBelow(w, v))
    ensures attr != "length" && attr != "width" ==> r == []
  {
    if attr == "length" then
      SearchIsFilter(w, w.portOrder, ShipsOf, LengthBelow(w, v));
      Search(w, w.portOrder, ShipsOf, LengthBelow(w, v))
    else if attr == "width" then
      SearchIsFilter(w, w.portOrder, ShipsOf, WidthBelow(w, v));
      Search(w, w.portOrder, ShipsOf, WidthBelow(w, v))
    else []
  }

  function KindWanted(w: World, cargo: bool, passenger: bool): nat -> bool
  {
    (x: nat) => x in w.ships && ((cargo && w.ships[x].kind == Cargo) || (passenger && w.ships[x].kind == Passenger))
  }

  /** `getShips(cargo, passenger)`: the listed ships of the wanted kinds, in port and list order. */
  function GetShips(w: World, cargo: bool, passenger: bool): (r: seq<ShipId>)
    requires Refs(w)
    ensures r == Filter(ListedShips(w), KindWanted(w, cargo, passenger))
  {
    SearchIsFilter(w, w.portOrder, ShipsOf, KindWanted(w, cargo, passenger));
    Search(w, w.portOrder, ShipsOf, KindWanted(w, cargo, passenger))
  }

  /** Every port's listed ships exist and still belong to that port. */
  predicate ShipsListed(w: World)
  {
    forall p, i :: p in w.ports && 0 <= i < |w.ports[p].ships| ==>
      w.ports[p].ships[i] in w.ships && w.ships[w.ports[p].ships[i]].port == Some(p)
  }

  /** No port lists a ship twice. */
  ghost predicate ListedOnce(w: World)
  {
    forall p, x :: p in w.ports ==> multiset(w.ports[p].ships)[x] <= 1
  }

  /** While every listed ship names its port, a ship that has no port is found by no ship search. */
  lemma DepartedNeverFound(w: World, s: ShipId, q: string, attr: string, v: real, cargo: bool, passenger: bool)
    requires Refs(w) && ShipsListed(w)
    requires s in w.ships && w.ships[s].port.None?
    ensures s !in ListedShips(w)
    ensures s !in SearchByName(w, q)[2]
    ensures s !in SearchShipByMaxX(w, attr, v)
    ensures s !in GetShips(w, cargo, passenger)
  {
    AllOfMember(w, w.portOrder, ShipsOf, s);
  }
}
