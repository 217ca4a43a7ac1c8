/**
 * Port.java, worker pool: `buildResourceMap`, `requestWorkers` and
 * `returnWorker`. A port's `pool` maps a skill to the persons currently
 * available with that skill; `totals` counts the port's persons per skill.
 */
module Pool {
  import opened Model
  import opened Seqs
  import Persons
  import JobState
  import ShipRecord

  /** The pool list of skill `s`, empty when `s` is not a key. */
  function PoolOf(pool: map<string, seq<PersonId>>, s: string): seq<PersonId>
  {
    if s in pool then pool[s] else []
  }

  /** The total of skill `s`, zero when `s` is not a key. */
  function TotalOf(totals: map<string, int>, s: string): int
  {
    if s in totals then totals[s] else 0
  }

  /** Every id of `pids` names a person. */
  predicate Known(pids: seq<PersonId>, persons: map<PersonId, Person>)
  {
    forall i :: 0 <= i < |pids| ==> pids[i] in persons
  }

  /** The persons of `pids` whose skill is `s`, in order. */
  function WithSkill(pids: seq<PersonId>, persons: map<PersonId, Person>, s: string): seq<PersonId>
    requires Known(pids, persons)
  {
    if |pids| == 0 then []
    else (if persons[pids[0]].skill == s then [pids[0]] else []) + WithSkill(pids[1..], persons, s)
  }

  lemma {:induction false} WithSkillMember(pids: seq<PersonId>, persons: map<PersonId, Person>, s: string, x: PersonId)
    requires Known(pids, persons)
    ensures x in WithSkill(pids, persons, s) <==> x in pids && persons[x].skill == s
  {
    if |pids| > 0 {
      WithSkillMember(pids[1..], persons, s, x);
      assert pids == [pids[0]] + pids[1..];
    }
  }

  /** The skills of the persons `pids`. */
  function Skills(pids: seq<PersonId>, persons: map<PersonId, Person>): set<string>
    requires Known(pids, persons)
  {
    if |pids| == 0 then {} else {persons[pids[0]].skill} + Skills(pids[1..], persons)
  }

  /**
   * The loop of `buildResourceMap` over the persons not yet visited: each
   * person is appended to its skill's list and its skill's total goes up by one.
   */
  function Build(pids: seq<PersonId>, persons: map<PersonId, Person>,
                 pool: map<string, seq<PersonId>>, totals: map<string, int>)
    : (r: (map<string, seq<PersonId>>, map<string, int>))
    requires Known(pids, persons)
    requires pool.Keys == totals.Keys
    ensures r.0.Keys == r.1.Keys == pool.Keys + Skills(pids, persons)
    ensures forall s :: PoolOf(r.0, s) == PoolOf(pool, s) + WithSkill(pids, persons, s)
    ensures forall s :: TotalOf(r.1, s) == TotalOf(totals, s) + |WithSkill(pids, persons, s)|
    decreases |pids|
  {
    if |pids| == 0 then (pool, totals)
    else
      var x := pids[0];
      var k := persons[x].skill;
      var pool' := pool[k := PoolOf(pool, k) + [x]];
      var totals' := totals[k := TotalOf(totals, k) + 1];
      var r := Build(pids[1..], persons, pool', totals');
      assert Skills(pids, persons) == {k} + Skills(pids[1..], persons);
      forall s
        ensures PoolOf(r.0, s) == PoolOf(pool, s) + WithSkill(pids, persons, s)
        ensures TotalOf(r.1, s) == TotalOf(totals, s) + |WithSkill(pids, persons, s)|
      {
        BuildStepAt(pids, persons, pool, totals, s);
      }
      r
  }

  /** One person's contribution to the lists and totals of skill `s`. */
  lemma BuildStepAt(pids: seq<PersonId>, persons: map<PersonId, Person>,
                    pool: map<string, seq<PersonId>>, totals: map<string, int>, s: string)
    requires Known(pids, persons) && |pids| > 0
    ensures var k := persons[pids[0]].skill;
      var pool' := pool[k := PoolOf(pool, k) + [pids[0]]];
      var totals' := totals[k := TotalOf(totals, k) + 1];
      && PoolOf(pool', s) + WithSkill(pids[1..], persons, s) == PoolOf(pool, s) + WithSkill(pids, persons, s)
      && TotalOf(totals', s) + |WithSkill(pids[1..], persons, s)| == TotalOf(totals, s) + |WithSkill(pids, persons, s)|
  {
    BuildPoolStep(pids, persons, pool, s);
    BuildTotalStep(pids, persons, totals, s);
  }

  lemma BuildPoolStep(pids: seq<PersonId>, persons: map<PersonId, Person>, pool: map<string, seq<PersonId>>, s: string)
    requires Known(pids, persons) && |pids| > 0
    ensures var k := persons[pids[0]].skill;
      PoolOf(pool[k := PoolOf(pool, k) + [pids[0]]], s) + WithSkill(pids[1..], persons, s)
        == PoolOf(pool, s) + WithSkill(pids, persons, s)
  {
    var x := pids[0];
    var k := persons[x].skill;
    var l := PoolOf(pool, s);
    var rest := WithSkill(pids[1..], persons, s);
    if k == s {
      assert WithSkill(pids, persons, s) == [x] + rest;
      assert PoolOf(pool[k := PoolOf(pool, k) + [x]], s) == l + [x];
      assert (l + [x]) + rest == l + ([x] + rest);
    } else {
      assert WithSkill(pids, persons, s) == rest;
      assert PoolOf(pool[k := PoolOf(pool, k) + [x]], s) == l;
    }
  }

  lemma BuildTotalStep(pids: seq<PersonId>, persons: map<PersonId, Person>, totals: map<string, int>, s: string)
    requires Known(pids, persons) && |pids| > 0
    ensures var k := persons[pids[0]].skill;
      TotalOf(totals[k := TotalOf(totals, k) + 1], s) + |WithSkill(pids[1..], persons, s)|
        == TotalOf(totals, s) + |WithSkill(pids, persons, s)|
  {
    var k := persons[pids[0]].skill;
    var h := if k == s then [pids[0]] else [];
    assert WithSkill(pids, persons, s) == h + WithSkill(pids[1..], persons, s);
  }

  /** `buildResourceMap`: fold the port's persons, in load order, into its pool and totals. */
  function BuildResourceMap(port: Port, persons: map<PersonId, Person>): (r: Port)
    requires Known(port.persons, persons)
    requires port.pool.Keys == port.totals.Keys
    ensures r.pool.Keys == r.totals.Keys == port.pool.Keys + Skills(port.persons, persons)
    ensures forall s :: PoolOf(r.pool, s) == PoolOf(port.pool, s) + WithSkill(port.persons, persons, s)
    ensures forall s :: TotalOf(r.totals, s) == TotalOf(port.totals, s) + |WithSkill(port.persons, persons, s)|
    ensures r.(pool := port.pool, totals := port.totals) == port
  {
    var (pool, totals) := Build(port.persons, persons, port.pool, port.totals);
    port.(pool := pool, totals := totals)
  }

  /**
   * On a port whose pool has never been built, the list of skill `s` is
   * exactly the port's persons of that skill in load order, and the total of
   * `s` is the length of that list.
   */
  lemma FreshBuild(port: Port, persons: map<PersonId, Person>, s: string)
    requires Known(port.persons, persons)
    requires port.pool == map[] && port.totals == map[]
    ensures var r := BuildResourceMap(port, persons);
      && r.pool.Keys == r.totals.Keys == Skills(port.persons, persons)
      && PoolOf(r.pool, s) == WithSkill(port.persons, persons, s)
      && TotalOf(r.totals, s) == |PoolOf(r.pool, s)|
  {
    var r := BuildResourceMap(port, persons);
    assert PoolOf(r.pool, s) == PoolOf(port.pool, s) + WithSkill(port.persons, persons, s);
    assert TotalOf(r.totals, s) == TotalOf(port.totals, s) + |WithSkill(port.persons, persons, s)|;
  }

  /** A port without persons keeps an empty pool after the build. */
  lemma NoPersonsNoPool(port: Port, persons: map<PersonId, Person>)
    requires port.persons == [] && port.pool == map[] && port.totals == map[]
    ensures BuildResourceMap(port, persons).pool == map[]
  {
    assert Skills(port.persons, persons) == {};
  }

  // ----- the pool as part of the world -----------------------------------

  /** The shape a built pool keeps: matching keys, no person listed twice, every listed person of the list's skill. */
  predicate Shaped(port: Port, persons: map<PersonId, Person>)
  {
    && port.pool.Keys == port.totals.Keys
    && (forall s :: s in port.pool ==> Distinct(port.pool[s]))
    && (forall s, x :: s in port.pool && x in port.pool[s] ==> x in persons && persons[x].skill == s)
  }

  /**
   * The conservation invariant of a port: the totals count the port's
   * persons per skill, every pooled person belongs to the port, and a person
   * of the port is in its skill's pool list exactly when it has no current job.
   */
  predicate Conserved(port: Port, persons: map<PersonId, Person>)
  {
    && Shaped(port, persons)
    && Known(port.persons, persons)
    && (forall s, x :: s in port.pool && x in port.pool[s] ==> x in port.persons)
    && (forall s :: s in port.totals ==> port.totals[s] == |WithSkill(port.persons, persons, s)|)
    && (forall x :: x in port.persons && x in persons ==>
          (x in PoolOf(port.pool, persons[x].skill) <==> persons[x].currentJob == None))
  }

  predicate PoolShape(w: World, p: PortId)
    requires p in w.ports
  {
    Shaped(w.ports[p], w.persons)
  }

  predicate PoolInv(w: World, p: PortId)
    requires p in w.ports
  {
    Conserved(w.ports[p], w.persons)
  }

  /** The invariant reads only a port's persons, pool and totals. */
  lemma ConservedFields(a: Port, b: Port, persons: map<PersonId, Person>)
    requires a.persons == b.persons && a.pool == b.pool && a.totals == b.totals
    ensures Conserved(a, persons) <==> Conserved(b, persons)
  {
  }

  /** Building the pool of a freshly loaded port whose persons are all idle establishes the conservation invariant. */
  lemma BuildEstablishesInv(port: Port, persons: map<PersonId, Person>)
    requires Known(port.persons, persons)
    requires Distinct(port.persons)
    requires port.pool == map[] && port.totals == map[]
    requires forall x :: x in port.persons ==> persons[x].currentJob == None
    ensures Conserved(BuildResourceMap(port, persons), persons)
  {
    var r := BuildResourceMap(port, persons);
    assert r.persons == port.persons;
    assert Shaped(r, persons) by {
      FreshBuild(port, persons, "");
      BuildListsDistinct(port, persons);
      BuildListsMatch(port, persons);
    }
    assert forall s, x :: s in r.pool && x in r.pool[s] ==> x in r.persons by {
      BuildListsMatch(port, persons);
    }
    assert forall s :: s in r.totals ==> r.totals[s] == |WithSkill(r.persons, persons, s)| by {
      BuildTotalsCount(port, persons);
    }
    assert forall x :: x in r.persons && x in persons ==>
      (x in PoolOf(r.pool, persons[x].skill) <==> persons[x].currentJob == None) by {
      BuildPoolsEveryone(port, persons);
    }
  }

  lemma BuildListsDistinct(port: Port, persons: map<PersonId, Person>)
    requires Known(port.persons, persons)
    requires Distinct(port.persons)
    requires port.pool == map[] && port.totals == map[]
    ensures var r := BuildResourceMap(port, persons); forall s :: s in r.pool ==> Distinct(r.pool[s])
  {
    var r := BuildResourceMap(port, persons);
    forall s | s in r.pool ensures Distinct(r.pool[s]) {
      FreshBuild(port, persons, s);
      WithSkillDistinct(port.persons, persons, s);
    }
  }
  lemma BuildListsMatch(port: Port, persons: map<PersonId, Person>)
    requires Known(port.persons, persons)
    requires port.pool == map[] && port.totals == map[]
    ensures var r := BuildResourceMap(port, persons); forall s, x :: s in r.pool && x in r.pool[s] ==> x in persons && persons[x].skill == s && x in port.persons
  {
    var r := BuildResourceMap(port, persons);
    forall s, x | s in r.pool && x in r.pool[s]
      ensures x in persons && persons[x].skill == s && x in port.persons
    {
      FreshBuild(port, persons, s);
      WithSkillMember(port.persons, persons, s, x);
    }
  }
  lemma BuildTotalsCount(port: Port, persons: map<PersonId, Person>)
    requires Known(port.persons, persons)
    requires port.pool == map[] && port.totals == map[]
    ensures var r := BuildResourceMap(port, persons); forall s :: s in r.totals ==> r.totals[s] == |WithSkill(r.persons, persons, s)|
  {
    var r := BuildResourceMap(port, persons);
    forall s | s in r.totals ensures r.totals[s] == |WithSkill(r.persons, persons, s)| {
      FreshBuild(port, persons, s);
    }
  }
  lemma BuildPoolsEveryone(port: Port, persons: map<PersonId, Person>)
    requires Known(port.persons, persons)
    requires port.pool == map[] && port.totals == map[]
    ensures var r := BuildResourceMap(port, persons); forall x :: x in port.persons && x in persons ==> x in PoolOf(r.pool, persons[x].skill)
  {
    var r := BuildResourceMap(port, persons);
    forall x | x in port.persons && x in persons
      ensures x in PoolOf(r.pool, persons[x].skill)
    {
      var k := persons[x].skill;
      FreshBuild(port, persons, k);
      WithSkillMember(port.persons, persons, k, x);
    }
  }
  lemma {:induction false} SkillsMember(pids: seq<PersonId>, persons: map<PersonId, Person>, x: PersonId)
    requires Known(pids, persons)
    requires x in pids
    ensures persons[x].skill in Skills(pids, persons)
  {
    if pids[0] != x {
      SkillsMember(pids[1..], persons, x);
    }
  }

  /** With a distinct load order the skill lists are distinct. Ids are allocated fresh, so load order never repeats a person; here distinctness comes from the list itself. */
  lemma {:induction false} WithSkillDistinct(pids: seq<PersonId>, persons: map<PersonId, Person>, s: string)
    requires Known(pids, persons)
    ensures Distinct(pids) ==> Distinct(WithSkill(pids, persons, s))
  {
    if |pids| > 0 && Distinct(pids) {
      var tail := pids[1..];
      assert Distinct(tail) by {
        forall i, j | 0 <= i < j < |tail| ensures tail[i] != tail[j] {
          assert tail[i] == pids[i + 1] && tail[j] == pids[j + 1];
        }
      }
      WithSkillDistinct(tail, persons, s);
      WithSkillMember(tail, persons, s, pids[0]);
      assert pids[0] !in tail by {
        forall k | 0 <= k < |tail| ensures tail[k] != pids[0] {
          assert tail[k] == pids[k + 1];
        }
      }
    }
  }

  /** Under the invariant no skill has more persons available than in total. */
  lemma AvailableWithinTotal(w: World, p: PortId, s: string)
    requires p in w.ports && PoolInv(w, p)
    requires s in w.ports[p].pool
    ensures |w.ports[p].pool[s]| <= w.ports[p].totals[s]
  {
    var port := w.ports[p];
    forall x | x in port.pool[s] ensures x in WithSkill(port.persons, w.persons, s) {
      WithSkillMember(port.persons, w.persons, s, x);
    }
    DistinctSubsetLength(port.pool[s], WithSkill(port.persons, w.persons, s));
  }

  // ----- requestWorkers ---------------------------------------------------

  /** Every required skill exists at the port and is required no more often than the port has persons with it. */
  predicate Feasible(reqs: seq<string>, totals: map<string, int>)
  {
    forall i :: 0 <= i < |reqs| ==> reqs[i] in totals && multiset(reqs)[reqs[i]] <= totals[reqs[i]]
  }

  /** Every required skill has somebody in its pool list right now. */
  predicate Available(reqs: seq<string>, pool: map<string, seq<PersonId>>)
  {
    forall i :: 0 <= i < |reqs| ==> PoolOf(pool, reqs[i]) != []
  }

  /** The head of each required skill's list, one per requirement, repeats included. */
  function Heads(reqs: seq<string>, pool: map<string, seq<PersonId>>): (r: seq<PersonId>)
    requires Available(reqs, pool)
    ensures |r| == |reqs|
    ensures forall i :: 0 <= i < |reqs| ==> r[i] == PoolOf(pool, reqs[i])[0]
  {
    if |reqs| == 0 then [] else [PoolOf(pool, reqs[0])[0]] + Heads(reqs[1..], pool)
  }

  /** In a shaped pool the head chosen for requirement `i` is a person of that skill. */
  lemma HeadSkill(w: World, p: PortId, reqs: seq<string>, i: int)
    requires p in w.ports && PoolShape(w, p)
    requires Feasible(reqs, w.ports[p].totals) && Available(reqs, w.ports[p].pool)
    requires 0 <= i < |reqs|
    ensures var h := Heads(reqs, w.ports[p].pool)[i];
      && reqs[i] in w.ports[p].pool
      && h == w.ports[p].pool[reqs[i]][0]
      && h in w.persons && w.persons[h].skill == reqs[i]
  {
    var pool := w.ports[p].pool;
    var k := reqs[i];
    assert k in w.ports[p].totals;
    assert k in pool;
    assert PoolOf(pool, k) == pool[k] && pool[k] != [];
    var h := Heads(reqs, pool)[i];
    assert h == pool[k][0];
    assert h in pool[k];
    PooledSkill(w.ports[p], w.persons, k, h);
  }

  lemma PooledSkill(port: Port, persons: map<PersonId, Person>, s: string, x: PersonId)
    requires Shaped(port, persons)
    requires s in port.pool && x in port.pool[s]
    ensures x in persons && persons[x].skill == s
  {
  }

  lemma HeadsKnown(w: World, p: PortId, reqs: seq<string>)
    requires p in w.ports && PoolShape(w, p)
    requires Feasible(reqs, w.ports[p].totals) && Available(reqs, w.ports[p].pool)
    ensures Assignable(w.persons, w.ports[p].pool, Heads(reqs, w.ports[p].pool))
  {
    var heads := Heads(reqs, w.ports[p].pool);
    forall i | 0 <= i < |heads| ensures heads[i] in w.persons && w.persons[heads[i]].skill in w.ports[p].pool {
      HeadSkill(w, p, reqs, i);
    }
  }

  /** Under the invariant the chosen heads are persons of the port. */
  lemma HeadsAtPort(w: World, p: PortId, reqs: seq<string>)
    requires p in w.ports && PoolInv(w, p)
    requires Feasible(reqs, w.ports[p].totals) && Available(reqs, w.ports[p].pool)
    ensures var heads := Heads(reqs, w.ports[p].pool);
      forall i :: 0 <= i < |heads| ==> heads[i] in w.ports[p].persons
  {
    var heads := Heads(reqs, w.ports[p].pool);
    forall i | 0 <= i < |heads| ensures heads[i] in w.ports[p].persons {
      HeadSkill(w, p, reqs, i);
      assert heads[i] in w.ports[p].pool[reqs[i]];
    }
  }

  /** A grant hands the ship heads of the port's lists, so a ship whose workers were persons of the port still has only such workers. */
  lemma GrantWorkersAtPort(w: World, r: World, p: PortId, sid: ShipId, jid: JobId)
    requires p in w.ports && sid in w.ships && jid in w.jobs && PoolInv(w, p)
    requires Feasible(w.jobs[jid].requirements, w.ports[p].totals)
    requires Available(w.jobs[jid].requirements, w.ports[p].pool)
    requires Granted(w, r, p, sid, jid)
    requires forall i :: 0 <= i < |w.ships[sid].currentWorkers| ==> w.ships[sid].currentWorkers[i] in w.ports[p].persons
    ensures sid in r.ships && p in r.ports && r.ports[p].persons == w.ports[p].persons
    ensures forall i :: 0 <= i < |r.ships[sid].currentWorkers| ==> r.ships[sid].currentWorkers[i] in r.ports[p].persons
  {
    var reqs := w.jobs[jid].requirements;
    var persons := w.ports[p].persons;
    var heads := Heads(reqs, w.ports[p].pool);
    var ws := w.ships[sid].currentWorkers;
    assert forall i :: 0 <= i < |heads| ==> heads[i] in persons by { HeadsAtPort(w, p, reqs); }
    var cw := r.ships[sid].currentWorkers;
    assert cw[..|ws|] == ws && cw[|ws|..] == heads && |cw| == |ws| + |heads|;
    forall i | 0 <= i < |cw| ensures cw[i] in persons {
      if i < |ws| {
        assert cw[i] == cw[..|ws|][i];
      } else {
        assert cw[i] == cw[|ws|..][i - |ws|];
      }
    }
  }


  /** Removes the first occurrence of each of `xs`, in turn. */
  function RemoveEach(l: seq<PersonId>, xs: seq<PersonId>): seq<PersonId>
    decreases |xs|
  {
    if |xs| == 0 then l else RemoveEach(RemoveFirst(l, xs[0]), xs[1..])
  }

  /** Skills never change, so a filter by skill reads the same in both maps. */
  lemma {:induction false} WithSkillSameSkills(pids: seq<PersonId>, a: map<PersonId, Person>, b: map<PersonId, Person>, s: string)
    requires Known(pids, a) && Known(pids, b)
    requires forall x :: x in a && x in b ==> a[x].skill == b[x].skill
    ensures WithSkill(pids, a, s) == WithSkill(pids, b, s)
  {
    if |pids| > 0 {
      WithSkillSameSkills(pids[1..], a, b, s);
    }
  }

  /** The persons map after the assignment loop: exactly the chosen persons took the job. */
  predicate AssignedPersons(before: map<PersonId, Person>, after: map<PersonId, Person>,
                            heads: seq<PersonId>, jid: JobId, sid: ShipId)
  {
    && after.Keys == before.Keys
    && forall x :: x in before ==>
         after[x] == if x in heads then Persons.AssignJob(before[x], jid, sid) else before[x]
  }

  /** Every chosen person is known and its skill is a key of the pool. */
  predicate Assignable(persons: map<PersonId, Person>, pool: map<string, seq<PersonId>>, heads: seq<PersonId>)
  {
    forall i :: 0 <= i < |heads| ==> heads[i] in persons && persons[heads[i]].skill in pool
  }

  /**
   * The assignment loop of `requestWorkers` over the chosen persons in order:
   * each takes the job and is removed from its skill's list.
   */
  function AssignAll(persons: map<PersonId, Person>, pool: map<string, seq<PersonId>>,
                     heads: seq<PersonId>, jid: JobId, sid: ShipId)
    : (r: (map<PersonId, Person>, map<string, seq<PersonId>>))
    requires Assignable(persons, pool, heads)
    ensures r.0.Keys == persons.Keys && r.1.Keys == pool.Keys
    decreases |heads|
  {
    if |heads| == 0 then (persons, pool)
    else
      var x := heads[0];
      var k := persons[x].skill;
      var persons' := persons[x := Persons.AssignJob(persons[x], jid, sid)];
      var pool' := pool[k := RemoveFirst(pool[k], x)];
      assert Assignable(persons', pool', heads[1..]) by { AssignableStep(persons, pool, heads, jid, sid); }
      AssignAll(persons', pool', heads[1..], jid, sid)
  }

  lemma AssignableStep(persons: map<PersonId, Person>, pool: map<string, seq<PersonId>>,
                       heads: seq<PersonId>, jid: JobId, sid: ShipId)
    requires Assignable(persons, pool, heads) && |heads| > 0
    ensures var x := heads[0]; var k := persons[x].skill;
      Assignable(persons[x := Persons.AssignJob(persons[x], jid, sid)], pool[k := RemoveFirst(pool[k], x)], heads[1..])
  {
    forall i | 0 <= i < |heads[1..]| ensures heads[1..][i] == heads[i + 1] {
    }
  }

  lemma {:induction false} AssignAllPersons(persons: map<PersonId, Person>, pool: map<string, seq<PersonId>>,
                                            heads: seq<PersonId>, jid: JobId, sid: ShipId)
    requires Assignable(persons, pool, heads)
    ensures AssignedPersons(persons, AssignAll(persons, pool, heads, jid, sid).0, heads, jid, sid)
    decreases |heads|
  {
    if |heads| > 0 {
      var x := heads[0];
      var k := persons[x].skill;
      var persons' := persons[x := Persons.AssignJob(persons[x], jid, sid)];
      var pool' := pool[k := RemoveFirst(pool[k], x)];
      AssignableStep(persons, pool, heads, jid, sid);
      AssignAllPersons(persons', pool', heads[1..], jid, sid);
      var r := AssignAll(persons, pool, heads, jid, sid).0;
      assert r == AssignAll(persons', pool', heads[1..], jid, sid).0;
      forall y | y in persons
        ensures r[y] == if y in heads then Persons.AssignJob(persons[y], jid, sid) else persons[y]
      {
        AssignStepAt(persons, r, heads, jid, sid, y);
      }
    }
  }

  /** One person after the first head is assigned and the rest of the loop has run. */
  lemma AssignStepAt(persons: map<PersonId, Person>, r: map<PersonId, Person>,
                     heads: seq<PersonId>, jid: JobId, sid: ShipId, y: PersonId)
    requires |heads| > 0 && heads[0] in persons && y in persons
    requires var persons' := persons[heads[0] := Persons.AssignJob(persons[heads[0]], jid, sid)];
      y in r && r[y] == if y in heads[1..] then Persons.AssignJob(persons'[y], jid, sid) else persons'[y]
    ensures r[y] == if y in heads then Persons.AssignJob(persons[y], jid, sid) else persons[y]
  {
    var x := heads[0];
    assert y in heads <==> y == x || y in heads[1..] by { assert heads == [x] + heads[1..]; }
  }

  lemma {:induction false} AssignAllPool(persons: map<PersonId, Person>, pool: map<string, seq<PersonId>>,
                                         heads: seq<PersonId>, jid: JobId, sid: ShipId, s: string)
    requires Assignable(persons, pool, heads)
    requires s in pool
    ensures Known(heads, persons)
    ensures AssignAll(persons, pool, heads, jid, sid).1[s] == RemoveEach(pool[s], WithSkill(heads, persons, s))
    decreases |heads|
  {
    if |heads| > 0 {
      var x := heads[0];
      var k := persons[x].skill;
      var persons' := persons[x := Persons.AssignJob(persons[x], jid, sid)];
      var pool' := pool[k := RemoveFirst(pool[k], x)];
      AssignableStep(persons, pool, heads, jid, sid);
      AssignAllPool(persons', pool', heads[1..], jid, sid, s);
      assert AssignAll(persons, pool, heads, jid, sid) == AssignAll(persons', pool', heads[1..], jid, sid);
      WithSkillSameSkills(heads[1..], persons', persons, s);
      var h := if k == s then [x] else [];
      assert WithSkill(heads, persons, s) == h + WithSkill(heads[1..], persons, s);
      if k == s {
        assert (h + WithSkill(heads[1..], persons, s))[1..] == WithSkill(heads[1..], persons, s);
      } else {
        assert h + WithSkill(heads[1..], persons, s) == WithSkill(heads[1..], persons, s);
      }
    }
  }

  /**
   * `requestWorkers` succeeded: exactly the heads of the required skills' lists
   * took the job, each required skill's list lost its head and no other list
   * changed, the heads were appended to the ship's workers, and nothing else
   * changed.
   */
  predicate Granted(w: World, r: World, p: PortId, sid: ShipId, jid: JobId)
    requires p in w.ports && sid in w.ships && jid in w.jobs
    requires Available(w.jobs[jid].requirements, w.ports[p].pool)
  {
    var reqs := w.jobs[jid].requirements;
    var pool := w.ports[p].pool;
    var heads := Heads(reqs, pool);
    && r.jobs == w.jobs && r.docks == w.docks && r.portOrder == w.portOrder && r.nextId == w.nextId
    && AssignedPersons(w.persons, r.persons, heads, jid, sid)
    && p in r.ports
    && r.ports == w.ports[p := w.ports[p].(pool := r.ports[p].pool)]
    && r.ports[p].pool.Keys == pool.Keys
    && (forall s :: s in pool ==> r.ports[p].pool[s] == if s in reqs then pool[s][1..] else pool[s])
    && r.ships == w.ships[sid := ShipRecord.AddWorkers(w.ships[sid], heads)]
  }

  /** The success branch of `requestWorkers`: assign the heads, then hand them to the ship. */
  function Grant(w: World, p: PortId, sid: ShipId, jid: JobId): (r: World)
    requires p in w.ports && sid in w.ships && jid in w.jobs && PoolShape(w, p)
    requires Feasible(w.jobs[jid].requirements, w.ports[p].totals)
    requires Available(w.jobs[jid].requirements, w.ports[p].pool)
  {
    var port := w.ports[p];
    var heads := Heads(w.jobs[jid].requirements, port.pool);
    HeadsKnown(w, p, w.jobs[jid].requirements);
    var (persons, pool) := AssignAll(w.persons, port.pool, heads, jid, sid);
    w.(persons := persons,
       ports := w.ports[p := port.(pool := pool)],
       ships := w.ships[sid := ShipRecord.AddWorkers(w.ships[sid], heads)])
  }

  lemma GrantIsGranted(w: World, p: PortId, sid: ShipId, jid: JobId)
    requires p in w.ports && sid in w.ships && jid in w.jobs && PoolShape(w, p)
    requires Feasible(w.jobs[jid].requirements, w.ports[p].totals)
    requires Available(w.jobs[jid].requirements, w.ports[p].pool)
    ensures Granted(w, Grant(w, p, sid, jid), p, sid, jid)
  {
    var reqs := w.jobs[jid].requirements;
    var pool := w.ports[p].pool;
    var heads := Heads(reqs, pool);
    HeadsKnown(w, p, reqs);
    var a := AssignAll(w.persons, pool, heads, jid, sid);
    var r := Grant(w, p, sid, jid);
    assert r.persons == a.0 && r.ports[p].pool == a.1;
    assert AssignedPersons(w.persons, a.0, heads, jid, sid) by {
      AssignAllPersons(w.persons, pool, heads, jid, sid);
    }
    assert forall s :: s in pool ==> a.1[s] == if s in reqs then pool[s][1..] else pool[s] by {
      GrantPools(w, p, sid, jid);
    }
  }

  lemma GrantPools(w: World, p: PortId, sid: ShipId, jid: JobId)
    requires p in w.ports && sid in w.ships && jid in w.jobs && PoolShape(w, p)
    requires Feasible(w.jobs[jid].requirements, w.ports[p].totals)
    requires Available(w.jobs[jid].requirements, w.ports[p].pool)
    ensures var reqs := w.jobs[jid].requirements; var pool := w.ports[p].pool;
      Assignable(w.persons, pool, Heads(reqs, pool)) &&
      var a := AssignAll(w.persons, pool, Heads(reqs, pool), jid, sid);
      forall s :: s in pool ==> a.1[s] == if s in reqs then pool[s][1..] else pool[s]
  {
    var reqs := w.jobs[jid].requirements;
    var pool := w.ports[p].pool;
    var heads := Heads(reqs, pool);
    HeadsKnown(w, p, reqs);
    forall s | s in pool ensures AssignAll(w.persons, pool, heads, jid, sid).1[s] == if s in reqs then pool[s][1..] else pool[s] {
      AssignAllPool(w.persons, pool, heads, jid, sid, s);
      GrantedList(w, p, reqs, s);
    }
  }

  /**
   * `requestWorkers(ship, job)` at port `p`. The boolean is the Java return
   * value: false means "wait and retry", true means the job may go on (it got
   * its workers, or it was cancelled as infeasible).
   */
  function RequestWorkers(w: World, p: PortId, sid: ShipId, jid: JobId): (r: (World, bool))
    requires p in w.ports && sid in w.ships && jid in w.jobs
    requires PoolShape(w, p)
    ensures var port := w.ports[p]; var reqs := w.jobs[jid].requirements;
      && (|port.pool| == 0 ==> r == (w, false))
      && (|port.pool| > 0 && !Feasible(reqs, port.totals) ==>
            r == (w.(jobs := w.jobs[jid := JobState.Cancel(w.jobs[jid])]), true))
      && (|port.pool| > 0 && Feasible(reqs, port.totals) && !Available(reqs, port.pool) ==> r == (w, false))
      && (|port.pool| > 0 && Feasible(reqs, port.totals) && Available(reqs, port.pool) ==>
            r.1 && Granted(w, r.0, p, sid, jid))
  {
    var port := w.ports[p];
    var reqs := w.jobs[jid].requirements;
    if |port.pool| == 0 then (w, false)
    else if !Feasible(reqs, port.totals) then
      (w.(jobs := w.jobs[jid := JobState.Cancel(w.jobs[jid])]), true)
    else if !Available(reqs, port.pool) then (w, false)
    else
      assert Granted(w, Grant(w, p, sid, jid), p, sid, jid) by { GrantIsGranted(w, p, sid, jid); }
      (Grant(w, p, sid, jid), true)
  }

  /** The list of skill `s` after the assignment loop: it lost its head exactly when `s` is required. */
  lemma GrantedList(w: World, p: PortId, reqs: seq<string>, s: string)
    requires p in w.ports && PoolShape(w, p)
    requires Feasible(reqs, w.ports[p].totals) && Available(reqs, w.ports[p].pool)
    requires s in w.ports[p].pool
    ensures Known(Heads(reqs, w.ports[p].pool), w.persons)
    ensures RemoveEach(w.ports[p].pool[s], WithSkill(Heads(reqs, w.ports[p].pool), w.persons, s))
            == if s in reqs then w.ports[p].pool[s][1..] else w.ports[p].pool[s]
  {
    var pool := w.ports[p].pool;
    var heads := Heads(reqs, pool);
    var l := pool[s];
    assert Known(heads, w.persons) by {
      forall i | 0 <= i < |heads| ensures heads[i] in w.persons {
        HeadSkill(w, p, reqs, i);
      }
    }
    var hs := WithSkill(heads, w.persons, s);
    assert forall h :: h in hs ==> |l| > 0 && h == l[0] by {
      forall h | h in hs ensures |l| > 0 && h == l[0] {
        WithSkillMember(heads, w.persons, s, h);
        var i :| 0 <= i < |heads| && heads[i] == h;
        HeadSkill(w, p, reqs, i);
      }
    }
    if s in reqs {
      var i :| 0 <= i < |reqs| && reqs[i] == s;
      HeadSkill(w, p, reqs, i);
      WithSkillMember(heads, w.persons, s, heads[i]);
      assert w.ports[p].pool[s] != [];
      RemoveEachHead(l, hs);
    } else {
      assert hs == [] by {
        if hs != [] {
          assert hs[0] in hs;
          WithSkillMember(heads, w.persons, s, hs[0]);
          var i :| 0 <= i < |heads| && heads[i] == hs[0];
          HeadSkill(w, p, reqs, i);
        }
      }
    }
  }

  /** Removing, any number of times, only the head of a distinct list drops exactly that head. */
  lemma {:induction false} RemoveEachHead(l: seq<PersonId>, xs: seq<PersonId>)
    requires Distinct(l) && |l| > 0
    requires forall h :: h in xs ==> h == l[0]
    ensures RemoveEach(l, xs) == if |xs| > 0 then l[1..] else l
  {
    if |xs| > 0 {
      assert xs[0] in xs;
      assert l[0] !in l[1..] by {
        forall k | 0 <= k < |l[1..]| ensures l[1..][k] != l[0] {
          assert l[1..][k] == l[k + 1];
        }
      }
      assert forall h :: h in xs[1..] ==> h !in l[1..] by {
        forall h | h in xs[1..] ensures h !in l[1..] {
          assert h in xs;
        }
      }
      assert RemoveFirst(l, xs[0]) == l[1..];
      RemoveEachAbsent(l[1..], xs[1..]);
    }
  }

  lemma {:induction false} RemoveEachAbsent(l: seq<PersonId>, xs: seq<PersonId>)
    requires forall h :: h in xs ==> h !in l
    ensures RemoveEach(l, xs) == l
    decreases |xs|
  {
    if |xs| > 0 {
      assert xs[0] in xs;
      assert forall h :: h in xs[1..] ==> h in xs;
      RemoveFirstAbsent(l, xs[0]);
      RemoveEachAbsent(l, xs[1..]);
    }
  }

  // ----- returnWorker -----------------------------------------------------

  /** `returnWorker(x)` at port `p`: `x` goes to the back of its skill's list and is back at the port with no job. */
  function ReturnWorker(w: World, p: PortId, x: PersonId): (r: World)
    requires p in w.ports && x in w.persons && w.persons[x].skill in w.ports[p].pool
    ensures p in r.ports && x in r.persons
    ensures var k := w.persons[x].skill;
      r.ports[p].pool == w.ports[p].pool[k := w.ports[p].pool[k] + [x]]
    ensures r.ports == w.ports[p := w.ports[p].(pool := r.ports[p].pool)]
    ensures Persons.IsAvailable(r.persons[x]) && r.persons[x].currentJob == None
    ensures r.persons[x].location == AtPort(p) && r.persons[x].skill == w.persons[x].skill
    ensures r.persons == w.persons[x := r.persons[x]]
    ensures r.ships == w.ships && r.jobs == w.jobs && r.docks == w.docks
  {
    var person := w.persons[x];
    var port := w.ports[p];
    w.(ports := w.ports[p := port.(pool := port.pool[person.skill := port.pool[person.skill] + [x]])],
       persons := w.persons[x := Persons.ClearJobAndReturn(person, p)])
  }

  /** Returning a busy person of the port keeps the conservation invariant. */
  lemma ReturnPreservesInv(w: World, p: PortId, x: PersonId)
    requires p in w.ports && PoolInv(w, p)
    requires x in w.ports[p].persons && x in w.persons && w.persons[x].currentJob != None
    requires w.persons[x].skill in w.ports[p].pool
    ensures PoolInv(ReturnWorker(w, p, x), p)
  {
    var r := ReturnWorker(w, p, x);
    var port' := r.ports[p];
    assert Known(port'.persons, r.persons);
    assert Shaped(port', r.persons) by { ReturnShaped(w, p, x); }
    assert forall s, y :: s in port'.pool && y in port'.pool[s] ==> y in port'.persons by {
      ReturnPooledAtPort(w, p, x);
    }
    assert forall s :: s in port'.totals ==> port'.totals[s] == |WithSkill(port'.persons, r.persons, s)| by {
      ReturnTotals(w, p, x);
    }
    assert forall y :: y in port'.persons && y in r.persons ==>
      (y in PoolOf(port'.pool, r.persons[y].skill) <==> r.persons[y].currentJob == None) by {
      ReturnIdleIff(w, p, x);
    }
  }

  lemma ReturnShaped(w: World, p: PortId, x: PersonId)
    requires p in w.ports && PoolInv(w, p)
    requires x in w.ports[p].persons && x in w.persons && w.persons[x].currentJob != None
    requires w.persons[x].skill in w.ports[p].pool
    ensures var r := ReturnWorker(w, p, x); Shaped(r.ports[p], r.persons)
  {
    var r := ReturnWorker(w, p, x);
    var port := w.ports[p];
    var port' := r.ports[p];
    var k := w.persons[x].skill;
    assert x !in port.pool[k];
    assert forall s :: s in port'.pool ==> Distinct(port'.pool[s]) by {
      forall s | s in port'.pool ensures Distinct(port'.pool[s]) {
        if s == k {
          assert Distinct(port.pool[k]);
        }
      }
    }
    assert forall s, y :: s in port'.pool && y in port'.pool[s] ==> y in r.persons && r.persons[y].skill == s by {
      forall s, y | s in port'.pool && y in port'.pool[s] ensures y in r.persons && r.persons[y].skill == s {
        if s != k || y != x {
          assert y in port.pool[s];
        }
      }
    }
  }

  lemma ReturnPooledAtPort(w: World, p: PortId, x: PersonId)
    requires p in w.ports && PoolInv(w, p)
    requires x in w.ports[p].persons && x in w.persons && w.persons[x].currentJob != None
    requires w.persons[x].skill in w.ports[p].pool
    ensures var r := ReturnWorker(w, p, x);
      forall s, y :: s in r.ports[p].pool && y in r.ports[p].pool[s] ==> y in r.ports[p].persons
  {
    var r := ReturnWorker(w, p, x);
    var k := w.persons[x].skill;
    forall s, y | s in r.ports[p].pool && y in r.ports[p].pool[s] ensures y in r.ports[p].persons {
      if s != k || y != x {
        assert y in w.ports[p].pool[s];
      }
    }
  }

  lemma ReturnTotals(w: World, p: PortId, x: PersonId)
    requires p in w.ports && PoolInv(w, p)
    requires x in w.ports[p].persons && x in w.persons && w.persons[x].currentJob != None
    requires w.persons[x].skill in w.ports[p].pool
    ensures var r := ReturnWorker(w, p, x);
      Known(r.ports[p].persons, r.persons) &&
      forall s :: s in r.ports[p].totals ==> r.ports[p].totals[s] == |WithSkill(r.ports[p].persons, r.persons, s)|
  {
    var r := ReturnWorker(w, p, x);
    assert forall y :: y in w.persons ==> r.persons[y].skill == w.persons[y].skill;
    forall s | s in r.ports[p].totals ensures r.ports[p].totals[s] == |WithSkill(r.ports[p].persons, r.persons, s)| {
      WithSkillSameSkills(w.ports[p].persons, w.persons, r.persons, s);
    }
  }

  lemma ReturnIdleIff(w: World, p: PortId, x: PersonId)
    requires p in w.ports && PoolInv(w, p)
    requires x in w.ports[p].persons && x in w.persons && w.persons[x].currentJob != None
    requires w.persons[x].skill in w.ports[p].pool
    ensures var r := ReturnWorker(w, p, x);
      forall y :: y in r.ports[p].persons && y in r.persons ==>
        (y in PoolOf(r.ports[p].pool, r.persons[y].skill) <==> r.persons[y].currentJob == None)
  {
    var r := ReturnWorker(w, p, x);
    forall y | y in r.ports[p].persons && y in r.persons
      ensures y in PoolOf(r.ports[p].pool, r.persons[y].skill) <==> r.persons[y].currentJob == None
    {
      if y != x {
        assert y in w.persons;
      }
    }
  }

  /** `returnWorker` has no guard: returning an idle pooled person lists it twice and breaks the pool's shape. */
  lemma DoubleReturnBreaksShape(w: World, p: PortId, x: PersonId)
    requires p in w.ports && x in w.persons
    requires w.persons[x].skill in w.ports[p].pool && x in w.ports[p].pool[w.persons[x].skill]
    ensures !PoolShape(ReturnWorker(w, p, x), p)
  {
    var r := ReturnWorker(w, p, x);
    var k := w.persons[x].skill;
    var l := w.ports[p].pool[k];
    var i :| 0 <= i < |l| && l[i] == x;
    assert r.ports[p].pool[k][i] == r.ports[p].pool[k][|l|] == x;
  }

  // ----- requestWorkers keeps the invariant ------------------------------

  /** A granted request keeps the conservation invariant of its port. */
  lemma GrantPreservesInv(w: World, r: World, p: PortId, sid: ShipId, jid: JobId)
    requires p in w.ports && sid in w.ships && jid in w.jobs && PoolInv(w, p)
    requires Feasible(w.jobs[jid].requirements, w.ports[p].totals)
    requires Available(w.jobs[jid].requirements, w.ports[p].pool)
    requires Granted(w, r, p, sid, jid)
    ensures PoolInv(r, p)
  {
    var port' := r.ports[p];
    assert Known(port'.persons, r.persons);
    assert Shaped(port', r.persons) by { GrantShaped(w, r, p, sid, jid); }
    assert forall s, y :: s in port'.pool && y in port'.pool[s] ==> y in port'.persons by {
      GrantPooledAtPort(w, r, p, sid, jid);
    }
    assert forall s :: s in port'.totals ==> port'.totals[s] == |WithSkill(port'.persons, r.persons, s)| by {
      GrantTotals(w, r, p, sid, jid);
    }
    assert forall y :: y in port'.persons && y in r.persons ==>
      (y in PoolOf(port'.pool, r.persons[y].skill) <==> r.persons[y].currentJob == None) by {
      forall y | y in port'.persons && y in r.persons
        ensures y in PoolOf(port'.pool, r.persons[y].skill) <==> r.persons[y].currentJob == None
      {
        GrantedMember(w, r, p, sid, jid, y);
      }
    }
  }

  lemma GrantShaped(w: World, r: World, p: PortId, sid: ShipId, jid: JobId)
    requires p in w.ports && sid in w.ships && jid in w.jobs && PoolInv(w, p)
    requires Feasible(w.jobs[jid].requirements, w.ports[p].totals)
    requires Available(w.jobs[jid].requirements, w.ports[p].pool)
    requires Granted(w, r, p, sid, jid)
    ensures p in r.ports && Shaped(r.ports[p], r.persons)
  {
    var reqs := w.jobs[jid].requirements;
    var port := w.ports[p];
    var port' := r.ports[p];
    assert forall s :: s in port'.pool ==> Distinct(port'.pool[s]) by {
      forall s | s in port'.pool ensures Distinct(port'.pool[s]) {
        if s in reqs {
          var i :| 0 <= i < |reqs| && reqs[i] == s;
          assert PoolOf(port.pool, reqs[i]) != [];
          TailDistinct(port.pool[s]);
        }
      }
    }
    assert forall s, y :: s in port'.pool && y in port'.pool[s] ==> y in r.persons && r.persons[y].skill == s by {
      forall s, y | s in port'.pool && y in port'.pool[s] ensures y in r.persons && r.persons[y].skill == s {
        GrantedListMember(w, r, p, sid, jid, s, y);
      }
    }
  }

  lemma GrantedListMember(w: World, r: World, p: PortId, sid: ShipId, jid: JobId, s: string, y: PersonId)
    requires p in w.ports && sid in w.ships && jid in w.jobs && PoolShape(w, p)
    requires Available(w.jobs[jid].requirements, w.ports[p].pool)
    requires Granted(w, r, p, sid, jid)
    requires s in r.ports[p].pool && y in r.ports[p].pool[s]
    ensures y in r.persons && r.persons[y].skill == s
  {
    var pool := w.ports[p].pool;
    assert s in pool;
    assert y in pool[s];
    PooledSkill(w.ports[p], w.persons, s, y);
    assert r.persons[y].skill == w.persons[y].skill;
  }

  lemma GrantPooledAtPort(w: World, r: World, p: PortId, sid: ShipId, jid: JobId)
    requires p in w.ports && sid in w.ships && jid in w.jobs && PoolInv(w, p)
    requires Feasible(w.jobs[jid].requirements, w.ports[p].totals)
    requires Available(w.jobs[jid].requirements, w.ports[p].pool)
    requires Granted(w, r, p, sid, jid)
    ensures p in r.ports
    ensures forall s, y :: s in r.ports[p].pool && y in r.ports[p].pool[s] ==> y in r.ports[p].persons
  {
    var port := w.ports[p];
    var port' := r.ports[p];
    forall s, y | s in port'.pool && y in port'.pool[s] ensures y in port'.persons {
      assert y in port.pool[s];
    }
  }

  lemma GrantTotals(w: World, r: World, p: PortId, sid: ShipId, jid: JobId)
    requires p in w.ports && sid in w.ships && jid in w.jobs && PoolInv(w, p)
    requires Feasible(w.jobs[jid].requirements, w.ports[p].totals)
    requires Available(w.jobs[jid].requirements, w.ports[p].pool)
    requires Granted(w, r, p, sid, jid)
    ensures p in r.ports && Known(r.ports[p].persons, r.persons)
    ensures forall s :: s in r.ports[p].totals ==> r.ports[p].totals[s] == |WithSkill(r.ports[p].persons, r.persons, s)|
  {
    var port := w.ports[p];
    var port' := r.ports[p];
    assert forall y :: y in w.persons ==> r.persons[y].skill == w.persons[y].skill;
    forall s | s in port'.totals ensures port'.totals[s] == |WithSkill(port'.persons, r.persons, s)| {
      WithSkillSameSkills(port.persons, w.persons, r.persons, s);
    }
  }

  lemma TailDistinct<T>(l: seq<T>)
    requires Distinct(l) && |l| > 0
    ensures Distinct(l[1..]) && l[0] !in l[1..]
  {
    forall k | 0 <= k < |l[1..]| ensures l[1..][k] != l[0] {
      assert l[1..][k] == l[k + 1];
    }
  }

  lemma TailMember<T>(l: seq<T>, y: T)
    requires |l| > 0 && y != l[0]
    ensures y in l[1..] <==> y in l
  {
    assert l == [l[0]] + l[1..];
  }

  /** One person of the port after a granted request: pooled exactly when idle. */
  lemma GrantedMember(w: World, r: World, p: PortId, sid: ShipId, jid: JobId, y: PersonId)
    requires p in w.ports && sid in w.ships && jid in w.jobs && PoolInv(w, p)
    requires Feasible(w.jobs[jid].requirements, w.ports[p].totals)
    requires Available(w.jobs[jid].requirements, w.ports[p].pool)
    requires Granted(w, r, p, sid, jid)
    requires y in w.ports[p].persons && y in w.persons
    ensures y in r.persons
    ensures y in PoolOf(r.ports[p].pool, r.persons[y].skill) <==> r.persons[y].currentJob == None
  {
    var reqs := w.jobs[jid].requirements;
    var pool := w.ports[p].pool;
    var pool' := r.ports[p].pool;
    var heads := Heads(reqs, pool);
    var k := w.persons[y].skill;
    assert r.persons[y].skill == k;
    assert y in PoolOf(pool, k) <==> w.persons[y].currentJob == None;
    if y in heads {
      var i :| 0 <= i < |heads| && heads[i] == y;
      HeadSkill(w, p, reqs, i);
      assert reqs[i] == k && k in reqs;
      TailDistinct(pool[k]);
      assert pool'[k] == pool[k][1..];
      assert r.persons[y].currentJob == Some(jid);
    } else {
      assert r.persons[y] == w.persons[y];
      if k in pool && k in reqs {
        var i :| 0 <= i < |reqs| && reqs[i] == k;
        HeadSkill(w, p, reqs, i);
        assert pool[k][0] == heads[i] != y;
        assert pool'[k] == pool[k][1..];
        TailMember(pool[k], y);
      }
    }
  }

  /** `requestWorkers` keeps the conservation invariant, whichever way it ends; totals never change. */
  lemma RequestPreservesInv(w: World, p: PortId, sid: ShipId, jid: JobId)
    requires p in w.ports && sid in w.ships && jid in w.jobs && PoolInv(w, p)
    ensures var r := RequestWorkers(w, p, sid, jid).0;
      p in r.ports && PoolInv(r, p) && r.ports[p].totals == w.ports[p].totals
  {
    var port := w.ports[p];
    var reqs := w.jobs[jid].requirements;
    if |port.pool| > 0 && Feasible(reqs, port.totals) && Available(reqs, port.pool) {
      GrantPreservesInv(w, RequestWorkers(w, p, sid, jid).0, p, sid, jid);
    }
  }

  // ----- documented behaviour of requestWorkers ----------------------------

  /** A port that has no persons builds an empty pool, so every request there waits and changes nothing, even one that could never be met. */
  lemma NoPersonsWaitForever(w: World, p: PortId, sid: ShipId, jid: JobId)
    requires p in w.ports && sid in w.ships && jid in w.jobs
    requires w.ports[p].persons == [] && w.ports[p].pool == map[] && w.ports[p].totals == map[]
    ensures var w' := w.(ports := w.ports[p := BuildResourceMap(w.ports[p], w.persons)]);
      p in w'.ports && RequestWorkers(w', p, sid, jid) == (w', false)
  {
    NoPersonsNoPool(w.ports[p], w.persons);
  }

  /** A requirement list naming one skill twice takes that skill's head once: one person is assigned, listed twice on the ship. */
  lemma RepeatedSkillTakesOne(w: World, p: PortId, sid: ShipId, jid: JobId, k: string)
    requires p in w.ports && sid in w.ships && jid in w.jobs && PoolShape(w, p)
    requires w.jobs[jid].requirements == [k, k]
    requires TotalOf(w.ports[p].totals, k) >= 2 && PoolOf(w.ports[p].pool, k) != []
    ensures var r := RequestWorkers(w, p, sid, jid); var h := w.ports[p].pool[k][0];
      && r.1
      && r.0.ports[p].pool[k] == w.ports[p].pool[k][1..]
      && r.0.ships[sid].currentWorkers == w.ships[sid].currentWorkers + [h, h]
      && (forall y :: y in w.persons && y != h ==> r.0.persons[y] == w.persons[y])
  {
    var reqs := [k, k];
    assert multiset(reqs)[k] == 2;
    assert Feasible(reqs, w.ports[p].totals);
    assert Available(reqs, w.ports[p].pool);
    var heads := Heads(reqs, w.ports[p].pool);
    assert heads == [w.ports[p].pool[k][0], w.ports[p].pool[k][0]];
    assert k in reqs;
  }
}
