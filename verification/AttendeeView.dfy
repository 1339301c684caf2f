/** What attendees get to see of a calendar, as attendeesView of twistedcaldav/ical.py cuts it
    down: the components in which all of them take part. */
module AttendeeView {

  import opened Collections
  import opened Recurrence

  type Address = string

  /** A component of a calendar: the master if it has no RECURRENCE-ID, or else an override.
      `attendees` gives the SCHEDULE-AGENT of each attendee that has one. */
  datatype Part = Part(id: nat, rid: Option<int>, attendees: map<Address, Option<string>>, master: Master)

  /** At most one master, at most one override of an instance, and no part twice. */
  ghost predicate Proper(ps: seq<Part>) {
    && (forall i, j :: 0 <= i < j < |ps| ==> ps[i].id != ps[j].id && ps[i].rid != ps[j].rid)
    && forall i :: 0 <= i < |ps| ==> ValidMaster(ps[i].master)
  }

  predicate TakesPart(p: Part, a: Address, onlyServer: bool) {
    && a in p.attendees
    && (onlyServer && p.attendees[a].Some? ==> p.attendees[a].value == "SERVER")
  }

  predicate AllTakePart(p: Part, attendees: seq<Address>, onlyServer: bool) {
    forall a :: a in attendees ==> TakesPart(p, a, onlyServer)
  }

  ghost predicate Overridden(ps: seq<Part>, t: int) {
    exists i :: 0 <= i < |ps| && ps[i].rid == Some(t)
  }

  /** The instance at `t` is the part's: the override for it, or the master. */
  ghost predicate ShownBy(ps: seq<Part>, t: int, p: Part)
    requires ValidMaster(p.master)
  {
    p.rid == Some(t) || (p.rid.None? && InSet(p.master, t) && !Overridden(ps, t))
  }

  ghost predicate Shows(ps: seq<Part>, t: int, id: nat)
    requires Proper(ps)
  {
    exists i :: 0 <= i < |ps| && ps[i].id == id && ShownBy(ps, t, ps[i])
  }

  // ----- The view as a function -----

  function WithoutIds(ps: seq<Part>, ids: set<nat>): (r: seq<Part>)
    ensures forall p :: p in r <==> p in ps && p.id !in ids
  {
    if ps == [] then []
    else WithoutIds(ps[..|ps| - 1], ids) + if ps[|ps| - 1].id in ids then [] else [ps[|ps| - 1]]
  }

  function Unwanted(ps: seq<Part>, attendees: seq<Address>, onlyServer: bool): set<nat> {
    set i | 0 <= i < |ps| && !AllTakePart(ps[i], attendees, onlyServer) :: ps[i].id
  }

  /** The instances whose overrides are unwanted. */
  function Dropped(ps: seq<Part>, attendees: seq<Address>, onlyServer: bool): (ts: seq<int>)
    ensures forall t :: t in ts <==>
      exists i :: 0 <= i < |ps| && ps[i].rid == Some(t) && !AllTakePart(ps[i], attendees, onlyServer)
  {
    if ps == [] then []
    else
      var front, p := ps[..|ps| - 1], ps[|ps| - 1];
      Dropped(front, attendees, onlyServer) +
      if p.rid.Some? && !AllTakePart(p, attendees, onlyServer) then [p.rid.value] else []
  }

  /** Each of the instances as an EXDATE property of its own. */
  function Properties(ts: seq<int>): (es: seq<seq<int>>)
    ensures |es| == |ts| && forall i :: 0 <= i < |ts| ==> es[i] == [ts[i]]
  {
    seq(|ts|, i requires 0 <= i < |ts| => [ts[i]])
  }

  function Excluding(p: Part, ts: seq<int>): Part {
    if p.rid.None? then p.(master := p.master.(exdates := p.master.exdates + Properties(ts))) else p
  }

  function AllExcluding(ps: seq<Part>, ts: seq<int>): (r: seq<Part>)
    ensures |r| == |ps| && forall i :: 0 <= i < |ps| ==> r[i] == Excluding(ps[i], ts)
  {
    seq(|ps|, i requires 0 <= i < |ps| => Excluding(ps[i], ts))
  }

  function View(ps: seq<Part>, attendees: seq<Address>, onlyServer: bool): seq<Part> {
    AllExcluding(WithoutIds(ps, Unwanted(ps, attendees, onlyServer)), Dropped(ps, attendees, onlyServer))
  }

  lemma ExcludedInstances(p: Part, ts: seq<int>, t: int)
    requires ValidMaster(p.master) && p.rid.None?
    ensures ValidMaster(Excluding(p, ts).master)
    ensures InSet(Excluding(p, ts).master, t) <==> InSet(p.master, t) && t !in ts
  {
    ExcludedDates(p, ts, t);
  }

  lemma ExcludedDates(p: Part, ts: seq<int>, t: int)
    ensures p.rid.None? ==> (Listed(Excluding(p, ts).master.exdates, t) <==> Listed(p.master.exdates, t) || t in ts)
    ensures Excluding(p, ts) == p.(master := p.master.(exdates := Excluding(p, ts).master.exdates))
    ensures p.rid.Some? ==> Excluding(p, ts) == p
  {
    var m, n := p.master, Excluding(p, ts).master;
    if Listed(n.exdates, t) {
      var e :| e in n.exdates && t in e;
      assert e in m.exdates || e in Properties(ts);
    }
    if p.rid.None? && t in ts {
      var i :| 0 <= i < |ts| && ts[i] == t;
      assert Properties(ts)[i] in n.exdates;
    }
    if Listed(m.exdates, t) {
      var e :| e in m.exdates && t in e;
      assert e in n.exdates;
    }
  }

  lemma {:induction false} WithoutIdsDistinct(ps: seq<Part>, ids: set<nat>)
    requires Proper(ps)
    ensures Proper(WithoutIds(ps, ids))
  {
    if ps != [] {
      var front := ps[..|ps| - 1];
      WithoutIdsDistinct(front, ids);
      var kept := WithoutIds(front, ids);
      forall i | 0 <= i < |kept|
        ensures kept[i].id != ps[|ps| - 1].id && kept[i].rid != ps[|ps| - 1].rid && ValidMaster(kept[i].master)
      {
        assert kept[i] in front;
      }
    }
  }

  lemma ViewIsProper(ps: seq<Part>, attendees: seq<Address>, onlyServer: bool)
    requires Proper(ps)
    ensures Proper(View(ps, attendees, onlyServer))
  {
    WithoutIdsDistinct(ps, Unwanted(ps, attendees, onlyServer));
  }

  /** The parts of the view are the wanted parts, the master without the dropped instances. */
  lemma ViewParts(ps: seq<Part>, attendees: seq<Address>, onlyServer: bool, p: Part)
    requires Proper(ps)
    ensures p in View(ps, attendees, onlyServer) <==>
      exists i :: 0 <= i < |ps| && AllTakePart(ps[i], attendees, onlyServer) &&
        p == Excluding(ps[i], Dropped(ps, attendees, onlyServer))
  {
    hide AllTakePart, Excluding, Dropped;
    var ids, ts := Unwanted(ps, attendees, onlyServer), Dropped(ps, attendees, onlyServer);
    var kept := WithoutIds(ps, ids);
    var view := AllExcluding(kept, ts);
    if p in view {
      var j :| 0 <= j < |view| && view[j] == p;
      assert kept[j] in kept;
      var i :| 0 <= i < |ps| && ps[i] == kept[j];
      assert AllTakePart(ps[i], attendees, onlyServer);
    }
    if i :| 0 <= i < |ps| && AllTakePart(ps[i], attendees, onlyServer) && p == Excluding(ps[i], ts) {
      assert ps[i].id !in ids by {
        assert forall k :: 0 <= k < |ps| && ps[k].id == ps[i].id ==> k == i;
      }
      assert ps[i] in kept;
      var j :| 0 <= j < |kept| && kept[j] == ps[i];
      assert view[j] == p;
    }
  }

  lemma ShownKept(ps: seq<Part>, attendees: seq<Address>, onlyServer: bool, t: int, i: nat)
    requires Proper(ps) && i < |ps| && AllTakePart(ps[i], attendees, onlyServer)
    ensures var view, p := View(ps, attendees, onlyServer), Excluding(ps[i], Dropped(ps, attendees, onlyServer));
      ValidMaster(p.master) && (ShownBy(view, t, p) <==> ShownBy(ps, t, ps[i]))
  {
    hide AllTakePart, View;
    var view, ts := View(ps, attendees, onlyServer), Dropped(ps, attendees, onlyServer);
    var p := Excluding(ps[i], ts);
    if p.rid.None? {
      ExcludedInstances(ps[i], ts, t);
      if Overridden(view, t) {
        var j :| 0 <= j < |view| && view[j].rid == Some(t);
        ViewParts(ps, attendees, onlyServer, view[j]);
      }
      if Overridden(ps, t) && t !in ts {
        var k :| 0 <= k < |ps| && ps[k].rid == Some(t);
        ViewParts(ps, attendees, onlyServer, ps[k]);
        assert Excluding(ps[k], ts) == ps[k];
        assert ps[k] in view;
        var j :| 0 <= j < |view| && view[j] == ps[k];
        assert Overridden(view, t);
      }
    }
  }

  lemma AgentsDecide(p: Part, attendees: seq<Address>, onlyServer: bool)
    ensures AllTakePart(p, attendees, onlyServer) <==>
      forall a :: a in attendees ==> a in p.attendees && (onlyServer ==> p.attendees[a] in {None, Some("SERVER")})
  {
  }

  /** What stays is as it was, but for further EXDATEs of the master: exactly the instances whose
      overrides were cut away. */
  lemma ViewKeepsParts(ps: seq<Part>, attendees: seq<Address>, onlyServer: bool, p: Part)
    requires Proper(ps) && p in View(ps, attendees, onlyServer)
    ensures exists i :: 0 <= i < |ps| && ps[i].id == p.id && ps[i].rid == p.rid &&
              p == ps[i].(master := ps[i].master.(exdates := p.master.exdates)) &&
              (p.rid.Some? ==> p == ps[i]) &&
              forall t :: p.rid.None? ==>
                (Listed(p.master.exdates, t) <==>
                  Listed(ps[i].master.exdates, t) || t in Dropped(ps, attendees, onlyServer))
  {
    hide AllTakePart, Dropped, View;
    ViewParts(ps, attendees, onlyServer, p);
    var ts := Dropped(ps, attendees, onlyServer);
    var i :| 0 <= i < |ps| && AllTakePart(ps[i], attendees, onlyServer) && p == Excluding(ps[i], ts);
    forall t { ExcludedDates(ps[i], ts, t); }
  }

  /** The view shows exactly the instances in which all the attendees take part, each as the
      same component as before. In particular, no instance whose override was cut away comes
      back as the master's. */
  lemma ViewShowsExactly(ps: seq<Part>, attendees: seq<Address>, onlyServer: bool, t: int, i: nat)
    requires Proper(ps) && i < |ps|
    ensures Proper(View(ps, attendees, onlyServer))
    ensures Shows(View(ps, attendees, onlyServer), t, ps[i].id) <==>
      && Shows(ps, t, ps[i].id)
      && forall a :: a in attendees ==>
           a in ps[i].attendees && (onlyServer ==> ps[i].attendees[a] in {None, Some("SERVER")})
  {
    hide AllTakePart, View, ShownBy;
    AgentsDecide(ps[i], attendees, onlyServer);
    var view, ts := View(ps, attendees, onlyServer), Dropped(ps, attendees, onlyServer);
    ViewIsProper(ps, attendees, onlyServer);
    if Shows(view, t, ps[i].id) {
      var j :| 0 <= j < |view| && view[j].id == ps[i].id && ShownBy(view, t, view[j]);
      ViewParts(ps, attendees, onlyServer, view[j]);
      var k :| 0 <= k < |ps| && AllTakePart(ps[k], attendees, onlyServer) && view[j] == Excluding(ps[k], ts);
      assert k == i;
      ShownKept(ps, attendees, onlyServer, t, i);
    }
    if Shows(ps, t, ps[i].id) && AllTakePart(ps[i], attendees, onlyServer) {
      var k :| 0 <= k < |ps| && ps[k].id == ps[i].id && ShownBy(ps, t, ps[k]);
      assert k == i;
      ShownKept(ps, attendees, onlyServer, t, i);
      ViewParts(ps, attendees, onlyServer, Excluding(ps[i], ts));
      var j :| 0 <= j < |view| && view[j] == Excluding(ps[i], ts);
      assert view[j].id == ps[i].id && ShownBy(view, t, view[j]);
    }
  }

  // ----- The calendar -----

  function IdsOf(ps: seq<Part>): set<nat> {
    set p | p in ps :: p.id
  }

  function RidsOf(ps: seq<Part>): seq<int> {
    if ps == [] then []
    else RidsOf(ps[..|ps| - 1]) + if ps[|ps| - 1].rid.Some? then [ps[|ps| - 1].rid.value] else []
  }

  lemma NothingYet(ps: seq<Part>, attendees: seq<Address>, onlyServer: bool)
    ensures IdsOf([]) == {} == Unwanted(ps[..0], attendees, onlyServer)
    ensures RidsOf([]) == [] == Dropped(ps[..0], attendees, onlyServer)
    ensures WithoutIds(ps, {}) == ps
  {
    KeepingAll(ps);
  }

  lemma {:induction false} KeepingAll(ps: seq<Part>)
    ensures WithoutIds(ps, {}) == ps
  {
    if ps != [] {
      var front := ps[..|ps| - 1];
      KeepingAll(front);
      assert ps == front + [ps[|ps| - 1]];
    }
  }

  lemma OneMorePart(ps: seq<Part>, i: nat, attendees: seq<Address>, onlyServer: bool)
    requires i < |ps|
    ensures var wanted := AllTakePart(ps[i], attendees, onlyServer);
      && Unwanted(ps[..i + 1], attendees, onlyServer) ==
         Unwanted(ps[..i], attendees, onlyServer) + (if wanted then {} else {ps[i].id})
      && Dropped(ps[..i + 1], attendees, onlyServer) ==
         Dropped(ps[..i], attendees, onlyServer) + (if !wanted && ps[i].rid.Some? then [ps[i].rid.value] else [])
  {
    hide AllTakePart;
    assert ps[..i + 1][..i] == ps[..i];
    assert ps[..i + 1][i] == ps[i];
    assert forall k :: 0 <= k < i ==> ps[..i + 1][k] == ps[..i][k];
  }

  lemma OneMoreRemoved(ps: seq<Part>, p: Part)
    ensures IdsOf(ps + [p]) == IdsOf(ps) + {p.id}
    ensures RidsOf(ps + [p]) == RidsOf(ps) + if p.rid.Some? then [p.rid.value] else []
  {
    assert (ps + [p])[..|ps|] == ps;
    assert forall q :: q in ps + [p] <==> q in ps || q == p;
  }

  lemma WithoutOneMore(ps: seq<Part>, p: Part, ids: set<nat>)
    ensures WithoutIds(ps + [p], ids) == if p.id in ids then WithoutIds(ps, ids) else WithoutIds(ps, ids) + [p]
  {
    assert (ps + [p])[..|ps|] == ps;
  }

  lemma {:induction false} WithoutTwice(ps: seq<Part>, ids: set<nat>, id: nat)
    ensures WithoutIds(WithoutIds(ps, ids), {id}) == WithoutIds(ps, ids + {id})
  {
    if ps != [] {
      var front, p := ps[..|ps| - 1], ps[|ps| - 1];
      assert ps == front + [p];
      WithoutTwice(front, ids, id);
      hide WithoutIds;
      WithoutOneMore(front, p, ids);
      WithoutOneMore(front, p, ids + {id});
      WithoutOneMore(WithoutIds(front, ids), p, {id});
    }
  }

  lemma ExcludingTwice(ps: seq<Part>, ts: seq<int>, t: int)
    ensures AllExcluding(AllExcluding(ps, ts), [t]) == AllExcluding(ps, ts + [t])
  {
    forall i | 0 <= i < |ps|
      ensures Excluding(Excluding(ps[i], ts), [t]) == Excluding(ps[i], ts + [t])
    {
      assert Properties(ts + [t]) == Properties(ts) + Properties([t]);
      var es := ps[i].master.exdates;
      assert es + Properties(ts) + Properties([t]) == es + (Properties(ts) + Properties([t]));
    }
  }

  lemma ExcludingNothing(ps: seq<Part>)
    ensures AllExcluding(ps, []) == ps
  {
    assert forall i :: 0 <= i < |ps| ==> Excluding(ps[i], []) == ps[i] by {
      assert Properties([]) == [];
    }
  }

  /** Where no master is kept there is nothing to exclude from. */
  lemma NoMasterKept(ps: seq<Part>, attendees: seq<Address>, onlyServer: bool, master: bool)
    requires Proper(ps)
    requires !master ==> forall k :: 0 <= k < |ps| ==> ps[k].rid.Some?
    requires master ==> exists k :: 0 <= k < |ps| && ps[k].rid.None? && !AllTakePart(ps[k], attendees, onlyServer)
    ensures View(ps, attendees, onlyServer) == WithoutIds(ps, Unwanted(ps, attendees, onlyServer))
  {
    hide AllTakePart, Dropped, Unwanted, WithoutIds;
    var kept := WithoutIds(ps, Unwanted(ps, attendees, onlyServer));
    forall j | 0 <= j < |kept|
      ensures kept[j].rid.Some?
    {
      assert kept[j] in kept;
      var k :| 0 <= k < |ps| && ps[k] == kept[j];
      UnwantedRemoved(ps, attendees, onlyServer, k);
      assert forall m :: 0 <= m < |ps| && ps[m].rid == ps[k].rid ==> m == k;
    }
    NothingToExclude(kept, Dropped(ps, attendees, onlyServer));
  }

  lemma UnwantedRemoved(ps: seq<Part>, attendees: seq<Address>, onlyServer: bool, k: nat)
    requires k < |ps| && ps[k] in WithoutIds(ps, Unwanted(ps, attendees, onlyServer))
    ensures AllTakePart(ps[k], attendees, onlyServer)
  {
    hide AllTakePart;
  }

  lemma NothingToExclude(ps: seq<Part>, ts: seq<int>)
    requires forall j :: 0 <= j < |ps| ==> ps[j].rid.Some?
    ensures AllExcluding(ps, ts) == ps
  {
  }


  class Component {
    var subcomponents: seq<Part>

    constructor (subcomponents: seq<Part>)
      ensures this.subcomponents == subcomponents
    {
      this.subcomponents := subcomponents;
    }

    /** Whether all the attendees are found; the search ends with the first who is not. */
    method FindAll(p: Part, attendees: seq<Address>, onlyServer: bool) returns (found: bool)
      ensures found == AllTakePart(p, attendees, onlyServer)
      ensures found <==>
        forall a :: a in attendees ==> a in p.attendees && (onlyServer ==> p.attendees[a] in {None, Some("SERVER")})
    {
      for k := 0 to |attendees|
        invariant forall a :: a in attendees[..k] ==> TakesPart(p, a, onlyServer)
      {
        var a := attendees[k];
        assert a in attendees;
        if a !in p.attendees {
          return false;
        }
        if onlyServer && p.attendees[a].Some? && p.attendees[a].value != "SERVER" {
          assert !TakesPart(p, a, onlyServer);
          return false;
        }
        assert attendees[..k + 1] == attendees[..k] + [a];
      }
      assert attendees[..|attendees|] == attendees;
      return true;
    }

    method RemoveComponent(id: nat)
      modifies this
      ensures subcomponents == WithoutIds(old(subcomponents), {id})
    {
      subcomponents := WithoutIds(subcomponents, {id});
    }

    method AddExdate(t: int)
      modifies this
      ensures subcomponents == AllExcluding(old(subcomponents), [t])
    {
      subcomponents := AllExcluding(subcomponents, [t]);
    }

    /** Unwanted components are noted, then removed; what was removed is then excluded from
        the master, if that is still there. */
    method AttendeesView(attendees: seq<Address>, onlyServer: bool)
      requires Proper(subcomponents)
      modifies this
      ensures subcomponents == View(old(subcomponents), attendees, onlyServer)
    {
      hide AllTakePart, WithoutIds, AllExcluding, Unwanted, Dropped, IdsOf, RidsOf;
      ghost var ps := subcomponents;
      var remove: seq<Part> := [];
      var master, removedMaster := false, false;
      NothingYet(ps, attendees, onlyServer);
      for i := 0 to |subcomponents|
        invariant subcomponents == ps
        invariant IdsOf(remove) == Unwanted(ps[..i], attendees, onlyServer)
        invariant RidsOf(remove) == Dropped(ps[..i], attendees, onlyServer)
        invariant !master ==> forall k :: 0 <= k < i ==> ps[k].rid.Some?
        invariant removedMaster ==>
                    exists k :: 0 <= k < i && ps[k].rid.None? && !AllTakePart(ps[k], attendees, onlyServer)
      {
        var p := subcomponents[i];
        OneMorePart(ps, i, attendees, onlyServer);
        OneMoreRemoved(remove, p);
        var found := FindAll(p, attendees, onlyServer);
        if !found {
          remove := remove + [p];
        }
        if p.rid.None? {
          master := true;
          if !found {
            removedMaster := true;
          }
        }
      }
      assert ps[..|ps|] == ps;
      var exdates: seq<int> := [];
      for k := 0 to |remove|
        invariant subcomponents == WithoutIds(ps, IdsOf(remove[..k]))
        invariant exdates == RidsOf(remove[..k])
      {
        OneMoreRemoved(remove[..k], remove[k]);
        assert remove[..k + 1] == remove[..k] + [remove[k]];
        WithoutTwice(ps, IdsOf(remove[..k]), remove[k].id);
        if remove[k].rid.Some? {
          exdates := exdates + [remove[k].rid.value];
        }
        RemoveComponent(remove[k].id);
      }
      assert remove[..|remove|] == remove;
      ghost var kept := subcomponents;
      ExcludingNothing(kept);
      if master && !removedMaster {
        for k := 0 to |exdates|
          invariant subcomponents == AllExcluding(kept, exdates[..k])
        {
          ExcludingTwice(kept, exdates[..k], exdates[k]);
          assert exdates[..k + 1] == exdates[..k] + [exdates[k]];
          AddExdate(exdates[k]);
        }
        assert exdates[..|exdates|] == exdates;
      } else {
        NoMasterKept(ps, attendees, onlyServer, master);
      }
    }
  }
}
