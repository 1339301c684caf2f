/** Reconciling the ATTENDEE properties of a component with the members of its groups, as
    _reconcileGroupAttendee and reconcileGroupAttendees of twistedcaldav/ical.py do. */
module GroupAttendees {

  import opened Collections

  type Address = string

  /** An ATTENDEE property: its calendar user address, the values of its MEMBER parameter, if
      it has one, and everything else it says (PARTSTAT and the other parameters). */
  datatype Attendee = Attendee(cua: Address, member: Option<seq<Address>>, other: nat)

  /** A group with an attendee property for each of its members. */
  datatype Entry = Entry(group: Address, members: seq<Attendee>)

  // ----- One address -----

  function Find(ps: seq<Attendee>, c: Address): (o: Option<Attendee>)
    ensures o.Some? ==> o.value in ps && o.value.cua == c
    ensures o.None? ==> forall a :: a in ps ==> a.cua != c
  {
    if ps == [] then None else if ps[0].cua == c then Some(ps[0]) else Find(ps[1..], c)
  }

  predicate Has(e: Entry, c: Address) {
    Find(e.members, c).Some?
  }

  /** An attendee after its component has been reconciled with group `g`. */
  function Update(a: Attendee, g: Address, isMember: bool): Option<Attendee> {
    if a.member.None? then Some(a)
    else if g in a.member.value then
      if isMember then Some(a)
      else
        var rest := RemoveFirst(a.member.value, g);
        if rest == [] then None else Some(a.(member := Some(rest)))
    else if isMember then Some(a.(member := Some(a.member.value + [g])))
    else Some(a)
  }

  /** What is at address `c` after the component has been reconciled with one group. */
  function Step(o: Option<Attendee>, e: Entry, c: Address): Option<Attendee> {
    match o
    case None => Find(e.members, c)
    case Some(a) => Update(a, e.group, Has(e, c))
  }

  function StepAll(o: Option<Attendee>, es: seq<Entry>, c: Address): Option<Attendee> {
    if es == [] then o else Step(StepAll(o, es[..|es| - 1], c), es[|es| - 1], c)
  }

  function Without(s: seq<Address>, keep: set<Address>): (r: seq<Address>)
    ensures forall g :: g in r <==> g in s && g in keep
  {
    if s == [] then [] else (if s[0] in keep then [s[0]] else []) + Without(s[1..], keep)
  }

  /** The last stage: MEMBER values of groups that are not in use go, and with them attendees
      that are in no group. */
  function Clean(o: Option<Attendee>, inAny: bool, used: set<Address>): Option<Attendee> {
    if o.None? || o.value.member.None? then o
    else if !inAny then None
    else
      var kept := Without(o.value.member.value, used);
      if kept == [] && o.value.member.value != [] then None else Some(o.value.(member := Some(kept)))
  }

  function Used(es: seq<Entry>): (s: set<Address>) {
    set e | e in es && e.members != [] :: e.group
  }

  predicate InAny(es: seq<Entry>, c: Address) {
    exists e :: e in es && Has(e, c)
  }

  // ----- The assumptions -----

  ghost predicate OnePerAddress(ps: seq<Attendee>) {
    forall i, j :: 0 <= i < j < |ps| ==> ps[i].cua != ps[j].cua
  }

  ghost predicate DistinctGroups(es: seq<Entry>) {
    forall i, j :: 0 <= i < j < |es| ==> es[i].group != es[j].group
  }

  /** Distinct groups; each member's property is in the list once and names its group alone. */
  ghost predicate ValidGroups(es: seq<Entry>) {
    && DistinctGroups(es)
    && (forall e, a :: e in es && a in e.members ==> a.member == Some([e.group]))
    && (forall e :: e in es ==> OnePerAddress(e.members))
  }

  /** A MEMBER parameter has values, and no value twice. */
  ghost predicate ValidMember(o: Option<Attendee>) {
    o.Some? && o.value.member.Some? ==> o.value.member.value != [] && NoDuplicates(o.value.member.value)
  }

  // ----- What the groups say of an address -----

  function Groups(es: seq<Entry>): (s: set<Address>) {
    set e | e in es :: e.group
  }

  /** The groups that contain `c`. */
  function Containing(es: seq<Entry>, c: Address): (s: set<Address>)
    ensures s <= Groups(es)
  {
    set e | e in es && Has(e, c) :: e.group
  }

  ghost function MemberSet(o: Option<Attendee>): set<Address> {
    if o.Some? && o.value.member.Some? then set g | g in o.value.member.value else {}
  }

  ghost predicate Plain(o: Option<Attendee>) {
    o.Some? && o.value.member.None?
  }

  /** One group: MEMBER loses or gains exactly that group, and an attendee with a MEMBER is
      there if and only if the MEMBER is not empty. */
  lemma StepMembers(o: Option<Attendee>, e: Entry, c: Address)
    requires ValidMember(o) && !Plain(o)
    requires forall a :: a in e.members ==> a.member == Some([e.group])
    ensures var r := Step(o, e, c);
            && !Plain(r) && ValidMember(r)
            && MemberSet(r) == MemberSet(o) - {e.group} + (if Has(e, c) then {e.group} else {})
            && (o.Some? && r.Some? ==> r.value.other == o.value.other)
            && (r.None? <==> MemberSet(r) == {})
  {
    var r := Step(o, e, c);
    if o.Some? {
      var member := o.value.member.value;
      RemoveFirstOfDistinct(member, e.group);
      assert MemberSet(o) - {e.group} == set g | g in RemoveFirst(member, e.group);
      if e.group !in member {
        assert MemberSet(o) - {e.group} == MemberSet(o);
        assert forall g :: g in member + [e.group] <==> g in member || g == e.group;
      }
    }
    if r.Some? {
      assert r.value.member.value[0] in MemberSet(r);
    }
  }

  /** What MEMBER is after the groups `es` have been dealt with. */
  ghost function MembersAfter(o: Option<Attendee>, es: seq<Entry>, c: Address): set<Address> {
    MemberSet(o) - Groups(es) + Containing(es, c)
  }

  lemma GroupsAppend(es: seq<Entry>, e: Entry, c: Address)
    ensures Groups(es + [e]) == Groups(es) + {e.group}
    ensures Containing(es + [e], c) == Containing(es, c) + if Has(e, c) then {e.group} else {}
  {
    assert forall d :: d in es + [e] <==> d in es || d == e;
  }

  lemma ValidGroupsPrefix(es: seq<Entry>, e: Entry)
    requires ValidGroups(es + [e])
    ensures ValidGroups(es) && e.group !in Groups(es) && forall a :: a in e.members ==> a.member == Some([e.group])
  {
    var all := es + [e];
    assert forall i :: 0 <= i < |es| ==> all[i] == es[i] && all[i].group != all[|es|].group;
    assert all[|es|] == e && e in all;
    assert forall d :: d in es ==> d in all;
  }

  /** All groups: MEMBER is the groups that contain the attendee and those the reconciliation
      does not know; the attendee is there if and only if that is not empty. */
  lemma {:induction false} StepAllMembers(o: Option<Attendee>, es: seq<Entry>, c: Address)
    requires ValidMember(o) && !Plain(o) && ValidGroups(es)
    ensures var r := StepAll(o, es, c);
            !Plain(r) && ValidMember(r) && MemberSet(r) == MembersAfter(o, es, c) && (r.None? <==> MemberSet(r) == {})
  {
    if es == [] {
      assert MembersAfter(o, es, c) == MemberSet(o);
      if o.Some? { assert o.value.member.value[0] in MemberSet(o); }
    } else {
      hide Groups, Containing, Step, MemberSet, ValidGroups, ValidMember, Plain;
      var pre, e := es[..|es| - 1], es[|es| - 1];
      assert es == pre + [e];
      ValidGroupsPrefix(pre, e);
      StepAllMembers(o, pre, c);
      GroupsAppend(pre, e, c);
      StepMembers(StepAll(o, pre, c), e, c);
      AddOne(MemberSet(o), Groups(pre), Containing(pre, c), e.group, Has(e, c));
    }
  }

  lemma AddOne(m: set<Address>, groups: set<Address>, containing: set<Address>, g: Address, has: bool)
    requires containing <= groups && g !in groups
    ensures var one := if has then {g} else {};
            m - groups + containing - {g} + one == m - (groups + {g}) + (containing + one)
  {
  }

  /** What is at address `c` after a whole reconciliation. */
  function Final(o: Option<Attendee>, es: seq<Entry>, c: Address): Option<Attendee> {
    Clean(StepAll(o, es, c), InAny(es, c), Used(es))
  }

  lemma {:induction false} PlainStays(o: Option<Attendee>, es: seq<Entry>, c: Address)
    requires Plain(o)
    ensures StepAll(o, es, c) == o && Final(o, es, c) == o
  {
    if es != [] { PlainStays(o, es[..|es| - 1], c); }
  }

  lemma {:induction false} WithoutDistinct(s: seq<Address>, keep: set<Address>)
    requires NoDuplicates(s)
    ensures NoDuplicates(Without(s, keep))
  {
    if s != [] {
      WithoutDistinct(s[1..], keep);
      assert forall i :: 0 < i < |s| ==> s[i] != s[0];
      assert s[0] !in Without(s[1..], keep);
    }
  }

  lemma ContainingAreUsed(es: seq<Entry>, c: Address)
    ensures Containing(es, c) <= Used(es) <= Groups(es)
    ensures InAny(es, c) <==> Containing(es, c) != {}
  {
    forall e | e in es && Has(e, c) ensures e.group in Used(es) && e.group in Containing(es, c) {
      assert e.members != [];
    }
    if Containing(es, c) != {} {
      var g :| g in Containing(es, c);
    }
  }

  /** The last stage leaves exactly the groups that contain the attendee. */
  lemma CleanMembers(r: Option<Attendee>, m: set<Address>, es: seq<Entry>, c: Address)
    requires ValidMember(r) && !Plain(r) && MemberSet(r) == m - Groups(es) + Containing(es, c)
    requires r.None? <==> MemberSet(r) == {}
    ensures var f := Clean(r, InAny(es, c), Used(es));
            && !Plain(f) && ValidMember(f) && MemberSet(f) == Containing(es, c)
            && (f.None? <==> Containing(es, c) == {})
            && (f.Some? ==> r.Some? && f.value.other == r.value.other)
  {
    ContainingAreUsed(es, c);
    hide Groups, Used, InAny, Containing;
    var f := Clean(r, InAny(es, c), Used(es));
    if r.Some? && InAny(es, c) {
      var member := r.value.member.value;
      WithoutDistinct(member, Used(es));
      assert forall g :: g in MemberSet(r) && g in Used(es) <==> g in Containing(es, c);
      assert forall g :: g in Without(member, Used(es)) <==> g in Containing(es, c);
      var g :| g in Containing(es, c);
      assert g in Without(member, Used(es));
    }
  }

  /** The fixed point: an attendee without MEMBER is untouched; any other is there if and only
      if some group contains it, and its MEMBER is exactly the groups that do. */
  lemma FinalMembers(o: Option<Attendee>, es: seq<Entry>, c: Address)
    requires ValidMember(o) && ValidGroups(es)
    ensures var f := Final(o, es, c);
            && (Plain(o) ==> f == o)
            && (!Plain(o) ==>
                  && !Plain(f) && ValidMember(f)
                  && MemberSet(f) == Containing(es, c) && (f.None? <==> Containing(es, c) == {}))
  {
    if Plain(o) {
      PlainStays(o, es, c);
    } else {
      StepAllMembers(o, es, c);
      CleanMembers(StepAll(o, es, c), MemberSet(o), es, c);
    }
  }

  /** The same groups in another order. */
  ghost predicate SameGroups(es: seq<Entry>, other: seq<Entry>) {
    ValidGroups(other) && forall e :: e in es <==> e in other
  }

  /** A second reconciliation, in whatever order, changes nothing at any step. */
  lemma FinalIsFixed(o: Option<Attendee>, es: seq<Entry>, other: seq<Entry>, c: Address)
    requires ValidMember(o) && ValidGroups(es) && SameGroups(es, other)
    ensures var f := Final(o, es, c);
            && (forall e :: e in other ==> Step(f, e, c) == f)
            && Clean(f, InAny(other, c), Used(other)) == f
  {
    FinalMembers(o, es, c);
    var f := Final(o, es, c);
    hide Final;
    assert Containing(other, c) == Containing(es, c);
    ContainingAreUsed(other, c);
    forall e | e in other ensures Has(e, c) <==> e.group in Containing(es, c) {
      GroupIsEntry(es, e, c);
    }
    if f.Some? && f.value.member.Some? {
      assert forall g :: g in f.value.member.value <==> g in MemberSet(f);
      WithoutAll(f.value.member.value, Used(other));
    }
  }

  lemma GroupIsEntry(es: seq<Entry>, e: Entry, c: Address)
    requires ValidGroups(es) && e in es
    ensures Has(e, c) <==> e.group in Containing(es, c)
  {
    if e.group in Containing(es, c) {
      var d :| d in es && Has(d, c) && d.group == e.group;
      var i :| 0 <= i < |es| && es[i] == d;
      var j :| 0 <= j < |es| && es[j] == e;
      assert i == j;
    }
  }

  lemma {:induction false} WithoutAll(s: seq<Address>, keep: set<Address>)
    requires forall g :: g in s ==> g in keep
    ensures Without(s, keep) == s
  {
    if s != [] { WithoutAll(s[1..], keep); }
  }

  /** The addresses and MEMBER sets after a reconciliation do not depend on the order of groups. */
  lemma OrderDoesNotMatter(o: Option<Attendee>, es: seq<Entry>, other: seq<Entry>, c: Address)
    requires ValidMember(o) && ValidGroups(es) && SameGroups(es, other)
    ensures var f, g := Final(o, es, c), Final(o, other, c);
            (f.Some? <==> g.Some?) && (Plain(f) <==> Plain(g)) && MemberSet(f) == MemberSet(g)
  {
    FinalMembers(o, es, c);
    FinalMembers(o, other, c);
    assert Containing(other, c) == Containing(es, c);
  }

  // ----- What the order does decide -----

  /** The attendee's property is never dropped on the way, so it keeps its other parameters. */
  ghost predicate Survives(o: Option<Attendee>, es: seq<Entry>, c: Address) {
    forall i :: 0 <= i <= |es| ==> StepAll(o, es[..i], c).Some?
  }

  lemma {:induction false} SurvivorKeepsOther(o: Option<Attendee>, es: seq<Entry>, c: Address)
    requires o.Some? && Survives(o, es, c)
    ensures StepAll(o, es, c).Some? && StepAll(o, es, c).value.other == o.value.other
  {
    assert es[..|es|] == es;
    if es != [] {
      var pre := es[..|es| - 1];
      forall i | 0 <= i <= |pre| ensures StepAll(o, pre[..i], c).Some? {
        assert pre[..i] == es[..i];
      }
      SurvivorKeepsOther(o, pre, c);
    }
  }

  /** The entries whose group is (or is not) in `m`. */
  function Select(es: seq<Entry>, m: set<Address>, inside: bool): (r: seq<Entry>)
    ensures forall e :: e in r <==> e in es && ((e.group in m) == inside)
  {
    if es == [] then [] else (if (es[0].group in m) == inside then [es[0]] else []) + Select(es[1..], m, inside)
  }

  lemma {:induction false} SelectDistinct(es: seq<Entry>, m: set<Address>, inside: bool)
    requires DistinctGroups(es)
    ensures DistinctGroups(Select(es, m, inside))
  {
    if es != [] {
      SelectDistinct(es[1..], m, inside);
      assert forall i :: 0 < i < |es| ==> es[i].group != es[0].group;
      assert forall e :: e in Select(es[1..], m, inside) ==> e in es[1..];
    }
  }

  lemma JoinDistinct(a: seq<Entry>, b: seq<Entry>)
    requires DistinctGroups(a) && DistinctGroups(b) && forall e, f :: e in a && f in b ==> e.group != f.group
    ensures DistinctGroups(a + b)
  {
    forall i, j | 0 <= i < j < |a + b| ensures (a + b)[i].group != (a + b)[j].group {
      if i < |a| <= j {
        assert a[i] in a && b[j - |a|] in b;
      }
    }
  }

  lemma SelectedFirst(es: seq<Entry>, m: set<Address>)
    requires ValidGroups(es)
    ensures SameGroups(es, Select(es, m, true) + Select(es, m, false))
  {
    var a, b := Select(es, m, true), Select(es, m, false);
    SelectDistinct(es, m, true);
    SelectDistinct(es, m, false);
    JoinDistinct(a, b);
    assert forall e :: e in a + b <==> e in a || e in b;
    hide Select, OnePerAddress;
  }

  /** An attendee with a MEMBER keeps its property in every order of the groups if and only if
      one of its MEMBER groups is not reconciled or still contains it. Otherwise some order first
      takes all its groups away, and another group then adds it anew. */
  lemma SurvivesExactly(o: Option<Attendee>, es: seq<Entry>, c: Address)
    requires ValidMember(o) && o.Some? && !Plain(o) && ValidGroups(es)
    ensures (forall other :: SameGroups(es, other) ==> Survives(o, other, c)) <==>
            exists g :: g in MemberSet(o) && (g !in Groups(es) || g in Containing(es, c))
  {
    hide Survives, SameGroups, ValidGroups, ValidMember, Plain;
    if g :| g in MemberSet(o) && (g !in Groups(es) || g in Containing(es, c)) {
      forall other | SameGroups(es, other) ensures Survives(o, other, c) {
        SurvivesEveryOrder(o, es, other, c, g);
      }
    } else {
      DroppedByMembersFirst(o, es, c);
    }
  }

  lemma DroppedByMembersFirst(o: Option<Attendee>, es: seq<Entry>, c: Address)
    requires ValidMember(o) && o.Some? && !Plain(o) && ValidGroups(es)
    requires forall g :: g in MemberSet(o) ==> g in Groups(es) && g !in Containing(es, c)
    ensures var other := Select(es, MemberSet(o), true) + Select(es, MemberSet(o), false);
            SameGroups(es, other) && !Survives(o, other, c)
  {
    var m := MemberSet(o);
    var a, b := Select(es, m, true), Select(es, m, false);
    SelectedFirst(es, m);
    assert (a + b)[..|a|] == a;
    ValidPart(es, a, b);
    StepAllMembers(o, a, c);
    assert MembersAfter(o, a, c) == {};
  }

  lemma ValidPart(es: seq<Entry>, a: seq<Entry>, b: seq<Entry>)
    requires SameGroups(es, a + b)
    ensures ValidGroups(a)
  {
    assert forall i :: 0 <= i < |a| ==> (a + b)[i] == a[i];
    assert forall e :: e in a ==> e in a + b;
  }

  lemma SurvivesEveryOrder(o: Option<Attendee>, es: seq<Entry>, other: seq<Entry>, c: Address, g: Address)
    requires ValidMember(o) && !Plain(o) && ValidGroups(es) && SameGroups(es, other)
    requires g in MemberSet(o) && (g !in Groups(es) || g in Containing(es, c))
    ensures Survives(o, other, c)
  {
    forall i | 0 <= i <= |other| ensures StepAll(o, other[..i], c).Some? {
      var pre := other[..i];
      assert other == pre + other[i..];
      ValidPart(es, pre, other[i..]);
      StepAllMembers(o, pre, c);
      if g in Groups(pre) {
        var e :| e in pre && e.group == g;
        GroupIsEntry(es, e, c);
        assert e.group in Containing(pre, c);
      }
      assert g in MembersAfter(o, pre, c);
    }
  }

  /** No group brings a property for the address that says the same as the one there is. */
  ghost predicate NewOthers(o: Option<Attendee>, es: seq<Entry>, c: Address) {
    forall e :: e in es && o.Some? && Has(e, c) ==> Find(e.members, c).value.other != o.value.other
  }

  lemma {:induction false} DroppedLosesOther(o: Option<Attendee>, es: seq<Entry>, c: Address)
    requires o.Some? && !Survives(o, es, c) && NewOthers(o, es, c)
    ensures var s := StepAll(o, es, c); s.None? || s.value.other != o.value.other
  {
    if es != [] {
      var front := es[..|es| - 1];
      assert forall i :: 0 <= i <= |front| ==> front[..i] == es[..i];
      assert es[..|es|] == es && es[|es| - 1] in es;
      if !Survives(o, front, c) {
        DroppedLosesOther(o, front, c);
      }
    }
  }

  /** An attendee with a MEMBER that is still there afterwards has kept PARTSTAT, and whatever
      else its property said, exactly if the property was never dropped on the way. */
  lemma OtherKeptExactly(o: Option<Attendee>, es: seq<Entry>, c: Address)
    requires o.Some? && NewOthers(o, es, c)
    ensures var f := Final(o, es, c); f.Some? ==> (f.value.other == o.value.other <==> Survives(o, es, c))
  {
    if Survives(o, es, c) {
      SurvivorKeepsOther(o, es, c);
    } else {
      DroppedLosesOther(o, es, c);
    }
  }

  lemma NewOthersInAnyOrder(o: Option<Attendee>, es: seq<Entry>, other: seq<Entry>, c: Address)
    requires NewOthers(o, es, c) && SameGroups(es, other)
    ensures NewOthers(o, other, c)
  {
  }

  /** An attendee of some group keeps PARTSTAT whatever the order of the groups if and only if one
      of its MEMBER groups is not reconciled or still contains it. */
  lemma OtherKeptInEveryOrder(o: Option<Attendee>, es: seq<Entry>, c: Address)
    requires ValidMember(o) && o.Some? && !Plain(o) && ValidGroups(es) && NewOthers(o, es, c)
    requires Containing(es, c) != {}
    ensures (forall other :: SameGroups(es, other) ==>
              Final(o, other, c).Some? && Final(o, other, c).value.other == o.value.other) <==>
            exists g :: g in MemberSet(o) && (g !in Groups(es) || g in Containing(es, c))
  {
    SurvivesExactly(o, es, c);
    forall other | SameGroups(es, other)
      ensures Final(o, other, c).Some?
      ensures Final(o, other, c).value.other == o.value.other <==> Survives(o, other, c)
    {
      FinalMembers(o, es, c);
      OrderDoesNotMatter(o, es, other, c);
      NewOthersInAnyOrder(o, es, other, c);
      OtherKeptExactly(o, other, c);
    }
    hide Survives, Final;
  }

  const JOINED_AS := Attendee("a", Some(["g2"]), 0)
  const LEFT := Entry("g1", [])
  const JOINED := Entry("g2", [JOINED_AS])

  lemma MoverGroups()
    ensures "g1" != "g2" && ValidGroups([LEFT, JOINED]) && SameGroups([LEFT, JOINED], [JOINED, LEFT])
    ensures Has(JOINED, "a") && Find(JOINED.members, "a") == Some(JOINED_AS) && !Has(LEFT, "a")
  {
    assert "g1"[1] != "g2"[1];
  }

  lemma MoverSteps(o: Option<Attendee>)
    requires o == Some(Attendee("a", Some(["g1"]), 1))
    ensures StepAll(o, [LEFT, JOINED], "a") == Some(JOINED_AS)
    ensures StepAll(o, [JOINED, LEFT], "a") == Some(Attendee("a", Some(["g2"]), 1))
  {
    MoverGroups();
    assert [LEFT, JOINED][..1] == [LEFT] && [JOINED, LEFT][..1] == [JOINED] && [LEFT][..0] == [] == [JOINED][..0];
    assert StepAll(o, [], "a") == o;
    assert Step(o, LEFT, "a") == None;
    assert StepAll(o, [LEFT], "a") == None;
    var both := Some(Attendee("a", Some(["g1", "g2"]), 1));
    assert ["g1"] + ["g2"] == ["g1", "g2"];
    assert Step(o, JOINED, "a") == both;
    assert StepAll(o, [JOINED], "a") == both;
    assert RemoveFirst(["g1", "g2"], "g1") == ["g2"];
  }

  /** Moving from one group to another: an attendee of "g1" who is now of "g2" keeps PARTSTAT if
      "g2" is reconciled first, and loses it if "g1" is. */
  lemma OrderDecidesOther()
    ensures var o := Some(Attendee("a", Some(["g1"]), 1));
            && ValidMember(o) && ValidGroups([LEFT, JOINED]) && SameGroups([LEFT, JOINED], [JOINED, LEFT])
            && Final(o, [JOINED, LEFT], "a") == Some(Attendee("a", Some(["g2"]), 1))
            && Final(o, [LEFT, JOINED], "a") == Some(JOINED_AS)
  {
    var o := Some(Attendee("a", Some(["g1"]), 1));
    MoverGroups();
    MoverSteps(o);
    hide StepAll;
    forall es | es == [LEFT, JOINED] || es == [JOINED, LEFT]
      ensures InAny(es, "a") && Without(["g2"], Used(es)) == ["g2"]
    {
      assert JOINED in es;
      assert JOINED.group in Used(es);
    }
  }

  // ----- The list of ATTENDEE properties -----

  function Listed(o: Option<Attendee>): seq<Attendee> {
    match o case None => [] case Some(a) => [a]
  }

  function UpdateAll(ps: seq<Attendee>, e: Entry): seq<Attendee> {
    if ps == [] then [] else Listed(Update(ps[0], e.group, Has(e, ps[0].cua))) + UpdateAll(ps[1..], e)
  }

  /** The member properties whose address the component does not have. */
  function Missing(members: seq<Attendee>, ps: seq<Attendee>): seq<Attendee> {
    if members == [] then []
    else (if Find(ps, members[0].cua).None? then [members[0]] else []) + Missing(members[1..], ps)
  }

  function ReconcileOne(ps: seq<Attendee>, e: Entry): seq<Attendee> {
    UpdateAll(ps, e) + Missing(e.members, ps)
  }

  predicate OneChanges(ps: seq<Attendee>, e: Entry) {
    Missing(e.members, ps) != [] || exists a :: a in ps && Update(a, e.group, Has(e, a.cua)) != Some(a)
  }

  function ReconcileGroups(ps: seq<Attendee>, es: seq<Entry>): seq<Attendee> {
    if es == [] then ps else ReconcileOne(ReconcileGroups(ps, es[..|es| - 1]), es[|es| - 1])
  }

  predicate GroupsChange(ps: seq<Attendee>, es: seq<Entry>) {
    es != [] && (GroupsChange(ps, es[..|es| - 1]) || OneChanges(ReconcileGroups(ps, es[..|es| - 1]), es[|es| - 1]))
  }

  function CleanAll(ps: seq<Attendee>, es: seq<Entry>): seq<Attendee> {
    if ps == [] then [] else Listed(Clean(Some(ps[0]), InAny(es, ps[0].cua), Used(es))) + CleanAll(ps[1..], es)
  }

  predicate CleaningChanges(ps: seq<Attendee>, es: seq<Entry>) {
    exists a :: a in ps && Clean(Some(a), InAny(es, a.cua), Used(es)) != Some(a)
  }

  /** What reconcileGroupAttendees makes of the properties of one component. */
  function Reconcile(ps: seq<Attendee>, es: seq<Entry>): seq<Attendee> {
    CleanAll(ReconcileGroups(ps, es), es)
  }

  /** Whether it reports a change. */
  predicate Changes(ps: seq<Attendee>, es: seq<Entry>) {
    GroupsChange(ps, es) || CleaningChanges(ReconcileGroups(ps, es), es)
  }

  ghost function Addresses(ps: seq<Attendee>): set<Address> {
    set a | a in ps :: a.cua
  }

  lemma {:induction false} FindAppend(a: seq<Attendee>, b: seq<Attendee>, c: Address)
    ensures Find(a + b, c) == if Find(a, c).Some? then Find(a, c) else Find(b, c)
  {
    if a == [] {
      assert a + b == b;
    } else {
      assert (a + b)[1..] == a[1..] + b;
      FindAppend(a[1..], b, c);
    }
  }

  lemma OnePerAddressAppend(a: seq<Attendee>, b: seq<Attendee>)
    requires OnePerAddress(a) && OnePerAddress(b) && forall p, q :: p in a && q in b ==> p.cua != q.cua
    ensures OnePerAddress(a + b)
  {
  }

  lemma OnePerAddressTail(ps: seq<Attendee>)
    requires OnePerAddress(ps) && ps != []
    ensures OnePerAddress(ps[1..]) && Find(ps[1..], ps[0].cua).None?
  {
    assert forall i :: 0 < i < |ps| ==> ps[i].cua != ps[0].cua;
  }

  lemma {:induction false} FindUpdateAll(ps: seq<Attendee>, e: Entry, c: Address)
    requires OnePerAddress(ps)
    ensures Find(UpdateAll(ps, e), c) ==
              match Find(ps, c) case None => None case Some(a) => Update(a, e.group, Has(e, c))
  {
    if ps != [] {
      OnePerAddressTail(ps);
      FindUpdateAll(ps[1..], e, c);
      FindAppend(Listed(Update(ps[0], e.group, Has(e, ps[0].cua))), UpdateAll(ps[1..], e), c);
    }
  }

  lemma {:induction false} UpdateAllDistinct(ps: seq<Attendee>, e: Entry)
    requires OnePerAddress(ps)
    ensures OnePerAddress(UpdateAll(ps, e)) && Addresses(UpdateAll(ps, e)) <= Addresses(ps)
  {
    if ps != [] {
      OnePerAddressTail(ps);
      UpdateAllDistinct(ps[1..], e);
      var head, tail := Listed(Update(ps[0], e.group, Has(e, ps[0].cua))), UpdateAll(ps[1..], e);
      assert forall q :: q in tail ==> q.cua in Addresses(tail) && q.cua in Addresses(ps[1..]);
      OnePerAddressAppend(head, tail);
      assert forall q :: q in head + tail <==> q in head || q in tail;
      assert forall q :: q in ps[1..] ==> q in ps;
    }
  }

  lemma {:induction false} FindMissing(members: seq<Attendee>, ps: seq<Attendee>, c: Address)
    requires OnePerAddress(members)
    ensures Find(Missing(members, ps), c) == if Find(ps, c).None? then Find(members, c) else None
    ensures OnePerAddress(Missing(members, ps))
    ensures forall a :: a in Missing(members, ps) ==> a in members && Find(ps, a.cua).None?
  {
    if members != [] {
      OnePerAddressTail(members);
      FindMissing(members[1..], ps, c);
      var head, tail := if Find(ps, members[0].cua).None? then [members[0]] else [], Missing(members[1..], ps);
      FindAppend(head, tail, c);
      assert forall a :: a in members[1..] ==> a.cua != members[0].cua;
      OnePerAddressAppend(head, tail);
      assert forall a :: a in members[1..] ==> a in members;
    }
  }

  /** One group, address by address. */
  lemma ReconcileOneByAddress(ps: seq<Attendee>, e: Entry)
    requires OnePerAddress(ps) && OnePerAddress(e.members)
    ensures OnePerAddress(ReconcileOne(ps, e))
    ensures forall c :: Find(ReconcileOne(ps, e), c) == Step(Find(ps, c), e, c)
  {
    UpdateAllDistinct(ps, e);
    var a, b := UpdateAll(ps, e), Missing(e.members, ps);
    FindMissing(e.members, ps, "");
    assert forall p :: p in a ==> p.cua in Addresses(a) && p.cua in Addresses(ps);
    OnePerAddressAppend(a, b);
    forall c ensures Find(a + b, c) == Step(Find(ps, c), e, c) {
      FindAppend(a, b, c);
      FindUpdateAll(ps, e, c);
      FindMissing(e.members, ps, c);
    }
  }

  lemma {:induction false} ReconcileGroupsByAddress(ps: seq<Attendee>, es: seq<Entry>)
    requires OnePerAddress(ps) && ValidGroups(es)
    ensures OnePerAddress(ReconcileGroups(ps, es))
    ensures forall c :: Find(ReconcileGroups(ps, es), c) == StepAll(Find(ps, c), es, c)
  {
    if es != [] {
      var pre, e := es[..|es| - 1], es[|es| - 1];
      assert es == pre + [e] && e in es;
      ValidGroupsPrefix(pre, e);
      ReconcileGroupsByAddress(ps, pre);
      hide ReconcileOne, ValidGroups, Step;
      ReconcileOneByAddress(ReconcileGroups(ps, pre), e);
    }
  }

  /** The last stage for one property. */
  function Cleaned(a: Attendee, es: seq<Entry>): seq<Attendee> {
    Listed(Clean(Some(a), InAny(es, a.cua), Used(es)))
  }

  lemma CleanedHead(a: Attendee, es: seq<Entry>, c: Address)
    ensures OnePerAddress(Cleaned(a, es)) && forall q :: q in Cleaned(a, es) ==> q.cua == a.cua
    ensures Find(Cleaned(a, es), c) == if a.cua == c then Clean(Some(a), InAny(es, c), Used(es)) else None
    ensures Clean(None, InAny(es, c), Used(es)) == None
  {
    hide InAny, Used, Without;
  }

  lemma AddressesTail(ps: seq<Attendee>, head: seq<Attendee>, tail: seq<Attendee>)
    requires OnePerAddress(ps) && ps != [] && Addresses(tail) <= Addresses(ps[1..])
    requires forall q :: q in head ==> q.cua == ps[0].cua
    ensures forall p, q :: p in head && q in tail ==> p.cua != q.cua
    ensures Addresses(head + tail) <= Addresses(ps)
  {
    OnePerAddressTail(ps);
    assert forall q :: q in tail ==> q.cua in Addresses(tail) && q.cua in Addresses(ps[1..]);
    assert forall q :: q in head + tail <==> q in head || q in tail;
    assert forall q :: q in ps[1..] ==> q in ps;
  }

  lemma {:induction false} CleanAllByAddress(ps: seq<Attendee>, es: seq<Entry>)
    requires OnePerAddress(ps)
    ensures OnePerAddress(CleanAll(ps, es)) && Addresses(CleanAll(ps, es)) <= Addresses(ps)
    ensures forall c :: Find(CleanAll(ps, es), c) == Clean(Find(ps, c), InAny(es, c), Used(es))
  {
    hide Clean, InAny, Used, Addresses, OnePerAddress, Cleaned;
    if ps == [] {
      forall c ensures Clean(None, InAny(es, c), Used(es)) == None { NothingToKeep(es, c); }
      NobodyLeft();
    } else {
      OnePerAddressTail(ps);
      CleanAllByAddress(ps[1..], es);
      var head, tail := Cleaned(ps[0], es), CleanAll(ps[1..], es);
      CleanedHead(ps[0], es, ps[0].cua);
      CleanedIs(ps, es);
      AddressesTail(ps, head, tail);
      OnePerAddressAppend(head, tail);
      forall c ensures Find(head + tail, c) == Clean(Find(ps, c), InAny(es, c), Used(es)) {
        CleanedHead(ps[0], es, c);
        FindAppend(head, tail, c);
      }
    }
  }

  lemma CleanedIs(ps: seq<Attendee>, es: seq<Entry>)
    requires ps != []
    ensures CleanAll(ps, es) == Cleaned(ps[0], es) + CleanAll(ps[1..], es)
  {
  }

  lemma NothingToKeep(es: seq<Entry>, c: Address)
    ensures Clean(None, InAny(es, c), Used(es)) == None
  {
  }

  lemma NobodyLeft()
    ensures OnePerAddress([]) && Addresses([]) == {}
  {
  }

  /** A whole reconciliation, address by address. */
  lemma ReconcileByAddress(ps: seq<Attendee>, es: seq<Entry>)
    requires OnePerAddress(ps) && ValidGroups(es)
    ensures OnePerAddress(Reconcile(ps, es))
    ensures forall c :: Find(Reconcile(ps, es), c) == Final(Find(ps, c), es, c)
  {
    ReconcileGroupsByAddress(ps, es);
    CleanAllByAddress(ReconcileGroups(ps, es), es);
  }

  ghost predicate ValidMembers(ps: seq<Attendee>) {
    forall a :: a in ps ==> ValidMember(Some(a))
  }

  /** Afterwards every member of every group is an attendee; an attendee without MEMBER is one
      the component had; and any other lists exactly the groups that contain it. */
  lemma ReconcileIsRight(ps: seq<Attendee>, es: seq<Entry>, c: Address)
    requires OnePerAddress(ps) && ValidGroups(es) && ValidMembers(ps)
    ensures var f := Find(Reconcile(ps, es), c);
            && (InAny(es, c) ==> f.Some?)
            && (Plain(Find(ps, c)) ==> f == Find(ps, c))
            && (Plain(f) ==> f == Find(ps, c))
            && (f.Some? && !Plain(f) ==> MemberSet(f) == Containing(es, c) && NoDuplicates(f.value.member.value))
            && (f.Some? ==> InAny(es, c) || Plain(f))
  {
    ReconcileByAddress(ps, es);
    FinalMembers(Find(ps, c), es, c);
    ContainingAreUsed(es, c);
    assert Find(ps, c).Some? ==> Find(ps, c).value in ps;
  }

  lemma {:induction false} FindSelf(ps: seq<Attendee>, a: Attendee)
    requires OnePerAddress(ps) && a in ps
    ensures Find(ps, a.cua) == Some(a)
  {
    if ps[0] != a {
      assert forall i :: 0 < i < |ps| ==> ps[i].cua != ps[0].cua;
      FindSelf(ps[1..], a);
    }
  }

  lemma {:induction false} UpdateAllFixed(ps: seq<Attendee>, e: Entry)
    requires forall a :: a in ps ==> Update(a, e.group, Has(e, a.cua)) == Some(a)
    ensures UpdateAll(ps, e) == ps
  {
    if ps != [] { UpdateAllFixed(ps[1..], e); }
  }

  lemma {:induction false} MissingNone(members: seq<Attendee>, ps: seq<Attendee>)
    requires forall a :: a in members ==> Find(ps, a.cua).Some?
    ensures Missing(members, ps) == []
  {
    if members != [] { MissingNone(members[1..], ps); }
  }

  lemma {:induction false} CleanAllFixed(ps: seq<Attendee>, es: seq<Entry>)
    requires forall a :: a in ps ==> Clean(Some(a), InAny(es, a.cua), Used(es)) == Some(a)
    ensures CleanAll(ps, es) == ps
  {
    if ps != [] { CleanAllFixed(ps[1..], es); }
  }

  lemma FixedOne(ps: seq<Attendee>, e: Entry)
    requires OnePerAddress(ps) && forall c :: Step(Find(ps, c), e, c) == Find(ps, c)
    ensures !OneChanges(ps, e) && ReconcileOne(ps, e) == ps
  {
    forall a | a in ps ensures Update(a, e.group, Has(e, a.cua)) == Some(a) {
      FindSelf(ps, a);
      assert Step(Find(ps, a.cua), e, a.cua) == Find(ps, a.cua);
    }
    forall a | a in e.members ensures Find(ps, a.cua).Some? {
      assert Step(Find(ps, a.cua), e, a.cua) == Find(ps, a.cua);
      assert Find(e.members, a.cua).Some?;
    }
    UpdateAllFixed(ps, e);
    MissingNone(e.members, ps);
  }

  lemma {:induction false} FixedGroups(ps: seq<Attendee>, es: seq<Entry>)
    requires OnePerAddress(ps) && forall e, c :: e in es ==> Step(Find(ps, c), e, c) == Find(ps, c)
    ensures !GroupsChange(ps, es) && ReconcileGroups(ps, es) == ps
  {
    if es != [] {
      forall e, c | e in es[..|es| - 1] ensures Step(Find(ps, c), e, c) == Find(ps, c) {
        assert e in es;
      }
      FixedGroups(ps, es[..|es| - 1]);
      assert es[|es| - 1] in es;
      FixedOne(ps, es[|es| - 1]);
    }
  }

  /** No group and no cleaning changes anything at any address. */
  ghost predicate Settled(ps: seq<Attendee>, es: seq<Entry>) {
    && (forall e, c :: e in es ==> Step(Find(ps, c), e, c) == Find(ps, c))
    && (forall c :: Clean(Find(ps, c), InAny(es, c), Used(es)) == Find(ps, c))
  }

  /** Reconciling one group reports a change exactly if it makes one. */
  lemma OneChangesExactly(ps: seq<Attendee>, e: Entry)
    requires OnePerAddress(ps) && OnePerAddress(e.members)
    ensures OneChanges(ps, e) <==> ReconcileOne(ps, e) != ps
  {
    ReconcileOneByAddress(ps, e);
    if ReconcileOne(ps, e) == ps {
      FixedOne(ps, e);
    } else if !OneChanges(ps, e) {
      UpdateAllFixed(ps, e);
    }
  }

  /** And so does the last stage. */
  lemma CleaningChangesExactly(ps: seq<Attendee>, es: seq<Entry>)
    requires OnePerAddress(ps)
    ensures CleaningChanges(ps, es) <==> CleanAll(ps, es) != ps
  {
    CleanAllByAddress(ps, es);
    if CleanAll(ps, es) == ps {
      forall a | a in ps ensures Clean(Some(a), InAny(es, a.cua), Used(es)) == Some(a) {
        FindSelf(ps, a);
      }
    } else if !CleaningChanges(ps, es) {
      CleanAllFixed(ps, es);
    }
  }

  /** The `k`th group changes what the groups before it have left. */
  ghost predicate Moved(ps: seq<Attendee>, es: seq<Entry>, k: nat) {
    0 < k <= |es| && ReconcileGroups(ps, es[..k]) != ReconcileGroups(ps, es[..k - 1])
  }

  lemma MovedInFront(ps: seq<Attendee>, pre: seq<Entry>, e: Entry, k: nat)
    ensures k <= |pre| ==> (Moved(ps, pre + [e], k) <==> Moved(ps, pre, k))
  {
    if 0 < k <= |pre| {
      assert (pre + [e])[..k] == pre[..k] && (pre + [e])[..k - 1] == pre[..k - 1];
    }
  }

  lemma MovedLast(ps: seq<Attendee>, pre: seq<Entry>, e: Entry)
    ensures Moved(ps, pre + [e], |pre| + 1) <==> ReconcileOne(ReconcileGroups(ps, pre), e) != ReconcileGroups(ps, pre)
  {
    assert (pre + [e])[..|pre| + 1] == pre + [e] && (pre + [e])[..|pre|] == pre;
  }

  lemma {:induction false} GroupsChangeExactly(ps: seq<Attendee>, es: seq<Entry>)
    requires OnePerAddress(ps) && ValidGroups(es)
    ensures GroupsChange(ps, es) <==> exists k: nat :: Moved(ps, es, k)
  {
    if es != [] {
      var pre, e := es[..|es| - 1], es[|es| - 1];
      assert es == pre + [e] && e in es;
      assert OnePerAddress(e.members);
      ValidGroupsPrefix(pre, e);
      hide OneChanges, ReconcileOne, ReconcileGroups, OnePerAddress, ValidGroups, Moved;
      GroupsChangeExactly(ps, pre);
      ReconcileGroupsByAddress(ps, pre);
      OneChangesExactly(ReconcileGroups(ps, pre), e);
      forall k: nat { MovedInFront(ps, pre, e, k); }
      MovedLast(ps, pre, e);
      forall k: nat | Moved(ps, es, k) ensures k <= |pre| + 1 { MovedWithin(ps, es, k); }
    }
  }

  lemma MovedWithin(ps: seq<Attendee>, es: seq<Entry>, k: nat)
    requires Moved(ps, es, k)
    ensures 0 < k <= |es|
  {
  }

  /** The flag of a whole reconciliation: some group changed something, or the last stage did. */
  lemma FlagExactly(ps: seq<Attendee>, es: seq<Entry>)
    requires OnePerAddress(ps) && ValidGroups(es)
    ensures Changes(ps, es) <==>
              Reconcile(ps, es) != ReconcileGroups(ps, es) || exists k: nat :: Moved(ps, es, k)
  {
    hide CleaningChanges, CleanAll, GroupsChange, ReconcileGroups;
    GroupsChangeExactly(ps, es);
    ReconcileGroupsByAddress(ps, es);
    CleaningChangesExactly(ReconcileGroups(ps, es), es);
  }

  lemma SettledStays(ps: seq<Attendee>, es: seq<Entry>)
    requires OnePerAddress(ps) && Settled(ps, es)
    ensures Reconcile(ps, es) == ps && !Changes(ps, es)
  {
    hide Step, Clean, InAny, Used;
    FixedGroups(ps, es);
    forall a | a in ps ensures Clean(Some(a), InAny(es, a.cua), Used(es)) == Some(a) {
      FindSelf(ps, a);
      assert Clean(Find(ps, a.cua), InAny(es, a.cua), Used(es)) == Find(ps, a.cua);
    }
    CleanAllFixed(ps, es);
  }

  /** A second call, with the groups in any order, changes nothing and says so. */
  lemma SecondCallChangesNothing(ps: seq<Attendee>, es: seq<Entry>, other: seq<Entry>)
    requires OnePerAddress(ps) && ValidGroups(es) && ValidMembers(ps) && SameGroups(es, other)
    ensures var after := Reconcile(ps, es); Reconcile(after, other) == after && !Changes(after, other)
  {
    var after := Reconcile(ps, es);
    ReconcileByAddress(ps, es);
    assert Settled(after, other) by {
      hide Reconcile, Final, Step, Clean, ValidGroups, InAny, Used;
      forall c ensures Clean(Find(after, c), InAny(other, c), Used(other)) == Find(after, c) &&
                       forall e :: e in other ==> Step(Find(after, c), e, c) == Find(after, c) {
        assert Find(ps, c).Some? ==> Find(ps, c).value in ps;
        FinalIsFixed(Find(ps, c), es, other, c);
      }
    }
    hide Settled, Reconcile, Changes;
    SettledStays(after, other);
  }

  // ----- The reconciliation as the source writes it -----

  lemma UpdateAllStep(done: seq<Attendee>, ps: seq<Attendee>, i: nat, e: Entry)
    requires i < |ps|
    ensures done + UpdateAll(ps[i..], e) ==
              done + Listed(Update(ps[i], e.group, Has(e, ps[i].cua))) + UpdateAll(ps[i + 1..], e)
  {
    assert ps[i..][1..] == ps[i + 1..];
  }

  lemma CleanAllStep(done: seq<Attendee>, ps: seq<Attendee>, i: nat, es: seq<Entry>)
    requires i < |ps|
    ensures done + CleanAll(ps[i..], es) ==
              done + Listed(Clean(Some(ps[i]), InAny(es, ps[i].cua), Used(es))) + CleanAll(ps[i + 1..], es)
  {
    assert ps[i..][1..] == ps[i + 1..];
  }

  /** Replacing or removing one property in place. */
  lemma ReplaceOne(done: seq<Attendee>, ps: seq<Attendee>, i: nat, added: seq<Attendee>, result: seq<Attendee>)
    requires i < |ps|
    ensures var all := done + ps[i..] + added;
            all[..|done|] + result + all[|done| + 1..] == (done + result) + ps[i + 1..] + added
  {
    var all := done + ps[i..] + added;
    assert all[..|done|] == done;
    assert all[|done| + 1..] == ps[i + 1..] + added;
  }

  lemma {:induction false} RemoveFromWithout(s: seq<Address>, keep: set<Address>, g: Address)
    requires NoDuplicates(s) && g in keep
    ensures RemoveFirst(Without(s, keep), g) == Without(s, keep - {g})
  {
    if s != [] {
      assert forall i :: 0 < i < |s| ==> s[i] != s[0];
      var head, tail := if s[0] in keep then [s[0]] else [], Without(s[1..], keep);
      RemoveFromWithout(s[1..], keep, g);
      if s[0] == g {
        assert g !in s[1..];
        WithoutOther(s[1..], keep, g);
        assert (head + tail)[1..] == tail;
      } else if s[0] in keep {
        assert (head + tail)[1..] == tail;
      } else {
        assert head + tail == tail;
      }
    }
  }

  lemma {:induction false} WithoutOther(s: seq<Address>, keep: set<Address>, g: Address)
    requires g !in s
    ensures Without(s, keep - {g}) == Without(s, keep)
  {
    if s != [] { WithoutOther(s[1..], keep, g); }
  }

  class Subcomponent {
    var attendees: seq<Attendee>

    constructor (attendees: seq<Attendee>)
      ensures this.attendees == attendees
    {
      this.attendees := attendees;
    }

    /** One group: its missing members are added, then the MEMBER of each old attendee is updated. */
    method ReconcileGroupAttendee(e: Entry) returns (changed: bool)
      modifies this
      ensures attendees == ReconcileOne(old(attendees), e)
      ensures changed <==> OneChanges(old(attendees), e)
    {
      hide Update, Has, Missing, UpdateAll;
      var oldAttendees := attendees;
      changed := AddMembers(e, oldAttendees);
      ghost var added, done := Missing(e.members, oldAttendees), [];
      var place := 0;
      assert attendees == done + oldAttendees[0..] + added;
      assert done + UpdateAll(oldAttendees[0..], e) == UpdateAll(oldAttendees, e) by {
        assert oldAttendees[0..] == oldAttendees;
      }
      for i := 0 to |oldAttendees|
        invariant place == |done|
        invariant attendees == done + oldAttendees[i..] + added
        invariant done + UpdateAll(oldAttendees[i..], e) == UpdateAll(oldAttendees, e)
        invariant changed <==> added != [] || Touched(oldAttendees[..i], e)
      {
        var result, touched := UpdateAttendee(oldAttendees[i], e);
        UpdateAllStep(done, oldAttendees, i, e);
        ReplaceOne(done, oldAttendees, i, added, Listed(result));
        TouchedStep(oldAttendees, i, e);
        attendees := attendees[..place] + Listed(result) + attendees[place + 1..];
        done := done + Listed(result);
        place := place + |Listed(result)|;
        changed := changed || touched;
      }
      assert oldAttendees[..|oldAttendees|] == oldAttendees;
      NothingToUpdate(oldAttendees, e);
    }

    method AddMembers(e: Entry, oldAttendees: seq<Attendee>) returns (changed: bool)
      requires attendees == oldAttendees
      modifies this
      ensures attendees == oldAttendees + Missing(e.members, oldAttendees)
      ensures changed <==> Missing(e.members, oldAttendees) != []
    {
      changed := false;
      for i := 0 to |e.members|
        invariant attendees + Missing(e.members[i..], oldAttendees) == oldAttendees + Missing(e.members, oldAttendees)
        invariant changed <==> |attendees| > |oldAttendees|
        invariant |attendees| >= |oldAttendees|
      {
        var member := e.members[i];
        assert e.members[i..][1..] == e.members[i + 1..];
        ghost var rest := Missing(e.members[i + 1..], oldAttendees);
        assert attendees + ([member] + rest) == (attendees + [member]) + rest;
        if Find(oldAttendees, member.cua).None? {
          attendees := attendees + [member];
          changed := true;
        }
      }
    }

    method UpdateAttendee(attendee: Attendee, e: Entry) returns (result: Option<Attendee>, changed: bool)
      ensures result == Update(attendee, e.group, Has(e, attendee.cua))
      ensures changed <==> result != Some(attendee)
    {
      result, changed := Some(attendee), false;
      if attendee.member.Some? {
        var memberValues := attendee.member.value;
        if e.group in memberValues {
          if Find(e.members, attendee.cua).None? {
            memberValues := RemoveFirst(memberValues, e.group);
            RemoveFirstShrinks(attendee.member.value, e.group);
            result := if |memberValues| == 0 then None else Some(attendee.(member := Some(memberValues)));
            changed := true;
          }
        } else if Find(e.members, attendee.cua).Some? {
          result := Some(attendee.(member := Some(memberValues + [e.group])));
          changed := true;
        }
      }
    }

    /** The last stage: MEMBER values of groups that are not in use, and attendees in no group. */
    method RemoveOrphans(es: seq<Entry>) returns (changed: bool)
      requires ValidMembers(attendees)
      modifies this
      ensures attendees == CleanAll(old(attendees), es)
      ensures changed <==> CleaningChanges(old(attendees), es)
    {
      hide Clean, CleanAll, ValidMember;
      var all := attendees;
      var place := 0;
      ghost var done: seq<Attendee> := [];
      changed := false;
      assert done + CleanAll(all[0..], es) == CleanAll(all, es) by { assert all[0..] == all; }
      for i := 0 to |all|
        invariant place == |done|
        invariant attendees == done + all[i..] + []
        invariant done + CleanAll(all[i..], es) == CleanAll(all, es)
        invariant changed <==>
                    exists j :: 0 <= j < i && Clean(Some(all[j]), InAny(es, all[j].cua), Used(es)) != Some(all[j])
      {
        var result, touched := CleanAttendee(all[i], es);
        CleanAllStep(done, all, i, es);
        ReplaceOne(done, all, i, [], Listed(result));
        attendees := attendees[..place] + Listed(result) + attendees[place + 1..];
        done := done + Listed(result);
        place := place + |Listed(result)|;
        changed := changed || touched;
      }
      NothingToClean(all, es);
      assert forall a :: a in all ==> exists j :: 0 <= j < |all| && all[j] == a;
    }

    method CleanAttendee(attendee: Attendee, es: seq<Entry>) returns (result: Option<Attendee>, changed: bool)
      requires ValidMember(Some(attendee))
      ensures result == Clean(Some(attendee), InAny(es, attendee.cua), Used(es))
      ensures changed <==> result != Some(attendee)
    {
      result, changed := Some(attendee), false;
      if attendee.member.Some? {
        if InAny(es, attendee.cua) {
          var memberValues := attendee.member.value;
          var orphans := (set g | g in memberValues) - Used(es);
          memberValues := RemoveValues(memberValues, orphans);
          WithoutSame(attendee.member.value, (set g | g in attendee.member.value) - orphans, Used(es));
          result := if |memberValues| == 0 then None else Some(attendee.(member := Some(memberValues)));
          changed := |orphans| != 0;
          OrphansMatter(attendee.member.value, orphans, Used(es));
        } else {
          result, changed := None, true;
        }
      }
    }
  }

  method RemoveValues(s: seq<Address>, values: set<Address>) returns (r: seq<Address>)
    requires NoDuplicates(s)
    ensures r == Without(s, (set g | g in s) - values)
  {
    r := s;
    ghost var keep := set g | g in s;
    WithoutAll(s, keep);
    var todo := values;
    while todo != {}
      invariant todo <= values && keep == (set g | g in s) - (values - todo)
      invariant r == Without(s, keep)
      decreases |todo|
    {
      var value :| value in todo;
      RemoveOneMore(s, keep, value);
      r := RemoveFirst(r, value);
      todo, keep := todo - {value}, keep - {value};
    }
    assert values - todo == values;
  }

  lemma RemoveOneMore(s: seq<Address>, keep: set<Address>, g: Address)
    requires NoDuplicates(s)
    ensures RemoveFirst(Without(s, keep), g) == Without(s, keep - {g})
  {
    if g in keep {
      RemoveFromWithout(s, keep, g);
    } else {
      assert keep - {g} == keep;
      RemoveAbsent(Without(s, keep), g);
    }
  }

  lemma {:induction false} RemoveAbsent(s: seq<Address>, g: Address)
    requires g !in s
    ensures RemoveFirst(s, g) == s
  {
    if s != [] { RemoveAbsent(s[1..], g); }
  }

  lemma OrphansMatter(s: seq<Address>, orphans: set<Address>, used: set<Address>)
    requires orphans == (set g | g in s) - used
    ensures Without(s, used) == s <==> orphans == {}
  {
    assert forall g :: g in s && g !in used ==> g in orphans;
    if orphans == {} {
      WithoutAll(s, used);
    } else {
      var g :| g in orphans;
      assert g !in Without(s, used);
    }
  }

  predicate Touched(ps: seq<Attendee>, e: Entry) {
    exists a :: a in ps && Update(a, e.group, Has(e, a.cua)) != Some(a)
  }

  lemma TouchedStep(ps: seq<Attendee>, i: nat, e: Entry)
    requires i < |ps|
    ensures Touched(ps[..i + 1], e) <==> Touched(ps[..i], e) || Update(ps[i], e.group, Has(e, ps[i].cua)) != Some(ps[i])
  {
    assert ps[..i + 1] == ps[..i] + [ps[i]];
  }

  lemma NothingToUpdate(ps: seq<Attendee>, e: Entry)
    ensures UpdateAll(ps[|ps|..], e) == []
  {
  }

  lemma NothingToClean(ps: seq<Attendee>, es: seq<Entry>)
    ensures CleanAll(ps[|ps|..], es) == []
  {
  }

  lemma {:induction false} RemoveFirstShrinks(s: seq<Address>, g: Address)
    requires g in s
    ensures |RemoveFirst(s, g)| == |s| - 1
  {
    if s[0] != g { RemoveFirstShrinks(s[1..], g); }
  }

  lemma {:induction false} WithoutSame(s: seq<Address>, a: set<Address>, b: set<Address>)
    requires forall g :: g in s ==> (g in a <==> g in b)
    ensures Without(s, a) == Without(s, b)
  {
    if s != [] { WithoutSame(s[1..], a, b); }
  }

  /** reconcileGroupAttendees: every group in turn on every subcomponent, then the last stage. */
  method ReconcileGroupAttendees(components: seq<Subcomponent>, es: seq<Entry>) returns (changed: bool)
    requires forall i, j :: 0 <= i < j < |components| ==> components[i] != components[j]
    requires forall i :: 0 <= i < |components| ==>
               OnePerAddress(components[i].attendees) && ValidMembers(components[i].attendees)
    requires ValidGroups(es)
    modifies components
    ensures forall i :: 0 <= i < |components| ==> components[i].attendees == Reconcile(old(components[i].attendees), es)
    ensures changed <==> exists i :: 0 <= i < |components| && Changes(old(components[i].attendees), es)
  {
    hide ReconcileOne, OneChanges, CleanAll, CleaningChanges, OnePerAddress, ValidGroups, ValidMembers;
    changed := false;
    for k := 0 to |es|
      invariant forall i :: 0 <= i < |components| ==>
                  components[i].attendees == ReconcileGroups(old(components[i].attendees), es[..k])
      invariant changed <==> exists i :: 0 <= i < |components| && GroupsChange(old(components[i].attendees), es[..k])
    {
      assert es[..k + 1][..k] == es[..k];
      ghost var before := changed;
      for i := 0 to |components|
        invariant forall j :: 0 <= j < i ==>
                    components[j].attendees == ReconcileGroups(old(components[j].attendees), es[..k + 1])
        invariant forall j :: i <= j < |components| ==>
                    components[j].attendees == ReconcileGroups(old(components[j].attendees), es[..k])
        invariant before <==> exists j :: 0 <= j < |components| && GroupsChange(old(components[j].attendees), es[..k])
        invariant changed <==>
                    before || exists j :: 0 <= j < i && GroupsChange(old(components[j].attendees), es[..k + 1])
      {
        var c := components[i].ReconcileGroupAttendee(es[k]);
        changed := changed || c;
      }
    }
    assert es[..|es|] == es;
    forall i | 0 <= i < |components| ensures ValidMembers(components[i].attendees) {
      ReconcileGroupsKeepsMembers(old(components[i].attendees), es);
    }
    ghost var grouped := changed;
    for i := 0 to |components|
      invariant forall j :: 0 <= j < i ==> components[j].attendees == Reconcile(old(components[j].attendees), es)
      invariant forall j :: i <= j < |components| ==>
                  components[j].attendees == ReconcileGroups(old(components[j].attendees), es) &&
                    ValidMembers(components[j].attendees)
      invariant changed <==>
                  grouped ||
                  exists j :: 0 <= j < i && CleaningChanges(ReconcileGroups(old(components[j].attendees), es), es)
    {
      var c := components[i].RemoveOrphans(es);
      changed := changed || c;
    }
  }

  lemma ReconcileGroupsKeepsMembers(ps: seq<Attendee>, es: seq<Entry>)
    requires OnePerAddress(ps) && ValidMembers(ps) && ValidGroups(es)
    ensures ValidMembers(ReconcileGroups(ps, es))
  {
    var after := ReconcileGroups(ps, es);
    ReconcileGroupsByAddress(ps, es);
    hide ReconcileGroups, StepAll;
    forall a | a in after ensures ValidMember(Some(a)) {
      FindSelf(after, a);
      var o := Find(ps, a.cua);
      assert o.Some? ==> o.value in ps;
      if Plain(o) {
        PlainStays(o, es, a.cua);
      } else {
        StepAllMembers(o, es, a.cua);
      }
    }
  }
}
