/** Expansion of a master and its overrides into a map of instances, as in
    twistedcaldav/instance.py, with no lower limit and UTC times. */
module Instances {
  import opened Collections
  import opened Recurrence

  const DAY := 86400

  /** An overriding component: its times, RECURRENCE-ID and RANGE=THISANDFUTURE. */
  datatype Override = Override(rid: int, start: int, end: int, isEvent: bool, cancelled: bool, thisAndFuture: bool)

  datatype Source = FromMaster | FromOverride(override: Override)

  datatype Instance = Instance(component: Source, start: int, end: int, rid: int, overridden: bool, future: bool)

  type InstanceMap = map<int, Instance>

  /** What an expansion runs with; `maxInstances` is config.MaxAllowedInstances (0: no limit). */
  datatype Context = Context(master: Option<Master>, upper: int, ignoreInvalid: bool, maxInstances: nat)

  ghost predicate ValidContext(x: Context) {
    x.master.Some? ==> ValidMaster(x.master.value)
  }

  /** The outcome of an expansion: an instance map, or the exception that ended it. */
  datatype Expansion = Instances(instances: InstanceMap) | TooManyInstances | InvalidOverriddenInstance(rid: int)

  // ----- The effect of one override -----

  /** Whether an override is dropped, refused, or takes the place `rid`. */
  datatype Verdict = Skip | Refuse(rid: int) | Place(rid: int)

  function Judge(x: Context, keys: set<int>, o: Override): Verdict {
    if o.start > x.upper && o.rid > x.upper then Skip
    else if x.master.Some? && o.rid !in keys && o.rid < x.upper then
      if x.master.value.cancelled || o.cancelled then Place(o.rid)
      else if x.ignoreInvalid then Skip
      else if o.isEvent && o.rid % DAY == 0 then
        // A midnight RECURRENCE-ID is retried with the time of day of DTSTART
        var repaired := o.rid + x.master.value.dtstart % DAY;
        if repaired in keys then Place(repaired) else Refuse(repaired)
      else Refuse(o.rid)
    else Place(o.rid)
  }

  function Overriding(o: Override, rid: int): Instance {
    Instance(FromOverride(o), o.start, o.end, rid, true, o.thisAndFuture)
  }

  /** A later instance, as THISANDFUTURE replaces it: moved as far as the override moved its
      own instance and given the override's length, or with its old times if it did not move. */
  function Shifted(o: Override, rid: int, was: Instance): Instance {
    if o.start != rid then
      var start := was.start + (o.start - rid);
      Instance(FromOverride(o), start, start + (o.end - o.start), was.rid, false, false)
    else
      Instance(FromOverride(o), was.start, was.end, was.rid, false, false)
  }

  /** The instance at key `k` after a THISANDFUTURE override at `rid`. */
  function Later(o: Override, rid: int, k: int, was: Instance): Instance {
    if k > rid && !was.overridden then Shifted(o, rid, was) else was
  }

  /** The instance map after override `o` has taken the place `rid`. */
  function Merge(m: InstanceMap, o: Override, rid: int): InstanceMap {
    var m1 := m[rid := Overriding(o, rid)];
    if o.thisAndFuture
    then map k | k in m1 :: Later(o, rid, k, m1[k])
    else m1
  }

  predicate Exceeds(x: Context, count: nat) {
    x.maxInstances != 0 && count > x.maxInstances
  }

  function AddOverride(x: Context, m: InstanceMap, o: Override): Expansion {
    match Judge(x, m.Keys, o)
    case Skip => Instances(m)
    case Refuse(rid) => InvalidOverriddenInstance(rid)
    case Place(rid) => if Exceeds(x, |m.Keys + {rid}|) then TooManyInstances else Instances(Merge(m, o, rid))
  }

  function AddOverrides(x: Context, m: InstanceMap, os: seq<Override>): Expansion {
    if os == [] then Instances(m)
    else
      var e := AddOverrides(x, m, os[..|os| - 1]);
      if e.Instances? then AddOverride(x, e.instances, os[|os| - 1]) else e
  }

  function MasterInstance(m: Master, start: int): Instance {
    Instance(FromMaster, start, start + m.duration, start, false, false)
  }

  /** The master's own instances. */
  function Base(x: Context): InstanceMap
    requires ValidContext(x)
  {
    match x.master
    case None => map[]
    case Some(m) => map t | t in Starts(m, x.upper) :: MasterInstance(m, t)
  }

  function Expand(x: Context, os: seq<Override>): Expansion
    requires ValidContext(x)
  {
    if Exceeds(x, |Base(x).Keys|) then TooManyInstances else AddOverrides(x, Base(x), os)
  }

  // ----- What the merged map is, whatever the order of the overrides -----

  /** The overrides have distinct RECURRENCE-IDs and places, and none is refused. */
  ghost predicate Compatible(x: Context, keys: set<int>, os: seq<Override>) {
    && (forall i :: 0 <= i < |os| ==> !Judge(x, keys, os[i]).Refuse?)
    && (forall i, j :: 0 <= i < j < |os| ==> os[i].rid != os[j].rid)
    && (forall i, j :: 0 <= i < j < |os| && Placed(x, keys, os[i]) && Placed(x, keys, os[j]) ==>
          Judge(x, keys, os[i]) != Judge(x, keys, os[j]))
  }

  predicate Placed(x: Context, keys: set<int>, o: Override) {
    Judge(x, keys, o).Place?
  }

  /** `o` is placed at `k`. */
  predicate PlacedAt(x: Context, keys: set<int>, o: Override, k: int) {
    Judge(x, keys, o) == Place(k)
  }

  /** `o` is a THISANDFUTURE override placed before `k`. */
  predicate Shifts(x: Context, keys: set<int>, o: Override, k: int) {
    o.thisAndFuture && Placed(x, keys, o) && Judge(x, keys, o).rid < k
  }

  function Places(x: Context, keys: set<int>, os: seq<Override>): (s: set<int>)
    ensures forall k :: k in s <==> exists o :: o in os && PlacedAt(x, keys, o, k)
  {
    set o | o in os && Placed(x, keys, o) :: Judge(x, keys, o).rid
  }

  /** The master instance at `k`, moved by every THISANDFUTURE override before it in turn. */
  function ShiftAll(x: Context, keys: set<int>, os: seq<Override>, k: int, was: Instance): Instance {
    if os == [] then was
    else
      var o, moved := os[|os| - 1], ShiftAll(x, keys, os[..|os| - 1], k, was);
      if Shifts(x, keys, o, k) then Shifted(o, Judge(x, keys, o).rid, moved) else moved
  }

  /** Overridden keys hold their override; the other keys hold the master's instance, shifted. */
  ghost predicate IsMerged(x: Context, base: InstanceMap, os: seq<Override>, m: InstanceMap) {
    && m.Keys == base.Keys + Places(x, base.Keys, os)
    && (forall o, k :: o in os && PlacedAt(x, base.Keys, o, k) ==> m[k] == Overriding(o, k))
    && (forall k :: k in base.Keys && k !in Places(x, base.Keys, os) ==> m[k] == ShiftAll(x, base.Keys, os, k, base[k]))
  }

  ghost predicate MasterOnly(base: InstanceMap) {
    forall k :: k in base ==> base[k].rid == k && !base[k].overridden
  }

  lemma {:induction false} ShiftAllKeepsKey(x: Context, keys: set<int>, os: seq<Override>, k: int, was: Instance)
    ensures ShiftAll(x, keys, os, k, was).rid == was.rid
    ensures !was.overridden ==> !ShiftAll(x, keys, os, k, was).overridden
  {
    if os != [] { ShiftAllKeepsKey(x, keys, os[..|os| - 1], k, was); }
  }

  /** Overrides merged earlier do not change how an override is judged. */
  lemma JudgeIsStable(x: Context, keys: set<int>, os: seq<Override>, o: Override, grown: set<int>)
    requires Compatible(x, keys, os + [o]) && grown == keys + Places(x, keys, os)
    ensures Judge(x, grown, o) == Judge(x, keys, o)
  {
    var all := os + [o];
    assert forall i :: 0 <= i < |os| ==> all[i] == os[i] && all[i].rid != all[|os|].rid;
    assert forall p :: p in os && PlacedAt(x, keys, p, o.rid) ==> o.rid in keys;
    assert all[|os|] == o;
  }

  lemma CompatiblePrefix(x: Context, keys: set<int>, os: seq<Override>, o: Override)
    requires Compatible(x, keys, os + [o])
    ensures Compatible(x, keys, os) && !Judge(x, keys, o).Refuse?
    ensures forall k :: k in Places(x, keys, os) ==> !PlacedAt(x, keys, o, k)
  {
    var all := os + [o];
    assert forall i :: 0 <= i < |os| ==> all[i] == os[i];
    assert all[|os|] == o;
  }

  lemma PlacesAppend(x: Context, keys: set<int>, os: seq<Override>, o: Override)
    ensures Places(x, keys, os + [o]) ==
              Places(x, keys, os) + if Placed(x, keys, o) then {Judge(x, keys, o).rid} else {}
  {
    assert forall p :: p in os + [o] <==> p in os || p == o;
  }

  lemma MergeKeepsMerged(x: Context, base: InstanceMap, os: seq<Override>, o: Override, m: InstanceMap)
    requires MasterOnly(base) && Compatible(x, base.Keys, os + [o]) && IsMerged(x, base, os, m)
    requires Placed(x, base.Keys, o)
    ensures IsMerged(x, base, os + [o], Merge(m, o, Judge(x, base.Keys, o).rid))
  {
    hide Judge, Places, Compatible;
    var keys, rid, all := base.Keys, Judge(x, base.Keys, o).rid, os + [o];
    PlacesAppend(x, keys, os, o);
    MergeKeepsOverrides(x, base, os, o, m);
    assert all[..|all| - 1] == os && all[|all| - 1] == o;
    forall k | k in keys && k !in Places(x, keys, all)
      ensures Merge(m, o, rid)[k] == ShiftAll(x, keys, all, k, base[k])
    {
      ShiftAllKeepsKey(x, keys, os, k, base[k]);
    }
  }

  lemma MergeKeepsOverrides(x: Context, base: InstanceMap, os: seq<Override>, o: Override, m: InstanceMap)
    requires Compatible(x, base.Keys, os + [o]) && IsMerged(x, base, os, m) && Placed(x, base.Keys, o)
    ensures forall p, k :: p in os + [o] && PlacedAt(x, base.Keys, p, k) ==>
              k in m.Keys + {Judge(x, base.Keys, o).rid} &&
                Merge(m, o, Judge(x, base.Keys, o).rid)[k] == Overriding(p, k)
  {
    hide Judge, Places;
    var keys, rid := base.Keys, Judge(x, base.Keys, o).rid;
    CompatiblePrefix(x, keys, os, o);
    forall p, k | p in os + [o] && PlacedAt(x, keys, p, k)
      ensures k in m.Keys + {rid} && Merge(m, o, rid)[k] == Overriding(p, k)
    {
      assert p in os || p == o;
      if p in os { assert k in Places(x, keys, os); }
    }
  }

  lemma SkipKeepsMerged(x: Context, base: InstanceMap, os: seq<Override>, o: Override, m: InstanceMap)
    requires IsMerged(x, base, os, m) && Judge(x, base.Keys, o).Skip?
    ensures IsMerged(x, base, os + [o], m)
  {
    var keys, all := base.Keys, os + [o];
    PlacesAppend(x, keys, os, o);
    assert all[..|all| - 1] == os && all[|all| - 1] == o;
    assert forall p :: p in all <==> p in os || p == o;
  }

  lemma MergedKeys(x: Context, base: InstanceMap, os: seq<Override>)
    ensures forall m :: IsMerged(x, base, os, m) ==> m.Keys == base.Keys + Places(x, base.Keys, os)
  {
  }

  /** The limit is reported exactly when the final map would exceed it; otherwise the map is
      the merged one. */
  ghost predicate MergedOrTooMany(x: Context, base: InstanceMap, os: seq<Override>, e: Expansion) {
    if Exceeds(x, |base.Keys + Places(x, base.Keys, os)|) then e.TooManyInstances?
    else e.Instances? && IsMerged(x, base, os, e.instances)
  }

  lemma AddPlaced(x: Context, base: InstanceMap, os: seq<Override>, o: Override, m: InstanceMap, rid: int)
    requires Compatible(x, base.Keys, os + [o]) && IsMerged(x, base, os, m) && Judge(x, base.Keys, o) == Place(rid)
    ensures AddOverride(x, m, o) ==
              if Exceeds(x, |m.Keys + {rid}|) then TooManyInstances else Instances(Merge(m, o, rid))
  {
    hide Judge, Compatible, Places, Merge;
    MergedKeys(x, base, os);
    JudgeIsStable(x, base.Keys, os, o, m.Keys);
  }

  lemma KeysAfter(x: Context, base: InstanceMap, os: seq<Override>, o: Override, m: InstanceMap, rid: int)
    requires IsMerged(x, base, os, m) && Judge(x, base.Keys, o) == Place(rid)
    ensures m.Keys + {rid} == base.Keys + Places(x, base.Keys, os + [o])
  {
    hide Judge, Places;
    PlacesAppend(x, base.Keys, os, o);
  }

  lemma PlaceOneMore(x: Context, base: InstanceMap, os: seq<Override>, o: Override, m: InstanceMap, rid: int)
    requires MasterOnly(base) && Compatible(x, base.Keys, os + [o]) && IsMerged(x, base, os, m)
    requires Judge(x, base.Keys, o) == Place(rid)
    ensures MergedOrTooMany(x, base, os + [o], AddOverride(x, m, o))
  {
    hide Judge, Compatible, IsMerged, Merge, Places, AddOverride, MasterOnly;
    AddPlaced(x, base, os, o, m, rid);
    KeysAfter(x, base, os, o, m, rid);
    MergeKeepsMerged(x, base, os, o, m);
  }

  lemma SkipOneMore(x: Context, base: InstanceMap, os: seq<Override>, o: Override, m: InstanceMap)
    requires Compatible(x, base.Keys, os + [o]) && IsMerged(x, base, os, m)
    requires !Placed(x, base.Keys, o) && !Exceeds(x, |base.Keys + Places(x, base.Keys, os)|)
    ensures MergedOrTooMany(x, base, os + [o], AddOverride(x, m, o))
  {
    hide Judge, Compatible, IsMerged, Places;
    CompatiblePrefix(x, base.Keys, os, o);
    MergedKeys(x, base, os);
    JudgeIsStable(x, base.Keys, os, o, m.Keys);
    PlacesAppend(x, base.Keys, os, o);
    assert Places(x, base.Keys, os + [o]) == Places(x, base.Keys, os);
    SkipKeepsMerged(x, base, os, o, m);
  }

  lemma TooManyStays(x: Context, base: InstanceMap, os: seq<Override>, o: Override)
    requires Exceeds(x, |base.Keys + Places(x, base.Keys, os)|)
    ensures Exceeds(x, |base.Keys + Places(x, base.Keys, os + [o])|)
  {
    PlacesAppend(x, base.Keys, os, o);
    SubsetSize(base.Keys + Places(x, base.Keys, os), base.Keys + Places(x, base.Keys, os + [o]));
  }

  lemma OneMore(x: Context, base: InstanceMap, os: seq<Override>, o: Override, e: Expansion)
    requires MasterOnly(base) && Compatible(x, base.Keys, os + [o]) && MergedOrTooMany(x, base, os, e)
    ensures MergedOrTooMany(x, base, os + [o], if e.Instances? then AddOverride(x, e.instances, o) else e)
  {
    hide Judge, Compatible, IsMerged, AddOverride, Places, MasterOnly, Exceeds;
    if e.Instances? {
      if Judge(x, base.Keys, o).Place? {
        PlaceOneMore(x, base, os, o, e.instances, Judge(x, base.Keys, o).rid);
      } else {
        SkipOneMore(x, base, os, o, e.instances);
      }
    } else {
      TooManyStays(x, base, os, o);
    }
  }

  lemma NothingMerged(x: Context, base: InstanceMap)
    requires !Exceeds(x, |base.Keys|)
    ensures MergedOrTooMany(x, base, [], Instances(base))
  {
    assert base.Keys + Places(x, base.Keys, []) == base.Keys;
  }

  /** Merging is right: no override is refused, and the outcome is the merged map. */
  lemma {:induction false} AddOverridesMerges(x: Context, base: InstanceMap, os: seq<Override>)
    requires MasterOnly(base) && Compatible(x, base.Keys, os) && !Exceeds(x, |base.Keys|)
    ensures MergedOrTooMany(x, base, os, AddOverrides(x, base, os))
  {
    hide Compatible, MergedOrTooMany, AddOverride, MasterOnly, Exceeds;
    if os == [] {
      NothingMerged(x, base);
    } else {
      var pre, o := os[..|os| - 1], os[|os| - 1];
      assert os == pre + [o];
      CompatiblePrefix(x, base.Keys, pre, o);
      AddOverridesMerges(x, base, pre);
      OneMore(x, base, pre, o, AddOverrides(x, base, pre));
    }
  }

  lemma {:induction false} SubsetSize<T>(a: set<T>, b: set<T>)
    requires a <= b
    ensures |a| <= |b|
  {
    assert b == a + (b - a);
  }

  // ----- The order of the overrides -----

  /** The same overrides, each once, in any order. */
  ghost predicate SameOverrides(os: seq<Override>, other: seq<Override>) {
    && (forall o :: o in os <==> o in other)
    && (forall i, j :: 0 <= i < j < |other| ==> other[i].rid != other[j].rid)
  }

  /** No instance that keeps the master's place lies beyond two THISANDFUTURE overrides. */
  ghost predicate AtMostOneShift(x: Context, base: InstanceMap, os: seq<Override>) {
    forall k, c, d ::
      (k in base.Keys && k !in Places(x, base.Keys, os) && c in os && d in os &&
       Shifts(x, base.Keys, c, k) && Shifts(x, base.Keys, d, k)) ==> c == d
  }

  ghost predicate Confluent(x: Context, base: InstanceMap, os: seq<Override>) {
    forall other :: SameOverrides(os, other) ==> AddOverrides(x, base, other) == AddOverrides(x, base, os)
  }

  lemma CompatibleInAnyOrder(x: Context, keys: set<int>, os: seq<Override>, other: seq<Override>)
    requires Compatible(x, keys, os) && SameOverrides(os, other)
    ensures Compatible(x, keys, other) && Places(x, keys, other) == Places(x, keys, os)
  {
    hide Judge, Places;
    forall i | 0 <= i < |other| ensures !Judge(x, keys, other[i]).Refuse? {
      assert other[i] in os;
    }
    forall i, j | 0 <= i < j < |other| && Placed(x, keys, other[i]) && Placed(x, keys, other[j])
      ensures Judge(x, keys, other[i]) != Judge(x, keys, other[j])
    {
      assert other[i] in os && other[j] in os && other[i] != other[j];
    }
  }

  lemma {:induction false} ShiftAllNone(x: Context, keys: set<int>, os: seq<Override>, k: int, was: Instance)
    requires forall o :: o in os ==> !Shifts(x, keys, o, k)
    ensures ShiftAll(x, keys, os, k, was) == was
  {
    if os != [] {
      assert os[|os| - 1] in os;
      ShiftAllNone(x, keys, os[..|os| - 1], k, was);
    }
  }

  lemma {:induction false} ShiftAllOne(x: Context, keys: set<int>, os: seq<Override>, k: int, was: Instance, i: nat)
    requires i < |os| && Shifts(x, keys, os[i], k)
    requires forall j :: 0 <= j < |os| && j != i ==> !Shifts(x, keys, os[j], k)
    ensures ShiftAll(x, keys, os, k, was) == Shifted(os[i], Judge(x, keys, os[i]).rid, was)
  {
    hide Judge;
    if i == |os| - 1 {
      ShiftAllNone(x, keys, os[..i], k, was);
    } else {
      ShiftAllOne(x, keys, os[..|os| - 1], k, was, i);
    }
  }

  /** Which override shifts an instance, when at most one does, does not depend on the order. */
  lemma ShiftAllInAnyOrder(x: Context, base: InstanceMap, os: seq<Override>, other: seq<Override>, k: int)
    requires Compatible(x, base.Keys, os) && SameOverrides(os, other) && AtMostOneShift(x, base, os)
    requires k in base.Keys && k !in Places(x, base.Keys, os)
    ensures ShiftAll(x, base.Keys, other, k, base[k]) == ShiftAll(x, base.Keys, os, k, base[k])
  {
    hide Judge, Places, Shifts;
    var keys := base.Keys;
    if c :| c in os && Shifts(x, keys, c, k) {
      var i :| 0 <= i < |os| && os[i] == c;
      var j :| 0 <= j < |other| && other[j] == c;
      ShiftAllOne(x, keys, os, k, base[k], i);
      assert forall q :: 0 <= q < |other| && q != j ==> other[q] != c && other[q] in os;
      ShiftAllOne(x, keys, other, k, base[k], j);
    } else {
      ShiftAllNone(x, keys, os, k, base[k]);
      ShiftAllNone(x, keys, other, k, base[k]);
    }
  }

  lemma MergedMapsAgree(x: Context, base: InstanceMap, os: seq<Override>, other: seq<Override>, m: InstanceMap,
                        n: InstanceMap)
    requires Compatible(x, base.Keys, os) && SameOverrides(os, other) && AtMostOneShift(x, base, os)
    requires IsMerged(x, base, os, m) && IsMerged(x, base, other, n)
    ensures m == n
  {
    hide Judge, Compatible, AtMostOneShift;
    CompatibleInAnyOrder(x, base.Keys, os, other);
    assert m.Keys == n.Keys;
    forall k | k in m.Keys
      ensures m[k] == n[k]
    {
      if k in Places(x, base.Keys, os) {
        var o :| o in os && PlacedAt(x, base.Keys, o, k);
        assert o in other;
      } else {
        ShiftAllInAnyOrder(x, base, os, other, k);
      }
    }
  }

  lemma OneShiftIsConfluent(x: Context, base: InstanceMap, os: seq<Override>, other: seq<Override>)
    requires MasterOnly(base) && Compatible(x, base.Keys, os) && !Exceeds(x, |base.Keys|)
    requires SameOverrides(os, other) && AtMostOneShift(x, base, os)
    ensures AddOverrides(x, base, other) == AddOverrides(x, base, os)
  {
    hide Judge, Compatible, SameOverrides, AtMostOneShift, IsMerged, Places, AddOverrides, MasterOnly;
    CompatibleInAnyOrder(x, base.Keys, os, other);
    AddOverridesMerges(x, base, os);
    AddOverridesMerges(x, base, other);
    var e, f := AddOverrides(x, base, os), AddOverrides(x, base, other);
    if e.Instances? {
      MergedMapsAgree(x, base, os, other, e.instances, f.instances);
    }
  }

  /** The overrides with the i-th one moved to the end. */
  function MoveLast(os: seq<Override>, i: nat): seq<Override>
    requires i < |os|
  {
    os[..i] + os[i + 1..] + [os[i]]
  }

  lemma MoveLastIsSame(os: seq<Override>, i: nat)
    requires i < |os| && forall p, q :: 0 <= p < q < |os| ==> os[p].rid != os[q].rid
    ensures SameOverrides(os, MoveLast(os, i))
  {
    var other := MoveLast(os, i);
    forall o | o in os ensures o in other {
      var p :| 0 <= p < |os| && os[p] == o;
      if p < i {
        assert other[p] == o;
      } else if p > i {
        assert other[p - 1] == o;
      } else {
        assert other[|os| - 1] == o;
      }
    }
  }

  /** Two orders that end in different THISANDFUTURE overrides leave an instance beyond both
      with different components. */
  lemma LastShiftWins(x: Context, base: InstanceMap, os: seq<Override>, i: nat, k: int)
    requires MasterOnly(base) && Compatible(x, base.Keys, os) && !Exceeds(x, |base.Keys + Places(x, base.Keys, os)|)
    requires !Exceeds(x, |base.Keys|)
    requires i < |os| && Shifts(x, base.Keys, os[i], k) && k in base.Keys && k !in Places(x, base.Keys, os)
    ensures var e := AddOverrides(x, base, MoveLast(os, i));
            e.Instances? && k in e.instances && e.instances[k].component == FromOverride(os[i])
  {
    hide Judge, Places, Exceeds;
    var other := MoveLast(os, i);
    MoveLastIsSame(os, i);
    CompatibleInAnyOrder(x, base.Keys, os, other);
    hide Compatible, SameOverrides, AddOverrides;
    AddOverridesMerges(x, base, other);
    assert other[|other| - 1] == os[i] && other[..|other| - 1] == os[..i] + os[i + 1..];
  }

  /** Merging does not depend on the order of the overrides exactly when no instance lies
      beyond two THISANDFUTURE overrides. */
  lemma ConfluentExactly(x: Context, base: InstanceMap, os: seq<Override>)
    requires MasterOnly(base) && Compatible(x, base.Keys, os)
    requires !Exceeds(x, |base.Keys|) && !Exceeds(x, |base.Keys + Places(x, base.Keys, os)|)
    ensures Confluent(x, base, os) <==> AtMostOneShift(x, base, os)
  {
    hide Judge, Places, Exceeds, AddOverrides, MasterOnly;
    if AtMostOneShift(x, base, os) {
      forall other | SameOverrides(os, other) ensures AddOverrides(x, base, other) == AddOverrides(x, base, os) {
        OneShiftIsConfluent(x, base, os, other);
      }
    } else {
      var k, c, d :| k in base.Keys && k !in Places(x, base.Keys, os) && c in os && d in os &&
                     Shifts(x, base.Keys, c, k) && Shifts(x, base.Keys, d, k) && c != d;
      var i :| 0 <= i < |os| && os[i] == c;
      var j :| 0 <= j < |os| && os[j] == d;
      LastShiftWins(x, base, os, i, k);
      LastShiftWins(x, base, os, j, k);
      MoveLastIsSame(os, i);
      MoveLastIsSame(os, j);
    }
  }

  /** A series every 10 seconds, and two THISANDFUTURE overrides of it whose order matters. */
  const TWO_SHIFTS_SERIES := Master(0, 1, Some(RRule(10, Forever)), [], [], false)
  const TWO_SHIFTS := [Override(10, 11, 12, true, false, true), Override(20, 22, 23, true, false, true)]

  lemma TwoShiftsStarts()
    ensures InSet(TWO_SHIFTS_SERIES, 10) && InSet(TWO_SHIFTS_SERIES, 20) && InSet(TWO_SHIFTS_SERIES, 30)
  {
    var r := RRule(10, Forever);
    assert InRule(30, r, 30) && InRule(20, r, 20) && InRule(10, r, 10);
    assert InRule(20, r, 30) && InRule(10, r, 20) && InRule(0, r, 10);
    assert InRule(10, r, 30) && InRule(0, r, 20);
    assert InRule(0, r, 30);
  }

  lemma TwoShiftsDisagree()
    ensures var x := Context(Some(TWO_SHIFTS_SERIES), 40, false, 0);
            Compatible(x, Base(x).Keys, TWO_SHIFTS) && !Confluent(x, Base(x), TWO_SHIFTS)
  {
    hide InRule, InSet, Starts, Confluent;
    var x := Context(Some(TWO_SHIFTS_SERIES), 40, false, 0);
    var keys := Base(x).Keys;
    var a, b := TWO_SHIFTS[0], TWO_SHIFTS[1];
    TwoShiftsStarts();
    assert 10 in keys && 20 in keys && 30 in keys;
    assert Judge(x, keys, a) == Place(10) && Judge(x, keys, b) == Place(20);
    hide Judge, Base;
    assert Shifts(x, keys, a, 30) && Shifts(x, keys, b, 30);
    ConfluentExactly(x, Base(x), TWO_SHIFTS);
  }

  // ----- Whole expansions -----

  /** An expansion whose overrides are compatible reports the limit exactly when the final map
      exceeds it, and otherwise yields the merged map. */
  lemma ExpandMerges(x: Context, os: seq<Override>)
    requires ValidContext(x) && Compatible(x, Base(x).Keys, os)
    ensures MergedOrTooMany(x, Base(x), os, Expand(x, os))
    ensures Expand(x, os).TooManyInstances? <==>
              x.maxInstances > 0 && |Base(x).Keys + Places(x, Base(x).Keys, os)| > x.maxInstances
  {
    hide Judge, Compatible, Places, AddOverrides, IsMerged, Starts;
    if Exceeds(x, |Base(x).Keys|) {
      SubsetSize(Base(x).Keys, Base(x).Keys + Places(x, Base(x).Keys, os));
    } else {
      AddOverridesMerges(x, Base(x), os);
    }
  }

  /** What each key of a merged map holds when no instance lies beyond two THISANDFUTURE
      overrides: its override with its times; or the master's instance, with its times or those
      that the one THISANDFUTURE override before it gives it. */
  lemma MergedValues(x: Context, base: InstanceMap, os: seq<Override>, m: InstanceMap, k: int)
    requires MasterOnly(base) && Compatible(x, base.Keys, os) && AtMostOneShift(x, base, os)
    requires IsMerged(x, base, os, m) && k in m
    ensures m[k].rid == k && (m[k].overridden <==> k in Places(x, base.Keys, os))
    ensures forall o :: o in os && PlacedAt(x, base.Keys, o, k) ==>
              && m[k].component == FromOverride(o) && m[k].future == o.thisAndFuture
              && m[k].start == o.start && m[k].end == o.end
    ensures k !in Places(x, base.Keys, os) ==>
              k in base && forall o :: o in os && Shifts(x, base.Keys, o, k) ==> IsShifted(x, base, o, k, m[k])
    ensures k !in Places(x, base.Keys, os) && (forall o :: o in os ==> !Shifts(x, base.Keys, o, k)) ==> m[k] == base[k]
  {
    hide Judge, Places;
    if k in Places(x, base.Keys, os) {
      var o :| o in os && PlacedAt(x, base.Keys, o, k);
      assert m[k] == Overriding(o, k);
    } else {
      ShiftAllKeepsKey(x, base.Keys, os, k, base[k]);
      if forall o :: o in os ==> !Shifts(x, base.Keys, o, k) {
        ShiftAllNone(x, base.Keys, os, k, base[k]);
      }
      forall o | o in os && Shifts(x, base.Keys, o, k)
        ensures IsShifted(x, base, o, k, m[k])
      {
        var i :| 0 <= i < |os| && os[i] == o;
        ShiftAllOne(x, base.Keys, os, k, base[k], i);
      }
    }
  }

  /** A later instance takes the component of the override. If the override moved its instance,
      it is moved by as much and lasts as long as the override; otherwise its times stay. */
  ghost predicate IsShifted(x: Context, base: InstanceMap, o: Override, k: int, i: Instance)
    requires k in base && Placed(x, base.Keys, o)
  {
    var moved := o.start - Judge(x, base.Keys, o).rid;
    && i.component == FromOverride(o) && !i.future
    && (moved != 0 ==> i.start - base[k].start == moved && i.end - i.start == o.end - o.start)
    && (moved == 0 ==> i.start == base[k].start && i.end == base[k].end)
  }

  lemma BaseAt(x: Context, k: int)
    requires ValidContext(x)
    ensures MasterOnly(Base(x))
    ensures k in Base(x) ==>
              && x.master.Some? && k < x.upper && InSet(x.master.value, k)
              && Base(x)[k].component == FromMaster && !Base(x)[k].future
              && Base(x)[k].start == k && Base(x)[k].end == k + x.master.value.duration
  {
  }

  /** The times in a whole expansion: overridden keys have those of their override; all others
      begin at their key and last as long as the master's instances, but for what IsShifted says
      of those after a THISANDFUTURE override. */
  lemma ExpandedTimes(x: Context, os: seq<Override>, m: InstanceMap, k: int)
    requires ValidContext(x) && Compatible(x, Base(x).Keys, os) && AtMostOneShift(x, Base(x), os)
    requires Expand(x, os) == Instances(m) && k in m
    ensures m[k].rid == k
    ensures forall o :: o in os && PlacedAt(x, Base(x).Keys, o, k) ==>
              m[k].component == FromOverride(o) && m[k].start == o.start && m[k].end == o.end
    ensures k !in Places(x, Base(x).Keys, os) ==>
              && x.master.Some? && k < x.upper && InSet(x.master.value, k)
              && Base(x)[k].start == k && Base(x)[k].end == k + x.master.value.duration
              && (forall o :: o in os && Shifts(x, Base(x).Keys, o, k) ==> IsShifted(x, Base(x), o, k, m[k]))
              && ((forall o :: o in os ==> !Shifts(x, Base(x).Keys, o, k)) ==>
                    && m[k].component == FromMaster && !m[k].overridden && !m[k].future
                    && m[k].start == k && m[k].end == k + x.master.value.duration)
  {
    hide Judge, Compatible, Places, AtMostOneShift, Shifts, IsShifted, Expand, Base, InSet, IsMerged, MasterOnly;
    var base := Base(x);
    ExpandMerges(x, os);
    BaseAt(x, k);
    MergedValues(x, base, os, m, k);
  }

  /** Where an override is placed: at its RECURRENCE-ID, if there is an instance, or no master, or
      one of the two is cancelled, or the limit is reached; or else, if that is a midnight, at the
      instance of the same day that has the time of day of DTSTART. */
  lemma PlacedExactly(x: Context, keys: set<int>, o: Override, k: int)
    ensures PlacedAt(x, keys, o, k) <==>
              && (o.start <= x.upper || o.rid <= x.upper)
              && if x.master.None? || o.rid in keys || o.rid >= x.upper || x.master.value.cancelled || o.cancelled
                 then k == o.rid
                 else && !x.ignoreInvalid && o.isEvent && o.rid % DAY == 0
                      && k in keys && k / DAY == o.rid / DAY && k % DAY == x.master.value.dtstart % DAY
  {
    if x.master.Some? && o.rid % DAY == 0 {
      var t := x.master.value.dtstart % DAY;
      assert (o.rid + t) / DAY == o.rid / DAY && (o.rid + t) % DAY == t;
    }
  }

  // ----- The instance list as the source writes it -----

  datatype Status = Ok | RaisedTooMany | RaisedInvalid(rid: int)

  function Outcome(r: Status, m: InstanceMap): Expansion {
    match r
    case Ok => Instances(m)
    case RaisedTooMany => TooManyInstances
    case RaisedInvalid(rid) => InvalidOverriddenInstance(rid)
  }

  function Least(s: set<int>): (k: int)
    requires s != {}
    ensures k in s && forall j :: j in s ==> k <= j
  {
    assert exists k :: k in s && forall j :: j in s ==> k <= j by { HasLeast(s); }
    var k :| k in s && forall j :: j in s ==> k <= j;
    k
  }

  lemma HasLeast(s: set<int>)
    requires s != {}
    ensures exists k :: k in s && forall j :: j in s ==> k <= j
  {
    var k := LeastExists(s);
  }

  lemma {:induction false} LeastExists(s: set<int>) returns (k: int)
    requires s != {}
    ensures k in s && forall j :: j in s ==> k <= j
  {
    k := Pick(s);
    if s != {k} {
      var least := LeastExists(s - {k});
      assert forall j :: j in s ==> j == k || j in s - {k};
      k := if k <= least then k else least;
    }
  }

  lemma SameSize(m: InstanceMap, n: InstanceMap)
    requires m.Keys == n.Keys
    ensures |m| == |n|
  {
    assert |m| == |m.Keys| == |n.Keys| == |n|;
  }

  class InstanceList {
    var instances: InstanceMap
    var limit: Option<int>
    const ignoreInvalidInstances: bool
    const maxAllowedInstances: nat

    constructor (ignoreInvalidInstances: bool, maxAllowedInstances: nat)
      ensures instances == map[] && limit == None
      ensures this.ignoreInvalidInstances == ignoreInvalidInstances && this.maxAllowedInstances == maxAllowedInstances
    {
      this.ignoreInvalidInstances, this.maxAllowedInstances := ignoreInvalidInstances, maxAllowedInstances;
      instances, limit := map[], None;
    }

    function Running(master: Option<Master>, upper: int): Context {
      Context(master, upper, ignoreInvalidInstances, maxAllowedInstances)
    }

    /** Expands a recurring set. `expanded` and `limited` are what the library's expansion of the
        master yields. The status says whether an exception ended the expansion. */
    method ExpandTimeRanges(master: Option<Master>, overrides: seq<Override>, upper: int, expanded: seq<int>,
                            limited: bool)
      returns (r: Status)
      requires instances == map[] && limit == None
      requires master.Some? ==> ValidMaster(master.value)
      requires master.Some? ==>
                 IsExpansion(master.value, upper, Members(expanded), !limited) && |Members(expanded)| == |expanded|
      modifies this
      ensures Outcome(r, instances) == Expand(Running(master, upper), overrides)
      ensures r.Ok? ==> limit == if master.Some? && limited then Some(upper) else None
    {
      r := Ok;
      if master.Some? {
        r := AddMasterComponent(master.value, upper, expanded, limited);
      } else {
        assert |Base(Running(master, upper)).Keys| == 0;
      }
      if r.Ok? {
        hide Base, AddOverrides;
        r := AddOverrideComponents(overrides, upper, master);
      }
    }

    method AddOverrideComponents(overrides: seq<Override>, upper: int, master: Option<Master>) returns (r: Status)
      requires forall k :: k in instances ==> instances[k].rid == k
      modifies this
      ensures Outcome(r, instances) == AddOverrides(Running(master, upper), old(instances), overrides)
      ensures limit == old(limit)
    {
      ghost var x, base := Running(master, upper), instances;
      r := Ok;
      var i := 0;
      while i < |overrides|
        invariant 0 <= i <= |overrides| && r.Ok?
        invariant AddOverrides(x, base, overrides[..i]) == Instances(instances)
        invariant forall k :: k in instances ==> instances[k].rid == k
        invariant limit == old(limit)
      {
        hide AddOverride, AddOverrides;
        AddOverridesStep(x, base, overrides, i);
        r := AddOverrideComponent(overrides[i], upper, master);
        if !r.Ok? {
          RaisedStays(x, base, overrides, i + 1);
          return;
        }
        i := i + 1;
      }
      assert overrides[..i] == overrides;
    }

    method AddInstance(instance: Instance) returns (tooMany: bool)
      modifies this`instances
      ensures instances == old(instances)[instance.rid := instance]
      ensures tooMany <==> maxAllowedInstances != 0 && |instances| > maxAllowedInstances
    {
      instances := instances[instance.rid := instance];
      tooMany := maxAllowedInstances != 0 && |instances| > maxAllowedInstances;
    }

    method AddMasterComponent(master: Master, upper: int, expanded: seq<int>, limited: bool) returns (r: Status)
      requires instances == map[] && limit == None && ValidMaster(master)
      requires IsExpansion(master, upper, Members(expanded), !limited) && |Members(expanded)| == |expanded|
      modifies this
      ensures var x := Running(Some(master), upper); r == if Exceeds(x, |Base(x).Keys|) then RaisedTooMany else Ok
      ensures r.Ok? ==> instances == Base(Running(Some(master), upper))
      ensures r.Ok? ==> limit == if limited then Some(upper) else None
    {
      hide InSet, Starts;
      ghost var x := Running(Some(master), upper);
      ghost var all := Members(expanded);
      ExpansionIsBase(x, all, !limited);
      var i := 0;
      while i < |expanded|
        invariant 0 <= i <= |expanded|
        invariant instances.Keys == Members(expanded[..i]) && !Exceeds(x, |instances.Keys|)
        invariant forall t :: t in instances ==> instances[t] == MasterInstance(master, t)
        invariant limit == None
      {
        var tooMany := AddInstance(MasterInstance(master, expanded[i]));
        MembersOfPrefix(expanded, i);
        SubsetSize(instances.Keys, all);
        if tooMany {
          return RaisedTooMany;
        }
        i := i + 1;
      }
      assert expanded[..i] == expanded;
      assert instances == Base(x);
      if limited {
        limit := Some(upper);
      }
      r := Ok;
    }

    /** Whether the override counts, and at which RECURRENCE-ID. */
    method FindPlace(component: Override, upper: int, master: Option<Master>) returns (v: Verdict)
      ensures v == Judge(Running(master, upper), instances.Keys, component)
    {
      var rid := component.rid;
      if component.start > upper && rid > upper {
        return Skip;
      }
      if master.Some? && rid !in instances && rid < upper {
        if master.value.cancelled || component.cancelled {
        } else if ignoreInvalidInstances {
          return Skip;
        } else if component.isEvent && rid % DAY == 0 {
          rid := component.rid + master.value.dtstart % DAY;
          if rid !in instances {
            return Refuse(rid);
          }
        } else {
          return Refuse(rid);
        }
      }
      v := Place(rid);
    }

    method AddOverrideComponent(component: Override, upper: int, master: Option<Master>) returns (r: Status)
      requires forall k :: k in instances ==> instances[k].rid == k
      modifies this
      ensures AddOverride(Running(master, upper), old(instances), component) == Outcome(r, instances)
      ensures r.Ok? ==> forall k :: k in instances ==> instances[k].rid == k
      ensures limit == old(limit)
    {
      hide Judge;
      var verdict := FindPlace(component, upper, master);
      if verdict.Skip? {
        return Ok;
      } else if verdict.Refuse? {
        return RaisedInvalid(verdict.rid);
      }
      var rid := verdict.rid;
      var tooMany := AddInstance(Overriding(component, rid));
      assert instances.Keys == old(instances).Keys + {rid};
      if tooMany {
        return RaisedTooMany;
      }
      if component.thisAndFuture {
        ShiftLater(component, rid);
      }
      r := Ok;
    }

    /** The loop over the instances after a THISANDFUTURE override. No key is new, so that none
        is one too many. */
    method ShiftLater(component: Override, rid: int)
      requires forall k :: k in instances ==> instances[k].rid == k
      requires maxAllowedInstances == 0 || |instances| <= maxAllowedInstances
      modifies this`instances
      ensures instances.Keys == old(instances).Keys
      ensures forall k :: k in instances ==> instances[k] == Later(component, rid, k, old(instances)[k])
      ensures forall k :: k in instances && (k <= rid || old(instances)[k].overridden) ==>
                instances[k] == old(instances)[k]
      ensures forall k :: k in instances && k > rid && !old(instances)[k].overridden ==>
                var i, was, moved := instances[k], old(instances)[k], component.start - rid;
                && i.component == FromOverride(component) && i.rid == k && !i.overridden
                && (moved != 0 ==> i.start - was.start == moved && i.end - i.start == component.end - component.start)
                && (moved == 0 ==> i.start == was.start && i.end == was.end)
    {
      var timeShift := component.start != rid;
      var offsetTime, newDuration := component.start - rid, component.end - component.start;
      var later := set k | k in instances && k > rid;
      while later != {}
        invariant instances.Keys == old(instances).Keys
        invariant forall k :: k in later ==> k in instances && k > rid
        invariant forall k :: k in later ==> instances[k] == old(instances)[k]
        invariant forall k :: k in instances && k !in later ==>
                    instances[k] == Later(component, rid, k, old(instances)[k])
        decreases |later|
      {
        var key := Least(later);
        later := later - {key};
        SameSize(instances, old(instances));
        if !instances[key].overridden {
          ShiftOne(component, rid, key, timeShift, offsetTime, newDuration);
        }
      }
    }

    /** One turn of the loop. */
    method ShiftOne(component: Override, rid: int, key: int, timeShift: bool, offsetTime: int, newDuration: int)
      requires key in instances && instances[key].rid == key && key > rid && !instances[key].overridden
      requires maxAllowedInstances == 0 || |instances| <= maxAllowedInstances
      requires timeShift == (component.start != rid) && offsetTime == component.start - rid
      requires newDuration == component.end - component.start
      modifies this`instances
      ensures instances == old(instances)[key := Later(component, rid, key, old(instances)[key])]
    {
      var oldInstance := instances[key];
      var start, end := oldInstance.start, oldInstance.end;
      if timeShift {
        start := start + offsetTime;
        end := start + newDuration;
      }
      var tooMany := AddInstance(Instance(FromOverride(component), start, end, oldInstance.rid, false, false));
      SameSize(instances, old(instances));
      assert !tooMany;
    }
  }

  lemma ExpansionIsBase(x: Context, starts: set<int>, complete: bool)
    requires ValidContext(x) && x.master.Some? && IsExpansion(x.master.value, x.upper, starts, complete)
    ensures Base(x).Keys == starts && forall t :: t in Base(x) ==> Base(x)[t] == MasterInstance(x.master.value, t)
  {
    hide InSet;
    assert forall t :: t in Starts(x.master.value, x.upper) <==> t in starts;
  }

  lemma MembersOfPrefix(s: seq<int>, i: nat)
    requires i < |s|
    ensures Members(s[..i + 1]) == Members(s[..i]) + {s[i]} && Members(s[..i + 1]) <= Members(s)
  {
    assert s[..i + 1] == s[..i] + [s[i]];
  }

  lemma AddOverridesStep(x: Context, m: InstanceMap, os: seq<Override>, i: nat)
    requires i < |os| && AddOverrides(x, m, os[..i]).Instances?
    ensures AddOverrides(x, m, os[..i + 1]) == AddOverride(x, AddOverrides(x, m, os[..i]).instances, os[i])
  {
    hide AddOverride;
    assert os[..i + 1][..i] == os[..i] && os[..i + 1][i] == os[i];
  }

  /** An exception raised by one override ends the expansion. */
  lemma {:induction false} RaisedStays(x: Context, m: InstanceMap, os: seq<Override>, i: nat)
    requires i <= |os| && !AddOverrides(x, m, os[..i]).Instances?
    ensures AddOverrides(x, m, os) == AddOverrides(x, m, os[..i])
  {
    if i < |os| {
      assert os[..|os| - 1][..i] == os[..i];
      RaisedStays(x, m, os[..|os| - 1], i);
    } else {
      assert os[..i] == os;
    }
  }
}
