/** The recurring calendar object of twistedcaldav/ical.py: a master, its overrides and the
    cached expansion, with the operations that read, fill, use and invalidate that cache. */
module Calendar {
  import opened Collections
  import opened Recurrence
  import opened Instances
  import opened SeriesSplit

  const YEAR := 365 * DAY

  /** The iCalendar library's expansion of a master: the starts below a limit in any order, and
      whether the limit cut any off. */
  datatype Library = Library(expand: (Master, int) -> (seq<int>, bool))

  ghost predicate Sound(library: Library) {
    forall m: Master, limit: int :: ValidMaster(m) ==>
      var (starts, limited) := library.expand(m, limit);
      IsExpansion(m, limit, Recurrence.Members(starts), !limited) && |Recurrence.Members(starts)| == |starts|
  }

  /** A cached expansion; a `limit` of None means that it is complete. */
  datatype Cached = Cached(instances: InstanceMap, limit: Option<int>)

  /** The cached expansion is complete, or goes beyond `limit`. */
  predicate Reaches(c: Option<Cached>, limit: int) {
    c.Some? && (c.value.limit.None? || limit < c.value.limit.value)
  }

  ghost predicate DistinctIds(os: seq<Override>) {
    forall i, j :: 0 <= i < j < |os| ==> os[i].rid != os[j].rid
  }

  /** The keys an expansion is to have: the recurrence set and the cancelled overrides. */
  ghost predicate IsKey(m: Master, os: seq<Override>, t: int)
    requires ValidMaster(m)
  {
    InSet(m, t) || exists o :: o in os && o.rid == t && (m.cancelled || o.cancelled)
  }

  /** Every override counts: its RECURRENCE-ID is in the recurrence set, or it is cancelled. */
  ghost predicate AllIdsValid(m: Master, os: seq<Override>)
    requires ValidMaster(m)
  {
    forall o :: o in os ==> IsKey(m, os, o.rid)
  }

  /** An expansion that is trusted below its limit, or everywhere if it is complete. */
  ghost predicate Faithful(c: Cached, m: Master, os: seq<Override>)
    requires ValidMaster(m)
  {
    forall t :: (c.limit.Some? ==> t < c.limit.value) ==> (t in c.instances <==> IsKey(m, os, t))
  }

  // ----- Expansions have exactly the keys of the recurrence set -----

  lemma OverridesAreCompatible(x: Context, m: Master, os: seq<Override>)
    requires x.master == Some(m) && ValidMaster(m) && DistinctIds(os)
    requires x.ignoreInvalid || AllIdsValid(m, os)
    ensures Compatible(x, Base(x).Keys, os)
    ensures forall o, k :: o in os && PlacedAt(x, Base(x).Keys, o, k) ==> k == o.rid
    ensures forall o :: o in os && o.rid < x.upper ==>
              (Placed(x, Base(x).Keys, o) <==> InSet(m, o.rid) || m.cancelled || o.cancelled)
  {
    var keys := Base(x).Keys;
    assert forall t :: t in keys <==> InSet(m, t) && t < x.upper;
    hide InSet;
    forall o | o in os
      ensures Judge(x, keys, o) == Skip || Judge(x, keys, o) == Place(o.rid)
      ensures o.rid < x.upper ==> (Placed(x, keys, o) <==> InSet(m, o.rid) || m.cancelled || o.cancelled)
    {
      JudgeCounts(x, m, os, keys, o);
    }
    assert forall i :: 0 <= i < |os| ==> os[i] in os;
  }

  lemma JudgeCounts(x: Context, m: Master, os: seq<Override>, keys: set<int>, o: Override)
    requires x.master == Some(m) && ValidMaster(m) && DistinctIds(os) && o in os
    requires x.ignoreInvalid || AllIdsValid(m, os)
    requires forall t :: t in keys <==> InSet(m, t) && t < x.upper
    ensures Judge(x, keys, o) == Skip || Judge(x, keys, o) == Place(o.rid)
    ensures o.rid < x.upper ==> (Placed(x, keys, o) <==> InSet(m, o.rid) || m.cancelled || o.cancelled)
  {
    if !x.ignoreInvalid {
      assert IsKey(m, os, o.rid);
    }
  }

  /** A merged expansion has exactly the expected keys below its limit, and, if it is complete
      and no override lies beyond it, everywhere. */
  lemma MergedIsFaithful(x: Context, m: Master, os: seq<Override>, instances: InstanceMap, complete: bool)
    requires x.master == Some(m) && ValidMaster(m) && DistinctIds(os)
    requires x.ignoreInvalid || AllIdsValid(m, os)
    requires IsMerged(x, Base(x), os, instances)
    requires complete ==> (forall t :: InSet(m, t) ==> t < x.upper) && (forall o :: o in os ==> o.rid < x.upper)
    ensures Faithful(Cached(instances, if complete then None else Some(x.upper)), m, os)
  {
    OverridesAreCompatible(x, m, os);
    var keys := Base(x).Keys;
    assert forall t :: t in keys <==> InSet(m, t) && t < x.upper;
    hide InSet, Compatible, Starts;
    forall t | t < x.upper || complete
      ensures t in instances <==> IsKey(m, os, t)
    {
      assert t in instances <==> t in keys || exists o :: o in os && PlacedAt(x, keys, o, t);
      if o :| o in os && o.rid == t && (m.cancelled || o.cancelled) {
        assert PlacedAt(x, keys, o, t);
      }
    }
  }

  ghost predicate ValidIds(m: Master, os: seq<Override>)
    requires ValidMaster(m)
  {
    forall o :: o in os ==> InSet(m, o.rid)
  }

  /** The expansion the cache stores is faithful when all override ids are valid, or when
      invalid ones are ignored and none lies beyond the limit. */
  lemma ExpansionIsFaithful(x: Context, m: Master, os: seq<Override>, starts: set<int>, limited: bool,
                            instances: InstanceMap)
    requires x.master == Some(m) && ValidMaster(m) && DistinctIds(os)
    requires ValidIds(m, os) || (x.ignoreInvalid && forall o :: o in os ==> o.rid < x.upper)
    requires IsExpansion(m, x.upper, starts, !limited)
    requires Expand(x, os) == Instances(instances)
    ensures Faithful(Cached(instances, if limited then Some(x.upper) else None), m, os)
  {
    hide InSet, Compatible, Expand, IsMerged, Faithful, Base;
    OverridesAreCompatible(x, m, os);
    ExpandMerges(x, os);
    MergedIsFaithful(x, m, os, instances, !limited);
  }

  lemma FaithfulUpTo(c: Cached, m: Master, os: seq<Override>, limit: int)
    requires ValidMaster(m) && Faithful(c, m, os) && Reaches(Some(c), limit)
    ensures forall t :: t <= limit ==> (t in c.instances <==> IsKey(m, os, t))
  {
  }

  // ----- Lists the operations rewrite -----

  /** The overrides whose RECURRENCE-ID satisfies `keep`. */
  function KeepIds(os: seq<Override>, keep: int -> bool): (r: seq<Override>)
    ensures forall o :: o in r <==> o in os && keep(o.rid)
  {
    if os == [] then [] else (if keep(os[0].rid) then [os[0]] else []) + KeepIds(os[1..], keep)
  }

  lemma {:induction false} KeepIdsDistinct(os: seq<Override>, keep: int -> bool)
    requires DistinctIds(os)
    ensures DistinctIds(KeepIds(os, keep))
  {
    if os != [] {
      KeepIdsDistinct(os[1..], keep);
      assert forall o :: o in KeepIds(os[1..], keep) ==> o in os[1..];
      assert forall i :: 0 < i < |os| ==> os[i].rid != os[0].rid;
    }
  }

  method TrimDates(properties: seq<seq<int>>, keep: int -> bool) returns (r: seq<seq<int>>)
    ensures r == Trim(properties, keep)
  {
    hide Trim, Filter;
    r := [];
    TrimNothing(keep);
    for i := 0 to |properties|
      invariant r + Trim(properties[i..], keep) == Trim(properties, keep)
    {
      var values := TrimValues(properties[i], keep);
      ghost var rest := Trim(properties[i + 1..], keep);
      TrimNext(properties, i, keep);
      assert (r + [values]) + rest == r + ([values] + rest);
      if |values| != 0 {
        r := r + [values];
      }
    }
    assert properties[|properties|..] == [];
  }

  lemma TrimNothing(keep: int -> bool)
    ensures Trim([], keep) == []
  {
  }

  lemma TrimNext(properties: seq<seq<int>>, i: nat, keep: int -> bool)
    requires i < |properties|
    ensures var values, rest := Filter(properties[i], keep), Trim(properties[i + 1..], keep);
            Trim(properties[i..], keep) == if values == [] then rest else [values] + rest
  {
    assert properties[i..][1..] == properties[i + 1..];
  }

  method TrimValues(s: seq<int>, keep: int -> bool) returns (values: seq<int>)
    ensures values == Filter(s, keep)
  {
    values := [];
    for j := 0 to |s|
      invariant values + Filter(s[j..], keep) == Filter(s, keep)
    {
      assert s[j..][1..] == s[j + 1..];
      ghost var rest := Filter(s[j + 1..], keep);
      assert (values + [s[j]]) + rest == values + ([s[j]] + rest);
      if keep(s[j]) {
        values := values + [s[j]];
      } else {
        assert Filter(s[j..], keep) == rest;
      }
    }
  }

  function KeptBefore(os: seq<Override>, rid: int): seq<Override> {
    KeepIds(os, id => id < rid)
  }

  function KeptFrom(os: seq<Override>, rid: int): seq<Override> {
    KeepIds(os, id => id >= rid)
  }

  lemma KeptDistinct(os: seq<Override>, rid: int)
    requires DistinctIds(os)
    ensures DistinctIds(KeptBefore(os, rid)) && DistinctIds(KeptFrom(os, rid))
  {
    KeepIdsDistinct(os, id => id < rid);
    KeepIdsDistinct(os, id => id >= rid);
  }

  method TrimFrom(os: seq<Override>, rid: int) returns (r: seq<Override>)
    ensures r == KeptFrom(os, rid) && forall o :: o in r <==> o in os && o.rid >= rid
  {
    r := TrimOverrides(os, id => id >= rid);
  }

  method TrimOverrides(os: seq<Override>, keep: int -> bool) returns (r: seq<Override>)
    ensures r == KeepIds(os, keep)
  {
    r := [];
    for i := 0 to |os|
      invariant r + KeepIds(os[i..], keep) == KeepIds(os, keep)
    {
      assert os[i..][1..] == os[i + 1..];
      ghost var rest := KeepIds(os[i + 1..], keep);
      assert (r + [os[i]]) + rest == r + ([os[i]] + rest);
      if keep(os[i].rid) {
        r := r + [os[i]];
      } else {
        assert KeepIds(os[i..], keep) == rest;
      }
    }
  }

  /** The EXDATE properties, each without its first value equal to `t`, and without the
      properties this leaves empty. */
  function RemoveExdate(properties: seq<seq<int>>, t: int): seq<seq<int>> {
    if properties == [] then []
    else
      var values := RemoveFirst(properties[0], t);
      (if t in properties[0] && values == [] then [] else [values]) + RemoveExdate(properties[1..], t)
  }

  /** Some property lists `t` more than once. */
  ghost predicate ListedTwice(properties: seq<seq<int>>, t: int) {
    exists p :: p in properties && Twice(p, t)
  }

  /** Removing `t` leaves every other value; `t` is still listed if and only if some property lists
      it more than once. */
  lemma {:induction false} RemoveExdateExactly(properties: seq<seq<int>>, t: int, u: int)
    ensures Listed(RemoveExdate(properties, t), u) <==>
              if u == t then ListedTwice(properties, t) else Listed(properties, u)
  {
    if properties != [] {
      var head, tail := properties[0], properties[1..];
      var values := RemoveFirst(head, t);
      RemoveFirstOnlyRemoves(head, t, u);
      RemoveFirstLeaves(head, t);
      RemoveExdateExactly(tail, t, u);
      assert forall p :: p in properties <==> p == head || p in tail;
      if t !in head { RemoveFirstAbsent(head, t); }
      assert forall p :: p in RemoveExdate(properties, t) <==>
        (p == values && !(t in head && values == [])) || p in RemoveExdate(tail, t);
      if u in values { assert values in RemoveExdate(properties, t); }
    }
  }

  lemma RemoveExdateOnlyRemoves(properties: seq<seq<int>>, t: int, u: int)
    ensures Listed(RemoveExdate(properties, t), u) ==> Listed(properties, u)
  {
    RemoveExdateExactly(properties, t, u);
    if ListedTwice(properties, t) {
      var p :| p in properties && Twice(p, t);
      assert t in p;
    }
  }

  /** DTSTART, a start of the rule, or an RDATE. */
  ghost predicate Generated(m: Master, t: int)
    requires ValidMaster(m)
  {
    t == m.dtstart || InMasterRule(m, t) || Listed(m.rdates, t)
  }

  /** Taking back an EXDATE that no property lists twice adds exactly that instance, if the master
      generates it, and changes nothing else. */
  lemma TakenBack(m: Master, rid: int)
    requires ValidMaster(m) && Listed(m.exdates, rid) && !ListedTwice(m.exdates, rid)
    ensures var after := Uncancelled(Some(m), rid, true).value;
            && ValidMaster(after) && after == m.(exdates := after.exdates)
            && (forall t :: Listed(after.exdates, t) <==> Listed(m.exdates, t) && t != rid)
            && (forall t :: InSet(after, t) <==> InSet(m, t) || (t == rid && Generated(m, t)))
  {
    forall t
      ensures Listed(RemoveExdate(m.exdates, rid), t) <==> Listed(m.exdates, t) && t != rid
    {
      RemoveExdateExactly(m.exdates, rid, t);
    }
  }

  /** Whether a master component has RRULE, RDATE or EXDATE properties. */
  predicate MasterRecurs(m: Master) {
    m.rrule.Some? || m.rdates != [] || m.exdates != []
  }

  /** Deriving at `rid` removes an EXDATE and cancels the instance. */
  predicate Cancels(m: Option<Master>, rid: int, allowCancelled: bool) {
    m.Some? && allowCancelled && rid in Values(m.value.exdates)
  }

  function Uncancelled(m: Option<Master>, rid: int, allowCancelled: bool): Option<Master> {
    if Cancels(m, rid, allowCancelled)
    then Some(m.value.(exdates := RemoveExdate(m.value.exdates, rid)))
    else m
  }

  function DerivedAt(m: Master, rid: int, didCancel: bool): Override {
    Override(rid, rid, rid + m.duration, true, m.cancelled || didCancel, false)
  }

  /** Whether an instance can be derived at `rid`: an EXDATE has to be allowed for, or to be taken
      back, which does not help with a rule if a property lists it twice. */
  ghost predicate CanDerive(m: Master, rid: int, allowCancelled: bool, allowExcluded: bool)
    requires ValidMaster(m)
  {
    if Listed(m.exdates, rid) && !allowCancelled then allowExcluded
    else Listed(m.rdates, rid) || (m.rrule.Some? && Generated(m, rid) && !ListedTwice(m.exdates, rid))
  }

  lemma UncancelledSet(m: Master, rid: int, allowCancelled: bool)
    requires ValidMaster(m) && (Listed(m.exdates, rid) ==> allowCancelled)
    ensures var after := Uncancelled(Some(m), rid, allowCancelled).value;
            ValidMaster(after) && (InSet(after, rid) <==> Generated(m, rid) && !ListedTwice(m.exdates, rid))
  {
    RemoveExdateExactly(m.exdates, rid, rid);
    if ListedTwice(m.exdates, rid) {
      var p :| p in m.exdates && Twice(p, rid);
      assert rid in p;
    }
  }

  /** Once an EXDATE has been taken back, or if there is none. */
  lemma CanDeriveAfter(m: Master, rid: int, allowCancelled: bool)
    requires ValidMaster(m)
    ensures var after := Uncancelled(Some(m), rid, allowCancelled).value;
            && ValidMaster(after)
            && ((Listed(m.exdates, rid) ==> allowCancelled) ==>
                  forall allowExcluded :: CanDerive(m, rid, allowCancelled, allowExcluded) <==>
                    Listed(after.rdates, rid) || (after.rrule.Some? && InSet(after, rid)))
  {
    if Listed(m.exdates, rid) ==> allowCancelled {
      UncancelledSet(m, rid, allowCancelled);
    }
  }

  /** With an EXDATE allowed for, `Derivable` says whether one can. */
  lemma DerivesExcluded(m: Master, t: int)
    requires ValidMaster(m)
    ensures CanDerive(m, t, false, true) <==> Derivable(m, t)
  {
    if ListedTwice(m.exdates, t) {
      var p :| p in m.exdates && Twice(p, t);
      assert t in p;
    }
  }

  /** If all override ids are valid, the keys are the recurrence set. */
  lemma ValidKeys(m: Master, os: seq<Override>, t: int)
    requires ValidMaster(m) && ValidIds(m, os)
    ensures IsKey(m, os, t) <==> InSet(m, t)
  {
  }

  /** What derivation makes: the instance at `rid` with the master's length. Its status is that of
      the master, but cancelled where an EXDATE was taken back. */
  ghost predicate IsDerived(m: Master, rid: int, allowCancelled: bool, o: Override)
    requires ValidMaster(m)
  {
    && o.rid == rid && o.start == rid && o.end - o.start == m.duration && o.isEvent && !o.thisAndFuture
    && (o.cancelled <==> m.cancelled || (allowCancelled && Listed(m.exdates, rid)))
  }

  /** Whether an instance at `rid` is looked for in an expansion: where there is a rule, and
      neither an RDATE nor an EXDATE that stays decides. */
  ghost predicate NeedsExpansion(m: Master, rid: int, allowCancelled: bool) {
    m.rrule.Some? && !Listed(m.rdates, rid) && (Listed(m.exdates, rid) ==> allowCancelled)
  }

  method RemoveFromExdates(properties: seq<seq<int>>, t: int) returns (r: seq<seq<int>>)
    ensures r == RemoveExdate(properties, t)
  {
    r := [];
    for i := 0 to |properties|
      invariant r + RemoveExdate(properties[i..], t) == RemoveExdate(properties, t)
    {
      assert properties[i..][1..] == properties[i + 1..];
      var values := RemoveFirst(properties[i], t);
      if !(t in properties[i] && |values| == 0) {
        r := r + [values];
      }
    }
  }

  lemma RemoveExdateKeepsValid(m: Master, rid: int)
    requires ValidMaster(m)
    ensures ValidMaster(m.(exdates := RemoveExdate(m.exdates, rid)))
  {
  }

  /** The merged map does not exceed the maximum. */
  ghost predicate MapFits(x: Context, os: seq<Override>)
    requires ValidContext(x)
  {
    !Exceeds(x, |Base(x).Keys + Places(x, Base(x).Keys, os)|)
  }

  // ----- When override ids stay valid -----

  /** Cutting off the later instances leaves the ids of the earlier overrides valid. */
  lemma PastKeepsIds(m: Master, os: seq<Override>, rid: int)
    requires ValidMaster(m) && ValidIds(m, os)
    ensures ValidMaster(PastMaster(m, rid)) && ValidIds(PastMaster(m, rid), KeptBefore(os, rid))
  {
    forall o | o in os && o.rid < rid
      ensures InSet(PastMaster(m, rid), o.rid)
    {
      PastSet(m, rid, o.rid);
      if InMasterRule(m, o.rid) {
        RuleInProgression(m.dtstart, m.rrule.value, o.rid);
      }
    }
  }

  /** The future part either keeps the rule, or changes nothing, or else every later override is
      of the split itself or of an RDATE. */
  ghost predicate FutureKeepsIds(m: Master, os: seq<Override>, rid: int, nextYear: int)
    requires ValidMaster(m)
  {
    || Cut(m, rid, nextYear).Some?
    || !Derivable(m, rid)
    || forall o :: o in os && o.rid >= rid ==> o.rid == rid || Listed(m.rdates, o.rid)
  }

  function FutureOverrides(os: seq<Override>, rid: int, known: bool): seq<Override> {
    if known then KeptFrom(os, rid) else os
  }

  /** Cutting off the earlier instances leaves the ids of the later overrides valid exactly then:
      the cut may drop a rule that has no start in the year after it, and its later instances. */
  lemma FutureKeepsIdsExactly(m: Master, os: seq<Override>, rid: int, nextYear: int)
    requires ValidMaster(m) && ValidIds(m, os)
    ensures var known := Derivable(m, NewStart(m, rid, nextYear));
            var part := FuturePart(m, rid, nextYear, known);
            ValidMaster(part) &&
              (ValidIds(part, FutureOverrides(os, rid, known)) <==> FutureKeepsIds(m, os, rid, nextYear))
  {
    var known := Derivable(m, NewStart(m, rid, nextYear));
    var part := FuturePart(m, rid, nextYear, known);
    if Cut(m, rid, nextYear).Some? {
      CutIsDerivable(m, rid, nextYear);
    }
    hide InSet, InRule, RuleStarts;
    if known {
      forall o | o in os && o.rid >= rid
        ensures ValidMaster(part)
        ensures InSet(part, o.rid) <==> Cut(m, rid, nextYear).Some? || o.rid == rid || Listed(m.rdates, o.rid)
      {
        KeptId(m, rid, nextYear, o.rid);
      }
    }
  }

  /** A cut at an RDATE drops a rule whose next start is beyond the year, and with it the instance
      of a later override. */
  lemma FutureMayDropIds()
    ensures var m := Master(0, 1, Some(RRule(1000, Forever)), [[5]], [], false);
            var os := [Override(1000, 1001, 1002, true, false, false)];
            ValidIds(m, os) && !FutureKeepsIds(m, os, 5, 100)
  {
    var m := Master(0, 1, Some(RRule(1000, Forever)), [[5]], [], false);
    var os := [Override(1000, 1001, 1002, true, false, false)];
    var r := RRule(1000, Forever);
    assert RuleStarts(1000, r, 100) == [];
    assert RuleStarts(0, r, 100) == [0];
    assert InRule(1000, r, 1000);
    assert InRule(0, r, 1000);
    assert [5] in m.rdates;
    assert os[0].rid == 1000;
  }

  lemma KeptId(m: Master, rid: int, nextYear: int, t: int)
    requires ValidMaster(m) && InSet(m, t) && t >= rid
    ensures ValidMaster(FutureMaster(m, rid, nextYear))
    ensures InSet(FutureMaster(m, rid, nextYear), t) <==> Cut(m, rid, nextYear).Some? || t == rid || Listed(m.rdates, t)
  {
    if Cut(m, rid, nextYear).Some? {
      FutureSetWithRule(m, rid, nextYear, t);
    } else {
      FutureSetWithoutRule(m, rid, nextYear, t);
    }
  }

  /** Taking back an EXDATE only adds to the recurrence set. */
  lemma UncancelledKeepsIds(m: Master, os: seq<Override>, rid: int, allowCancelled: bool)
    requires ValidMaster(m) && ValidIds(m, os)
    ensures var after := Uncancelled(Some(m), rid, allowCancelled);
            after.Some? && ValidMaster(after.value) && ValidIds(after.value, os)
  {
    forall o | o in os
      ensures !Listed(RemoveExdate(m.exdates, rid), o.rid)
    {
      RemoveExdateOnlyRemoves(m.exdates, rid, o.rid);
    }
  }

  lemma WillBeDerived(m: Master, rid: int, allowCancelled: bool)
    requires ValidMaster(m)
    ensures var after := Uncancelled(Some(m), rid, allowCancelled).value;
            IsDerived(m, rid, allowCancelled, DerivedAt(after, rid, allowCancelled && Listed(m.exdates, rid)))
  {
  }

  // ----- The calendar object as the source writes it -----

  class Component {
    const library: Library
    const maxAllowedInstances: nat
    var master: Option<Master>
    var overrides: seq<Override>
    var cachedInstances: Option<Cached>

    ghost predicate Valid()
      reads this
    {
      && Sound(library)
      && (master.Some? ==> ValidMaster(master.value))
      && DistinctIds(overrides)
    }

    /** The cache agrees with the current recurrence set. */
    ghost predicate CacheFaithful()
      requires Valid()
      reads this
    {
      master.Some? && cachedInstances.Some? ==> Faithful(cachedInstances.value, master.value, overrides)
    }

    constructor (library: Library, maxAllowedInstances: nat, master: Option<Master>, overrides: seq<Override>)
      requires Sound(library) && (master.Some? ==> ValidMaster(master.value)) && DistinctIds(overrides)
      ensures Valid() && CacheFaithful() && cachedInstances == None
      ensures this.library == library && this.maxAllowedInstances == maxAllowedInstances
      ensures this.master == master && this.overrides == overrides
    {
      this.library, this.maxAllowedInstances := library, maxAllowedInstances;
      this.master, this.overrides, cachedInstances := master, overrides, None;
    }

    /** An expansion up to `upper` meets no override it has to refuse. */
    ghost predicate Expandable(upper: int, ignoreInvalidInstances: bool)
      requires Valid() && master.Some?
      reads this
    {
      ValidIds(master.value, overrides) || (ignoreInvalidInstances && forall o :: o in overrides ==> o.rid < upper)
    }

    /** The final map does not exceed the maximum. */
    ghost predicate Affordable(upper: int, ignoreInvalidInstances: bool)
      requires Valid() && master.Some?
      reads this
    {
      MapFits(Context(master, upper, ignoreInvalidInstances, maxAllowedInstances), overrides)
    }

    lemma Expands(upper: int, ignoreInvalidInstances: bool)
      requires Valid() && master.Some? && Expandable(upper, ignoreInvalidInstances)
      ensures var x := Context(master, upper, ignoreInvalidInstances, maxAllowedInstances);
        Expand(x, overrides).Instances? <==> Affordable(upper, ignoreInvalidInstances)
    {
      hide InSet, Expand, Base, Places, Compatible, IsMerged;
      var x := Context(master, upper, ignoreInvalidInstances, maxAllowedInstances);
      OverridesAreCompatible(x, master.value, overrides);
      ExpandMerges(x, overrides);
    }

    /** Expands up to a year past `limit`, unless the cached expansion already reaches it. */
    method CacheExpandedTimeRanges(limit: int, ignoreInvalidInstances: bool) returns (r: Status)
      requires Valid()
      modifies this`cachedInstances
      ensures !r.Ok? ==> cachedInstances == old(cachedInstances)
      ensures r.Ok? ==> Reaches(cachedInstances, limit)
      ensures r.Ok? && !Reaches(old(cachedInstances), limit) ==>
                cachedInstances.value.limit in {None, Some(limit + 365 * 86400)}
      ensures Reaches(old(cachedInstances), limit) ==> r.Ok? && cachedInstances == old(cachedInstances)
      ensures (r.Ok? && old(CacheFaithful()) && master.Some? && Expandable(limit + YEAR, ignoreInvalidInstances)) ==>
                CacheFaithful() &&
                forall t :: t <= limit ==> (t in cachedInstances.value.instances <==> IsKey(master.value, overrides, t))
      ensures master.Some? && Expandable(limit + YEAR, ignoreInvalidInstances) ==>
                (r.Ok? <==> Reaches(old(cachedInstances), limit) || Affordable(limit + YEAR, ignoreInvalidInstances))
    {
      hide InSet, IsKey, Expand, Places, Base, MapFits, Faithful;
      if cachedInstances.Some? {
        var cachedLimit := cachedInstances.value.limit;
        if cachedLimit.None? || cachedLimit.value > limit {
          if master.Some? && Faithful(cachedInstances.value, master.value, overrides) {
            FaithfulUpTo(cachedInstances.value, master.value, overrides, limit);
          }
          return Ok;
        }
      }
      var lookAheadLimit := limit + YEAR;
      var expanded, limited := [], false;
      if master.Some? {
        var e := library.expand(master.value, lookAheadLimit);
        expanded, limited := e.0, e.1;
      }
      if master.Some? && Expandable(lookAheadLimit, ignoreInvalidInstances) {
        Expands(lookAheadLimit, ignoreInvalidInstances);
      }
      var list := new InstanceList(ignoreInvalidInstances, maxAllowedInstances);
      r := list.ExpandTimeRanges(master, overrides, lookAheadLimit, expanded, limited);
      if r.Ok? {
        cachedInstances := Some(Cached(list.instances, list.limit));
        ghost var x := Context(master, lookAheadLimit, ignoreInvalidInstances, maxAllowedInstances);
        if master.Some? && Expandable(x.upper, ignoreInvalidInstances) {
          ExpansionIsFaithful(x, master.value, overrides, Recurrence.Members(expanded), limited, list.instances);
          FaithfulUpTo(cachedInstances.value, master.value, overrides, limit);
        }
      }
    }

    /** Whether `rid` is an instance, as an expansion up to it says. */
    method ValidInstance(rid: int, ignoreInvalidInstances: bool) returns (r: Status, valid: bool)
      requires Valid()
      modifies this`cachedInstances
      ensures master.None? ==> r.Ok? && (valid <==> exists o :: o in overrides && o.rid == rid)
      ensures master.None? || !r.Ok? ==> cachedInstances == old(cachedInstances)
      ensures master.Some? && r.Ok? ==>
                Reaches(cachedInstances, rid) && (valid <==> rid in cachedInstances.value.instances)
      ensures Reaches(old(cachedInstances), rid) ==> r.Ok? && cachedInstances == old(cachedInstances)
      ensures (r.Ok? && old(CacheFaithful()) && master.Some? && Expandable(rid + YEAR, ignoreInvalidInstances)) ==>
                CacheFaithful() && (valid <==> IsKey(master.value, overrides, rid))
      ensures master.None? ==> r.Ok?
      ensures master.Some? && Expandable(rid + YEAR, ignoreInvalidInstances) ==>
                (r.Ok? <==> Reaches(old(cachedInstances), rid) || Affordable(rid + YEAR, ignoreInvalidInstances))
    {
      hide IsKey, InSet, Affordable;
      if master.None? {
        valid := rid in (set o | o in overrides :: o.rid);
        r := Ok;
      } else {
        valid := false;
        r := CacheExpandedTimeRanges(rid, ignoreInvalidInstances);
        if r.Ok? {
          valid := rid in cachedInstances.value.instances;
        }
      }
    }

    /** Drops the instances from `rid` on. */
    method OnlyPastInstances(rid: int)
      requires Valid()
      modifies this
      ensures Valid()
      ensures old(IsRecurring()) ==> CacheFaithful() && cachedInstances == None
      ensures old(IsRecurring()) ==>
                master == if old(master).Some? then Some(PastMaster(old(master).value, rid)) else None
      ensures old(IsRecurring()) ==> overrides == KeptBefore(old(overrides), rid)
      ensures old(IsRecurring()) ==> forall o :: o in overrides <==> o in old(overrides) && o.rid < rid
      ensures !old(IsRecurring()) ==>
                master == old(master) && overrides == old(overrides) && cachedInstances == old(cachedInstances)
      ensures old(master).Some? && ValidIds(old(master).value, old(overrides)) ==> ValidIds(master.value, overrides)
    {
      if !IsRecurring() {
        return;
      }
      KeptDistinct(overrides, rid);
      if master.Some? {
        var m := master.value;
        PastSet(m, rid, rid);
        if ValidIds(m, overrides) {
          PastKeepsIds(m, overrides, rid);
        }
        if m.rrule.Some? {
          m := m.(rrule := Some(RRule(m.rrule.value.step, Until(rid - 1))));
        }
        var rdates := TrimDates(m.rdates, t => t < rid);
        var exdates := TrimDates(m.exdates, t => t < rid);
        master := Some(m.(rdates := rdates, exdates := exdates));
      }
      overrides := TrimOverrides(overrides, id => id < rid);
      cachedInstances := None;
    }

    predicate IsRecurring()
      reads this
    {
      (master.Some? && MasterRecurs(master.value)) || overrides != []
    }

    /** Derives the instance at `rid` from the master; see `CanDerive`. With `allowCancelled` an
        EXDATE at `rid` is removed, and the derived instance is cancelled. */
    method DeriveInstance(rid: int, allowCancelled: bool, allowExcluded: bool)
      returns (r: Status, derived: Option<Override>)
      requires Valid()
      modifies this`cachedInstances, this`master
      ensures Valid() && overrides == old(overrides)
      ensures master == Uncancelled(old(master), rid, allowCancelled)
      ensures !(old(master).Some? && Listed(old(master).value.exdates, rid) && allowCancelled) ==> master == old(master)
      ensures derived.Some? ==>
                r.Ok? && old(master).Some? && IsDerived(old(master).value, rid, allowCancelled, derived.value)
      ensures (old(CacheFaithful()) || Cancels(old(master), rid, allowCancelled)) && master.Some? &&
                ValidIds(master.value, overrides) ==>
                CacheFaithful() &&
                (r.Ok? ==>
                 (derived.Some? <==> CanDerive(old(master).value, rid, allowCancelled, allowExcluded)))
      ensures old(master).Some? && Listed(old(master).value.exdates, rid) && allowCancelled &&
                !ListedTwice(old(master).value.exdates, rid) ==>
                && master.Some? && master.value == old(master).value.(exdates := master.value.exdates)
                && (forall t :: Listed(master.value.exdates, t) <==> Listed(old(master).value.exdates, t) && t != rid)
                && (forall t :: InSet(master.value, t) <==>
                      InSet(old(master).value, t) || (t == rid && Generated(old(master).value, t)))
      ensures old(CacheFaithful()) && old(master).Some? && ValidIds(old(master).value, overrides) ==> CacheFaithful()
      ensures master.Some? && ValidIds(master.value, overrides) ==>
                (r.Ok? <==>
                  || !NeedsExpansion(old(master).value, rid, allowCancelled)
                  || (!Cancels(old(master), rid, allowCancelled) && Reaches(old(cachedInstances), rid))
                  || Affordable(rid + YEAR, false))
    {
      hide Sound, ValidIds, MapFits, IsKey, InSet, Faithful, Affordable, Generated, ListedTwice, RemoveExdate,
           DistinctIds, IsDerived;
      r, derived := Ok, None;
      if master.None? {
        return;
      }
      ghost var before := master.value;
      CanDeriveAfter(before, rid, allowCancelled);
      WillBeDerived(before, rid, allowCancelled);
      var matched := rid in Values(master.value.exdates);
      if matched && allowCancelled {
        TakeBackExdate(rid);
      } else if matched && !allowExcluded {
        return;
      }
      var didCancel, matchedExdate := matched && allowCancelled, matched && !allowCancelled;
      if !matchedExdate {
        var found;
        r, found := HasInstance(rid);
        if !r.Ok? || !found {
          return;
        }
      }
      derived := Some(DerivedAt(master.value, rid, didCancel));
    }

    /** Removes the EXDATE from the master, and the expansion that it was in. */
    method TakeBackExdate(rid: int)
      requires Valid() && master.Some? && Listed(master.value.exdates, rid)
      modifies this`cachedInstances, this`master
      ensures Valid() && cachedInstances == None
      ensures master == Uncancelled(old(master), rid, true)
      ensures !ListedTwice(old(master).value.exdates, rid) ==>
                && master.value == old(master).value.(exdates := master.value.exdates)
                && (forall t :: Listed(master.value.exdates, t) <==> Listed(old(master).value.exdates, t) && t != rid)
                && (forall t :: InSet(master.value, t) <==>
                      InSet(old(master).value, t) || (t == rid && Generated(old(master).value, t)))
      ensures ValidIds(old(master).value, overrides) ==> ValidIds(master.value, overrides)
    {
      hide Sound, InSet, Generated, ListedTwice;
      var m := master.value;
      RemoveExdateKeepsValid(m, rid);
      if !ListedTwice(m.exdates, rid) {
        TakenBack(m, rid);
      }
      if ValidIds(m, overrides) {
        UncancelledKeepsIds(m, overrides, rid, true);
      }
      var exdates := RemoveFromExdates(m.exdates, rid);
      master, cachedInstances := Some(m.(exdates := exdates)), None;
    }

    /** Whether `rid` is an RDATE, or an instance of the master's rule. */
    method HasInstance(rid: int) returns (r: Status, found: bool)
      requires Valid() && master.Some?
      modifies this`cachedInstances
      ensures found ==> r.Ok?
      ensures old(CacheFaithful()) && ValidIds(master.value, overrides) ==>
                CacheFaithful() &&
                (r.Ok? ==>
                  (found <==>
                    Listed(master.value.rdates, rid) || (master.value.rrule.Some? && InSet(master.value, rid))))
      ensures ValidIds(master.value, overrides) ==>
                (r.Ok? <==>
                  || Listed(master.value.rdates, rid)
                  || master.value.rrule.None?
                  || Reaches(old(cachedInstances), rid)
                  || Affordable(rid + YEAR, false))
    {
      hide Sound, MapFits, IsKey, InSet, Faithful;
      if ValidIds(master.value, overrides) {
        ValidKeys(master.value, overrides, rid);
      }
      hide ValidIds;
      r := Ok;
      if rid in Values(master.value.rdates) {
        return r, true;
      }
      if master.value.rrule.None? {
        return r, false;
      }
      r := CacheExpandedTimeRanges(rid, false);
      found := r.Ok? && rid in cachedInstances.value.instances;
    }

    /** The instance that a new master is derived from; an EXDATE does not stand in its way. */
    method DeriveStart(start: int) returns (r: Status, derived: Option<Override>)
      requires Valid() && master.Some?
      modifies this`cachedInstances, this`master
      ensures master == old(master)
      ensures derived.Some? ==> r.Ok? && derived.value.start == start
      ensures ValidIds(master.value, overrides) ==>
                (r.Ok? <==>
                  || !NeedsExpansion(master.value, start, false)
                  || Reaches(old(cachedInstances), start)
                  || Affordable(start + YEAR, false))
      ensures old(CacheFaithful()) && ValidIds(master.value, overrides) ==>
                CacheFaithful() && (r.Ok? ==> (derived.Some? <==> Derivable(master.value, start)))
    {
      hide Sound, InSet, Faithful, ValidIds, MapFits, NeedsExpansion, Reaches, CanDerive, Derivable, ListedTwice;
      DerivesExcluded(master.value, start);
      r, derived := DeriveInstance(start, false, true);
    }

    /** The master's part of that, with `cut` false where nothing is dropped. */
    method RebaseMaster(rid: int, nextYear: int) returns (r: Status, cut: bool)
      requires Valid() && master.Some?
      modifies this`cachedInstances, this`master
      ensures master.Some? && ValidMaster(master.value)
      ensures !cut ==> master == old(master)
      ensures cut ==> r.Ok?
      ensures r.Ok? && old(CacheFaithful()) && ValidIds(old(master).value, overrides) ==>
                cut == Derivable(old(master).value, NewStart(old(master).value, rid, nextYear)) &&
                master == Some(FuturePart(old(master).value, rid, nextYear, cut))
      ensures !cut && old(CacheFaithful()) && ValidIds(old(master).value, overrides) ==> CacheFaithful()
      ensures ValidIds(old(master).value, overrides) ==>
                var start := NewStart(old(master).value, rid, nextYear);
                (r.Ok? <==>
                  || !NeedsExpansion(old(master).value, start, false)
                  || Reaches(old(cachedInstances), start)
                  || old(Affordable(start + YEAR, false)))
    {
      hide Sound, InSet, Faithful, RuleStarts, NewStart, MapFits, Derivable, ValidIds, NeedsExpansion, Reaches,
           FutureMaster, Cut;
      cut := false;
      var m := master.value;
      var start, rule := FutureStart(m, rid, nextYear);
      var derived;
      r, derived := DeriveStart(start);
      if !r.Ok? || derived.None? {
        return;
      }
      cut := true;
      var rebased := Rebase(m, rid, nextYear, derived.value.start, rule);
      master := Some(rebased);
    }

    /** Drops the instances before `rid` and re-bases the master at the first of the rest;
        `nextYear` is `rid` moved on by a calendar year. Where no instance can be derived there,
        nothing is dropped. */
    method OnlyFutureInstances(rid: int, nextYear: int) returns (r: Status)
      requires Valid()
      modifies this
      ensures Valid() && master.Some? == old(master).Some?
      ensures !old(IsRecurring()) ==> r.Ok? && master == old(master) && overrides == old(overrides)
      ensures (r.Ok? && old(IsRecurring()) && old(master).Some? && old(CacheFaithful()) &&
               ValidIds(old(master).value, old(overrides))) ==>
                var m := old(master).value;
                var known := Derivable(m, NewStart(m, rid, nextYear));
                && master == Some(FuturePart(m, rid, nextYear, known))
                && overrides == (if known then KeptFrom(old(overrides), rid) else old(overrides))
                && (forall o :: o in overrides <==> o in old(overrides) && (known ==> o.rid >= rid))
                && CacheFaithful()
      ensures r.Ok? && old(IsRecurring()) && old(master).None? ==>
                && master == None && overrides == KeptFrom(old(overrides), rid)
                && (forall o :: o in overrides <==> o in old(overrides) && o.rid >= rid)
      ensures !r.Ok? ==> master == old(master) && overrides == old(overrides)
      ensures old(CacheFaithful()) && old(master).Some? && ValidIds(old(master).value, old(overrides)) ==>
                CacheFaithful()
      ensures old(master).Some? && ValidIds(old(master).value, old(overrides)) ==>
                var start := NewStart(old(master).value, rid, nextYear);
                (r.Ok? <==>
                  || !old(IsRecurring())
                  || !NeedsExpansion(old(master).value, start, false)
                  || Reaches(old(cachedInstances), start)
                  || old(Affordable(start + YEAR, false)))
    {
      hide Sound, InSet, Faithful, KeptFrom, DistinctIds, NewStart, Affordable, Derivable, ValidIds, FuturePart,
           NeedsExpansion, Reaches;
      r := Ok;
      if !IsRecurring() {
        return;
      }
      KeptDistinct(overrides, rid);
      if master.Some? {
        var cut;
        r, cut := RebaseMaster(rid, nextYear);
        if !cut {
          return;
        }
      }
      overrides := TrimFrom(overrides, rid);
      cachedInstances := None;
    }
  }

  /** The start of the new master, and the rule that goes on from there, if any. */
  method FutureStart(m: Master, rid: int, nextYear: int) returns (start: int, rule: Option<RRule>)
    requires ValidMaster(m)
    ensures start == NewStart(m, rid, nextYear)
    ensures rule == FutureMaster(m, rid, nextYear).rrule
  {
    start, rule := rid, None;
    if m.rrule.Some? {
      var expanded := RuleStarts(m.dtstart, m.rrule.value, nextYear);
      var ctr := IndexFrom(expanded, rid);
      if ctr < |expanded| {
        start := expanded[ctr];
        rule := Some(Advance(m.rrule.value, ctr));
      }
    }
  }

  /** The master as derived at its new start, with what is left of the recurrence properties. */
  method Rebase(m: Master, rid: int, nextYear: int, start: int, rule: Option<RRule>) returns (rebased: Master)
    requires ValidMaster(m)
    requires start == NewStart(m, rid, nextYear) && rule == FutureMaster(m, rid, nextYear).rrule
    ensures rebased == FutureMaster(m, rid, nextYear) && ValidMaster(rebased)
    ensures rebased.dtstart == start && rebased.duration == m.duration && rebased.cancelled == m.cancelled
  {
    hide NewStart, Cut, Trim;
    var rdates := TrimDates(m.rdates, t => t >= rid && t != start);
    var exdates := TrimDates(m.exdates, t => t >= rid);
    rebased := m.(dtstart := start, rrule := rule, rdates := rdates, exdates := exdates);
  }

  method IndexFrom(s: seq<int>, rid: int) returns (ctr: nat)
    ensures ctr == (match FirstFrom(s, rid) case Some(k) => k case None => |s|)
  {
    ctr := 0;
    while ctr < |s| && s[ctr] < rid
      invariant ctr <= |s| && forall i :: 0 <= i < ctr ==> s[i] < rid
    {
      ctr := ctr + 1;
    }
  }

  /** The series reaches past the split: its rule has a start in [rid, nextYear). */
  ghost predicate Splittable(m: Master, rid: int, nextYear: int)
    requires ValidMaster(m)
  {
    m.rrule.Some? && m.dtstart < rid && exists t :: InMasterRule(m, t) && rid <= t < nextYear
  }

  /** Splits a copy of a calendar object at `rid` into the instances before it and the rest. The
      two recurrence sets, and the two lists of overrides, partition those of the original. */
  method Split(c: Component, rid: int, nextYear: int) returns (r: Status, past: Component, future: Component)
    requires c.Valid() && c.master.Some? && ValidIds(c.master.value, c.overrides)
    requires Splittable(c.master.value, rid, nextYear)
    ensures fresh(past) && fresh(future)
    ensures r.Ok? ==> past.Valid() && past.master.Some? && future.Valid() && future.master.Some?
    ensures r.Ok? ==> forall t :: InSet(past.master.value, t) <==> InSet(c.master.value, t) && t < rid
    ensures r.Ok? ==> forall t :: InSet(future.master.value, t) <==> InSet(c.master.value, t) && t >= rid
    ensures r.Ok? ==> forall part :: part in {past.master.value, future.master.value} ==>
              part.duration == c.master.value.duration && part.cancelled == c.master.value.cancelled
    ensures r.Ok? ==> past.overrides == KeptBefore(c.overrides, rid) && future.overrides == KeptFrom(c.overrides, rid)
    ensures r.Ok? ==> forall o :: o in past.overrides <==> o in c.overrides && o.rid < rid
    ensures r.Ok? ==> forall o :: o in future.overrides <==> o in c.overrides && o.rid >= rid
    ensures r.Ok? ==> ValidIds(past.master.value, past.overrides) && ValidIds(future.master.value, future.overrides)
    ensures var m, start := c.master.value, NewStart(c.master.value, rid, nextYear);
            r.Ok? <==> Listed(m.rdates, start) || Listed(m.exdates, start) || c.Affordable(start + YEAR, false)
  {
    hide InSet, InRule, RuleStarts, Faithful, MapFits, NewStart, Cut, FutureMaster, PastMaster, ValidIds;
    ghost var m := c.master.value;
    ghost var t :| InMasterRule(m, t) && rid <= t < nextYear;
    SplitPartitions(m, rid, nextYear, t);
    assert FutureKeepsIds(m, c.overrides, rid, nextYear);
    FutureKeepsIdsExactly(m, c.overrides, rid, nextYear);
    PartsKeepLength(m, rid, nextYear, true);
    past := new Component(c.library, c.maxAllowedInstances, c.master, c.overrides);
    past.OnlyPastInstances(rid);
    future := new Component(c.library, c.maxAllowedInstances, c.master, c.overrides);
    r := future.OnlyFutureInstances(rid, nextYear);
  }
}
