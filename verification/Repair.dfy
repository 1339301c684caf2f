/** Repairing bad overrides: validInstances and validRecurrenceIDs of twistedcaldav/ical.py. */
module Repair {
  import opened Collections
  import opened Recurrence
  import opened Instances
  import opened SeriesSplit
  import opened Calendar

  datatype Message = ExdateForOverride(rid: int) | EarlierExdate(t: int) | InvalidOccurrence(rid: int)

  // ----- EXDATE lists without duplicates -----

  function Flat(properties: seq<seq<int>>): (s: seq<int>)
    ensures forall t :: t in s <==> Listed(properties, t)
  {
    if properties == [] then []
    else
      assert forall p :: p in properties <==> p == properties[0] || p in properties[1..];
      properties[0] + Flat(properties[1..])
  }

  ghost predicate DistinctDates(properties: seq<seq<int>>) {
    NoDuplicates(Flat(properties))
  }

  /** One occurrence of `t` less; a property left without values is removed. */
  function RemoveOnce(properties: seq<seq<int>>, t: int): seq<seq<int>> {
    if properties == [] then []
    else if t in properties[0] then
      var values := RemoveFirst(properties[0], t);
      (if values == [] then [] else [values]) + properties[1..]
    else [properties[0]] + RemoveOnce(properties[1..], t)
  }

  lemma {:induction false} RemoveFirstInLeft(a: seq<int>, b: seq<int>, t: int)
    requires t in a
    ensures RemoveFirst(a + b, t) == RemoveFirst(a, t) + b
  {
    assert (a + b)[1..] == a[1..] + b;
    if a[0] != t {
      RemoveFirstInLeft(a[1..], b, t);
    }
  }

  lemma {:induction false} RemoveFirstInRight(a: seq<int>, b: seq<int>, t: int)
    requires t !in a
    ensures RemoveFirst(a + b, t) == a + RemoveFirst(b, t)
  {
    if a == [] {
      assert a + b == b;
    } else {
      assert (a + b)[1..] == a[1..] + b;
      RemoveFirstInRight(a[1..], b, t);
    }
  }

  lemma {:induction false} FlatRemoveOnce(properties: seq<seq<int>>, t: int)
    ensures Flat(RemoveOnce(properties, t)) == RemoveFirst(Flat(properties), t)
  {
    if properties != [] {
      var p, tail := properties[0], properties[1..];
      if t in p {
        RemoveFirstInLeft(p, Flat(tail), t);
        var values := RemoveFirst(p, t);
        assert ([values] + tail)[1..] == tail;
        assert [] + tail == tail;
      } else {
        RemoveFirstInRight(p, Flat(tail), t);
        FlatRemoveOnce(tail, t);
        assert ([p] + RemoveOnce(tail, t))[1..] == RemoveOnce(tail, t);
      }
    }
  }

  /** Removing `t` from EXDATEs without duplicates removes exactly `t`. */
  lemma RemoveOnceExactly(properties: seq<seq<int>>, t: int)
    requires DistinctDates(properties)
    ensures DistinctDates(RemoveOnce(properties, t))
    ensures forall u :: Listed(RemoveOnce(properties, t), u) <==> Listed(properties, u) && u != t
  {
    FlatRemoveOnce(properties, t);
    RemoveFirstOfDistinct(Flat(properties), t);
    forall u ensures u in RemoveFirst(Flat(properties), t) <==> u in Flat(properties) && u != t {
      RemoveFirstOnlyRemoves(Flat(properties), t, u);
    }
    assert forall u :: u in Flat(RemoveOnce(properties, t)) <==> Listed(RemoveOnce(properties, t), u);
  }

  // ----- What a repair has to do -----

  function Ids(os: seq<Override>): (s: set<int>)
    ensures forall t :: t in s <==> exists o :: o in os && o.rid == t
  {
    set o | o in os :: o.rid
  }

  /** The override ids that a repair of a recurring master leaves alone: EXDATEs apart they are
      instances, or cancelled. */
  ghost predicate Accepted(m: Master, os: seq<Override>, t: int)
    requires ValidMaster(m)
  {
    Generated(m, t) || exists o :: o in os && o.rid == t && (m.cancelled || o.cancelled)
  }

  /** One repair pass is enough: nothing makes the master recur only through EXDATEs that the
      repair removes, while no override makes it add an RDATE. */
  ghost predicate StaysRecurring(m: Master, os: seq<Override>)
    requires ValidMaster(m)
  {
    || m.rrule.Some?
    || m.rdates != []
    || (exists t :: Listed(m.exdates, t) && t !in Ids(os) && t >= m.dtstart)
    || (exists o :: o in os && !Accepted(m, os, o.rid))
  }

  /** The override ids are instances, or cancelled, once no EXDATE excludes them. */
  lemma AcceptedIsKey(m: Master, os: seq<Override>, t: int)
    requires ValidMaster(m) && t in Ids(os) && !Listed(m.exdates, t)
    ensures IsKey(m, os, t) <==> Accepted(m, os, t)
  {
  }

  // ----- The repair as the source writes it -----

  /** An expansion beyond all overrides that ignores invalid ones refuses none; without a maximum
      there is no limit to exceed. */
  lemma ExpandsBeyond(c: Component, upper: int)
    requires c.Valid() && c.master.Some? && forall o :: o in c.overrides ==> o.rid < upper
    ensures c.Expandable(upper, true)
    ensures c.maxAllowedInstances == 0 ==> c.Affordable(upper, true)
  {
    hide Sound, ValidIds, Base, Places;
  }

  lemma IdsAreBelow(os: seq<Override>, rids: set<int>, upper: int)
    requires forall t :: t in rids ==> t < upper
    ensures rids == Ids(os) ==> forall o :: o in os ==> o.rid < upper
  {
    if rids == Ids(os) {
      forall o | o in os ensures o.rid < upper {
        assert o.rid in Ids(os);
      }
    }
  }

  /** Expands a year and a day beyond the latest of the ids. */
  method ExpandBeyond(c: Component, rids: set<int>, ignoreInvalidInstances: bool) returns (r: Status)
    requires c.Valid() && c.master.Some? && rids != {}
    modifies c`cachedInstances
    ensures r.Ok? ==> forall t :: t in rids ==> Reaches(c.cachedInstances, t + DAY)
    ensures (forall t :: t in rids ==> Reaches(old(c.cachedInstances), t + DAY)) ==>
              r.Ok? && c.cachedInstances == old(c.cachedInstances)
    ensures r.Ok? && rids == Ids(c.overrides) && ignoreInvalidInstances && old(c.CacheFaithful()) ==> c.CacheFaithful()
    ensures rids == Ids(c.overrides) && ignoreInvalidInstances && c.maxAllowedInstances == 0 ==> r.Ok?
  {
    hide Sound, ValidIds, MapFits, IsKey, InSet, Faithful, Ids;
    var highest := Greatest(rids);
    ghost var upper := highest + DAY + YEAR;
    IdsAreBelow(c.overrides, rids, upper);
    if rids == Ids(c.overrides) {
      ExpandsBeyond(c, upper);
    }
    r := c.CacheExpandedTimeRanges(highest + DAY, ignoreInvalidInstances);
  }

  method ValidInstances(c: Component, rids: set<int>, ignoreInvalidInstances: bool) returns (r: Status, valid: set<int>)
    requires c.Valid() && c.master.Some?
    modifies c`cachedInstances
    ensures rids == {} ==> r.Ok? && valid == {} && c.cachedInstances == old(c.cachedInstances)
    ensures r.Ok? ==> forall t :: t in rids ==> Reaches(c.cachedInstances, t + DAY)
    ensures r.Ok? && rids != {} ==>
              c.cachedInstances.Some? &&
              forall t :: t in valid <==> t in rids && t in c.cachedInstances.value.instances
    ensures (forall t :: t in rids ==> Reaches(old(c.cachedInstances), t + DAY)) ==>
              r.Ok? && c.cachedInstances == old(c.cachedInstances)
    ensures r.Ok? && rids == Ids(c.overrides) && ignoreInvalidInstances && old(c.CacheFaithful()) ==> c.CacheFaithful()
    ensures rids == Ids(c.overrides) && ignoreInvalidInstances && c.maxAllowedInstances == 0 ==> r.Ok?
  {
    hide Sound, ValidIds, MapFits, IsKey, InSet, Faithful, Ids;
    r, valid := Ok, {};
    if rids != {} {
      r := ExpandBeyond(c, rids, ignoreInvalidInstances);
      if !r.Ok? {
        return;
      }
    }
    ghost var cached := c.cachedInstances;
    var todo := rids;
    while todo != {}
      invariant todo <= rids && r.Ok? && c.cachedInstances == cached
      invariant forall t :: t in rids ==> Reaches(cached, t + DAY)
      invariant rids != {} ==>
                  cached.Some? &&
                  forall t :: t in valid <==> t in rids && t !in todo && t in cached.value.instances
      invariant rids == {} ==> valid == {}
      decreases |todo|
    {
      assert exists t :: t in todo by { var t := Pick(todo); }
      var rid :| rid in todo;
      todo := todo - {rid};
      var known;
      r, known := c.ValidInstance(rid, ignoreInvalidInstances);
      if known {
        valid := valid + {rid};
      }
    }
  }

  function Greatest(s: set<int>): (k: int)
    requires s != {}
    ensures k in s && forall j :: j in s ==> j <= k
  {
    assert exists k :: k in s && forall j :: j in s ==> j <= k by { HasGreatest(s); }
    var k :| k in s && forall j :: j in s ==> j <= k;
    k
  }

  lemma HasGreatest(s: set<int>)
    requires s != {}
    ensures exists k :: k in s && forall j :: j in s ==> j <= k
  {
    var mirrored := set x | x in s :: -x;
    var y := Pick(s);
    assert -y in mirrored;
    var k := Least(mirrored);
    forall j | j in s ensures j <= -k { assert -j in mirrored; }
    assert -k in s;
  }

  /** What a step reports: what it fixed, or what it would have to fix. */
  datatype Report = Report(repaired: seq<Message>, broken: seq<Message>)

  function Add(r: Report, message: Message, doFix: bool): Report {
    if doFix then r.(repaired := r.repaired + [message]) else r.(broken := r.broken + [message])
  }

  predicate Quiet(r: Report) {
    r.repaired == [] && r.broken == []
  }

  predicate Says(r: Report, doFix: bool, message: Message) {
    message in if doFix then r.repaired else r.broken
  }

  method RemoveOverrideExdates(properties: seq<seq<int>>, ids: set<int>, doFix: bool, report: Report)
    returns (exdates: seq<seq<int>>, r: Report)
    ensures !doFix ==> exdates == properties && r.repaired == report.repaired
    ensures doFix ==> r.broken == report.broken
    ensures doFix && DistinctDates(properties) ==>
              DistinctDates(exdates) && forall t :: Listed(exdates, t) <==> Listed(properties, t) && t !in ids
    ensures Quiet(r) <==> Quiet(report) && forall t :: t in ids ==> !Listed(properties, t)
    ensures (forall t :: t in ids ==> !Listed(properties, t)) ==> exdates == properties
    ensures forall message :: Says(r, doFix, message) <==>
              || Says(report, doFix, message)
              || (message.ExdateForOverride? && message.rid in ids && Listed(properties, message.rid))
  {
    exdates, r := properties, report;
    var found := Values(properties);
    var todo := ids;
    while todo != {}
      invariant todo <= ids
      invariant !doFix ==> exdates == properties && r.repaired == report.repaired
      invariant doFix ==> r.broken == report.broken
      invariant doFix && DistinctDates(properties) ==>
                  DistinctDates(exdates) &&
                  forall t :: Listed(exdates, t) <==> Listed(properties, t) && t !in ids - todo
      invariant Quiet(r) <==> Quiet(report) && forall t :: t in ids - todo ==> t !in found
      invariant (forall t :: t in ids - todo ==> t !in found) ==> exdates == properties
      invariant forall message :: Says(r, doFix, message) <==>
                  || Says(report, doFix, message)
                  || (message.ExdateForOverride? && message.rid in ids - todo && message.rid in found)
      decreases |todo|
    {
      assert exists t :: t in todo by { var t := Pick(todo); }
      var rid :| rid in todo;
      if rid in found {
        if doFix {
          if DistinctDates(exdates) { RemoveOnceExactly(exdates, rid); }
          exdates := RemoveOnce(exdates, rid);
        }
        r := Add(r, ExdateForOverride(rid), doFix);
      }
      ghost var before := ids - todo;
      todo := todo - {rid};
      assert ids - todo == before + {rid};
    }
  }

  method RemoveEarlyExdates(properties: seq<seq<int>>, dtstart: int, doFix: bool, report: Report)
    returns (exdates: seq<seq<int>>, r: Report)
    ensures exdates == if doFix then Trim(properties, t => t >= dtstart) else properties
    ensures doFix ==> r.broken == report.broken
    ensures !doFix ==> r.repaired == report.repaired
    ensures Quiet(r) <==> Quiet(report) && forall t :: Listed(properties, t) ==> t >= dtstart
    ensures forall message :: Says(r, doFix, message) <==>
              || Says(report, doFix, message)
              || (message.EarlierExdate? && message.t < dtstart && Listed(properties, message.t))
  {
    r := report;
    var all := Flat(properties);
    for i := 0 to |all|
      invariant doFix ==> r.broken == report.broken
      invariant !doFix ==> r.repaired == report.repaired
      invariant Quiet(r) <==> Quiet(report) && forall j :: 0 <= j < i ==> all[j] >= dtstart
      invariant forall message :: Says(r, doFix, message) <==>
                  || Says(report, doFix, message)
                  || (message.EarlierExdate? && message.t < dtstart && message.t in all[..i])
    {
      if all[i] < dtstart {
        r := Add(r, EarlierExdate(all[i]), doFix);
      }
      assert all[..i + 1] == all[..i] + [all[i]];
    }
    assert all[..|all|] == all;
    assert forall j :: 0 <= j < |all| ==> Listed(properties, all[j]);
    assert forall t :: Listed(properties, t) ==> t in all;
    exdates := properties;
    if doFix {
      exdates := TrimDates(properties, t => t >= dtstart);
    }
  }

  method AddRdates(properties: seq<seq<int>>, invalid: set<int>, doFix: bool, report: Report)
    returns (rdates: seq<seq<int>>, r: Report)
    ensures !doFix ==> rdates == properties && r.repaired == report.repaired
    ensures doFix ==> r.broken == report.broken
    ensures doFix ==> forall t :: Listed(rdates, t) <==> Listed(properties, t) || t in invalid
    ensures doFix ==> (rdates == [] <==> properties == [] && invalid == {})
    ensures Quiet(r) <==> Quiet(report) && invalid == {}
    ensures forall message :: Says(r, doFix, message) <==>
              Says(report, doFix, message) || (message.InvalidOccurrence? && message.rid in invalid)
  {
    rdates, r := properties, report;
    var todo := invalid;
    while todo != {}
      invariant todo <= invalid
      invariant !doFix ==> rdates == properties && r.repaired == report.repaired
      invariant doFix ==> r.broken == report.broken
      invariant doFix ==> forall t :: Listed(rdates, t) <==> Listed(properties, t) || t in invalid - todo
      invariant doFix ==> (rdates == [] <==> properties == [] && invalid == todo)
      invariant Quiet(r) <==> Quiet(report) && invalid == todo
      invariant forall message :: Says(r, doFix, message) <==>
                  Says(report, doFix, message) || (message.InvalidOccurrence? && message.rid in invalid - todo)
      decreases |todo|
    {
      assert exists t :: t in todo by { var t := Pick(todo); }
      var rid :| rid in todo;
      if doFix {
        ListedAppend(rdates, rid);
        rdates := rdates + [[rid]];
      }
      r := Add(r, InvalidOccurrence(rid), doFix);
      ghost var before := invalid - todo;
      todo := todo - {rid};
      assert invalid - todo == before + {rid};
    }
  }

  lemma ListedAppend(properties: seq<seq<int>>, rid: int)
    ensures forall t :: Listed(properties + [[rid]], t) <==> Listed(properties, t) || t == rid
  {
    assert forall p :: p in properties + [[rid]] <==> p in properties || p == [rid];
    assert [rid] in properties + [[rid]];
  }

  /** What a call finds nothing wrong with: no EXDATE at an override id or before DTSTART, and
      every id in the expansion or an RDATE; without recurrence properties, no override. */
  ghost predicate NothingWrong(m: Master, os: seq<Override>, cached: Option<Cached>) {
    if MasterRecurs(m) then
      && (forall t :: Listed(m.exdates, t) ==> t !in Ids(os) && t >= m.dtstart)
      && (forall t :: t in Ids(os) ==> Listed(m.rdates, t) || (cached.Some? && t in cached.value.instances))
    else os == []
  }

  /** What is wrong with the EXDATEs: one at an override id, or one before DTSTART, which a repair
      does not report again where it is both. */
  ghost predicate ExdateFinding(m: Master, os: seq<Override>, doFix: bool, message: Message) {
    match message
    case ExdateForOverride(rid) => rid in Ids(os) && Listed(m.exdates, rid)
    case EarlierExdate(t) => t < m.dtstart && Listed(m.exdates, t) && (doFix ==> t !in Ids(os))
    case InvalidOccurrence(_) => false
  }

  /** All that is wrong: besides, an override id that is neither an RDATE nor in the expansion. */
  ghost predicate Finding(m: Master, os: seq<Override>, cached: Option<Cached>, doFix: bool, message: Message) {
    || (MasterRecurs(m) && ExdateFinding(m, os, doFix, message))
    || (message.InvalidOccurrence? && message.rid in Ids(os) &&
        (MasterRecurs(m) ==>
          !Listed(m.rdates, message.rid) && !(cached.Some? && message.rid in cached.value.instances)))
  }

  ghost predicate ExdatesRepaired(m: Master, os: seq<Override>, exdates: seq<seq<int>>) {
    && (forall t :: Listed(exdates, t) <==> Listed(m.exdates, t) && t !in Ids(os) && t >= m.dtstart)
    && (exdates == [] <==> forall t :: !Listed(exdates, t))
  }

  /** What a repair makes of a master `m`. */
  ghost predicate Repaired(m: Master, os: seq<Override>, after: Master)
    requires ValidMaster(m)
  {
    && after == m.(rdates := after.rdates, exdates := after.exdates)
    && (if MasterRecurs(m) then
          && ExdatesRepaired(m, os, after.exdates)
          && (forall t :: Listed(after.rdates, t) <==> Listed(m.rdates, t) || (t in Ids(os) && !Accepted(m, os, t)))
          && (after.rdates == [] <==> m.rdates == [] && forall t :: t in Ids(os) ==> Accepted(m, os, t))
        else
          && after.exdates == []
          && (forall t :: Listed(after.rdates, t) <==> t in Ids(os))
          && (after.rdates == [] <==> os == []))
  }

  lemma IdsEmpty(os: seq<Override>)
    ensures Ids(os) == {} <==> os == []
  {
    if os != [] {
      assert os[0] in os && os[0].rid in Ids(os);
    }
  }

  lemma RdatesRepair(m: Master, os: seq<Override>, after: Master, valid: set<int>)
    requires ValidMaster(m) && after == m.(rdates := after.rdates, exdates := after.exdates)
    requires MasterRecurs(m) ==> ExdatesRepaired(m, os, after.exdates)
    requires MasterRecurs(m) ==>
               forall t :: t in Ids(os) ==> (t in valid <==> Accepted(m, os, t) || Listed(m.rdates, t))
    requires !MasterRecurs(m) ==> after.exdates == [] && valid == {}
    requires forall t :: Listed(after.rdates, t) <==> Listed(m.rdates, t) || t in Ids(os) - valid
    requires after.rdates == [] <==> m.rdates == [] && Ids(os) - valid == {}
    ensures Repaired(m, os, after)
  {
    RdatesAreAccepted(m, os);
    IdsEmpty(os);
    NothingLeft(Ids(os), valid);
    hide Accepted;
    assert forall t :: !Listed([], t);
  }

  lemma NothingLeft<T>(a: set<T>, b: set<T>)
    ensures a - b == {} <==> a <= b
  {
    assert forall t :: t in a && t !in b ==> t in a - b;
  }

  lemma RdatesAreAccepted(m: Master, os: seq<Override>)
    requires ValidMaster(m)
    ensures forall t :: Listed(m.rdates, t) ==> Accepted(m, os, t)
  {
  }

  lemma CachedIsAccepted(cached: Cached, m: Master, m1: Master, os: seq<Override>, t: int)
    requires ValidMaster(m) && m1 == m.(exdates := m1.exdates)
    requires Faithful(cached, m1, os) && t in Ids(os) && !Listed(m1.exdates, t)
    requires cached.limit.Some? ==> t < cached.limit.value
    ensures t in cached.instances <==> Accepted(m, os, t)
  {
    AcceptedIsKey(m1, os, t);
  }

  lemma CachedAreAccepted(cached: Cached, m: Master, m1: Master, os: seq<Override>)
    requires ValidMaster(m) && m1 == m.(exdates := m1.exdates) && Faithful(cached, m1, os)
    requires forall t :: t in Ids(os) ==> !Listed(m1.exdates, t) && Reaches(Some(cached), t + DAY)
    ensures forall t :: t in Ids(os) ==> (t in cached.instances <==> Accepted(m, os, t))
  {
    hide Accepted, Faithful;
    forall t | t in Ids(os) ensures t in cached.instances <==> Accepted(m, os, t) {
      CachedIsAccepted(cached, m, m1, os, t);
    }
  }

  lemma TrimmedAreRepaired(m: Master, os: seq<Override>, exdates: seq<seq<int>>)
    requires forall t :: Listed(exdates, t) <==> Listed(m.exdates, t) && t !in Ids(os)
    ensures ExdatesRepaired(m, os, Trim(exdates, t => t >= m.dtstart))
  {
    forall t { TrimLists(exdates, u => u >= m.dtstart, t); }
    TrimEmpty(exdates, u => u >= m.dtstart);
  }

  lemma TrimEmpty(properties: seq<seq<int>>, keep: int -> bool)
    ensures Trim(properties, keep) == [] <==> forall t :: !Listed(Trim(properties, keep), t)
  {
    if properties != [] {
      TrimEmpty(properties[1..], keep);
      var r := Trim(properties, keep);
      if r != [] {
        TrimHasValues(properties, keep);
        assert r[0] in r && r[0] != [];
        assert r[0][0] in r[0];
        assert Listed(r, r[0][0]);
      }
    }
  }

  lemma TrimHasValues(properties: seq<seq<int>>, keep: int -> bool)
    ensures forall p :: p in Trim(properties, keep) ==> p != []
  {
  }

  /** After a repair every override id is valid and no EXDATE excludes one or precedes DTSTART;
      apart from override ids the instances are what the master generates without the EXDATEs
      from DTSTART on. */
  lemma RepairIsSound(m: Master, os: seq<Override>, after: Master)
    requires ValidMaster(m) && Repaired(m, os, after)
    ensures ValidMaster(after) && AllIdsValid(after, os)
    ensures forall t :: Listed(after.exdates, t) ==> t !in Ids(os) && t >= after.dtstart
    ensures forall t :: t !in Ids(os) ==>
              (InSet(after, t) <==> Generated(m, t) && !(Listed(m.exdates, t) && t >= m.dtstart))
  {
    forall o | o in os ensures IsKey(after, os, o.rid) {
      assert o.rid in Ids(os);
    }
  }

  /** No RDATE before DTSTART is excluded by an EXDATE, but perhaps of an overridden instance. */
  ghost predicate NoEarlyExclusion(m: Master, os: seq<Override>, limit: Option<int>) {
    forall t :: t < m.dtstart && t !in Ids(os) && (limit.Some? ==> t < limit.value) ==>
      !(Listed(m.rdates, t) && Listed(m.exdates, t))
  }

  lemma OnlyRdatesAreEarly(m: Master, t: int)
    requires ValidMaster(m) && t < m.dtstart
    ensures Generated(m, t) <==> Listed(m.rdates, t)
  {
  }

  /** Apart from override ids a repair keeps the recurrence set if and only if no RDATE before
      DTSTART is excluded: the removal of early EXDATEs brings such instances back. */
  lemma RepairKeepsSetExactly(m: Master, os: seq<Override>, after: Master)
    requires ValidMaster(m) && Repaired(m, os, after)
    ensures ValidMaster(after)
    ensures (forall t :: t !in Ids(os) ==> (InSet(after, t) <==> InSet(m, t))) <==> NoEarlyExclusion(m, os, None)
  {
    RepairIsSound(m, os, after);
    hide Repaired;
    forall t | t < m.dtstart
      ensures Generated(m, t) <==> Listed(m.rdates, t)
    {
      OnlyRdatesAreEarly(m, t);
    }
  }

  /** An excluded RDATE before DTSTART, and what a repair makes of it. */
  const EARLY := Master(100, 10, None, [[50]], [[50]], false)
  const EARLY_REPAIRED := Master(100, 10, None, [[50]], [], false)
  const AT_DTSTART := [Override(100, 100, 110, true, false, false)]

  lemma EarlyIsRepaired()
    ensures Repaired(EARLY, AT_DTSTART, EARLY_REPAIRED)
    ensures ValidIds(EARLY, AT_DTSTART) && AllIdsValid(EARLY, AT_DTSTART)
  {
    assert [50] in EARLY.rdates && [50] in EARLY.exdates;
    assert forall t :: Listed(EARLY.exdates, t) <==> t == 50;
    assert forall t :: Listed(EARLY.rdates, t) <==> t == 50;
    assert forall t :: !Listed(EARLY_REPAIRED.exdates, t);
    assert forall t :: t in Ids(AT_DTSTART) <==> t == 100;
  }

  /** The excluded instance is there after the repair. */
  lemma RepairMayAddInstance()
    ensures Repaired(EARLY, AT_DTSTART, EARLY_REPAIRED)
    ensures 50 !in Ids(AT_DTSTART) && !InSet(EARLY, 50) && InSet(EARLY_REPAIRED, 50)
  {
    EarlyIsRepaired();
    assert [50] in EARLY.exdates && [50] in EARLY_REPAIRED.rdates;
  }

  // ----- The expansion that a repair leaves behind -----

  /** The expansion cached during a repair of a recurring master is made after the EXDATEs at
      override ids have gone, and before the early ones go and RDATEs are added. */
  ghost predicate ExpandedMidway(cached: Cached, m: Master, os: seq<Override>)
    requires ValidMaster(m)
  {
    forall t :: (cached.limit.Some? ==> t < cached.limit.value) ==>
      (t in cached.instances <==>
        (Generated(m, t) && !(Listed(m.exdates, t) && t !in Ids(os))) ||
        exists o :: o in os && o.rid == t && (m.cancelled || o.cancelled))
  }

  lemma FaithfulMidway(cached: Cached, m: Master, m1: Master, os: seq<Override>)
    requires ValidMaster(m) && m1 == m.(exdates := m1.exdates) && Faithful(cached, m1, os)
    requires forall t :: Listed(m1.exdates, t) <==> Listed(m.exdates, t) && t !in Ids(os)
    ensures ExpandedMidway(cached, m, os)
  {
  }

  /** Whether that expansion still holds: no RDATE was added for an override, and no excluded
      RDATE before DTSTART came back. */
  ghost predicate CacheSurvives(m: Master, os: seq<Override>, limit: Option<int>)
    requires ValidMaster(m)
  {
    (forall t :: t in Ids(os) ==> Accepted(m, os, t)) && NoEarlyExclusion(m, os, limit)
  }

  /** What is a key after a repair. */
  lemma KeyAfterRepair(m: Master, os: seq<Override>, after: Master, t: int)
    requires ValidMaster(m) && Repaired(m, os, after)
    ensures ValidMaster(after)
    ensures t in Ids(os) ==> IsKey(after, os, t)
    ensures t !in Ids(os) ==> (IsKey(after, os, t) <==> Generated(m, t) && !(Listed(m.exdates, t) && t >= m.dtstart))
  {
    RepairIsSound(m, os, after);
  }

  /** The cached expansion agrees with the repaired component if and only if `CacheSurvives`;
      otherwise it is stale, since a repair does not drop it. */
  lemma CacheSurvivesExactly(m: Master, os: seq<Override>, after: Master, cached: Cached)
    requires ValidMaster(m) && MasterRecurs(m) && Repaired(m, os, after)
    requires ExpandedMidway(cached, m, os)
    requires forall t :: t in Ids(os) ==> Reaches(Some(cached), t)
    ensures ValidMaster(after)
    ensures Faithful(cached, after, os) <==> CacheSurvives(m, os, cached.limit)
  {
    forall t
      ensures ValidMaster(after)
      ensures t in Ids(os) ==> IsKey(after, os, t)
      ensures t !in Ids(os) ==> (IsKey(after, os, t) <==> Generated(m, t) && !(Listed(m.exdates, t) && t >= m.dtstart))
      ensures t < m.dtstart ==> (Generated(m, t) <==> Listed(m.rdates, t))
    {
      KeyAfterRepair(m, os, after, t);
      if t < m.dtstart {
        OnlyRdatesAreEarly(m, t);
      }
    }
    hide IsKey, Repaired, Generated;
  }

  lemma ReachesBefore(cached: Cached, os: seq<Override>)
    requires forall t :: t in Ids(os) ==> Reaches(Some(cached), t + DAY)
    ensures forall t :: t in Ids(os) ==> Reaches(Some(cached), t)
  {
  }

  /** An expansion cached before the repair of a series whose override ids were valid: it still
      agrees if and only if no excluded RDATE below its limit came back. */
  lemma EarlierCacheSurvivesExactly(m: Master, os: seq<Override>, after: Master, cached: Cached)
    requires ValidMaster(m) && ValidIds(m, os) && Repaired(m, os, after) && Faithful(cached, m, os)
    ensures ValidMaster(after)
    ensures Faithful(cached, after, os) <==> NoEarlyExclusion(m, os, cached.limit)
  {
    forall t
      ensures ValidMaster(after)
      ensures t in Ids(os) ==> IsKey(after, os, t) && IsKey(m, os, t)
      ensures t !in Ids(os) ==> (IsKey(after, os, t) <==> Generated(m, t) && !(Listed(m.exdates, t) && t >= m.dtstart))
      ensures t !in Ids(os) ==> (IsKey(m, os, t) <==> Generated(m, t) && !Listed(m.exdates, t))
      ensures t < m.dtstart ==> (Generated(m, t) <==> Listed(m.rdates, t))
    {
      KeyAfterRepair(m, os, after, t);
      if t < m.dtstart {
        OnlyRdatesAreEarly(m, t);
      }
    }
    hide IsKey, Repaired, Generated, ValidIds;
  }

  // ----- What a repair reports -----

  lemma NothingSaid(doFix: bool)
    ensures forall message :: !Says(Report([], []), doFix, message)
  {
  }

  /** The two passes over the EXDATEs, the second over what the first has left, report what is wrong
      with them. */
  lemma ExdatesReported(m: Master, os: seq<Override>, left: seq<seq<int>>, doFix: bool, first: Report, both: Report)
    requires forall t :: Listed(left, t) <==> Listed(m.exdates, t) && (doFix ==> t !in Ids(os))
    requires forall message :: Says(first, doFix, message) <==>
               || Says(Report([], []), doFix, message)
               || (message.ExdateForOverride? && message.rid in Ids(os) && Listed(m.exdates, message.rid))
    requires forall message :: Says(both, doFix, message) <==>
               || Says(first, doFix, message)
               || (message.EarlierExdate? && message.t < m.dtstart && Listed(left, message.t))
    ensures forall message :: Says(both, doFix, message) <==> ExdateFinding(m, os, doFix, message)
  {
    NothingSaid(doFix);
    hide Says, Listed, Ids;
  }

  lemma AllReported(m: Master, os: seq<Override>, cached: Option<Cached>, doFix: bool, valid: set<int>,
                    before: Report, after: Report)
    requires MasterRecurs(m) ==>
               && (forall message :: Says(before, doFix, message) <==> ExdateFinding(m, os, doFix, message))
               && (forall t :: t in valid <==>
                     || Listed(m.rdates, t)
                     || (t in Ids(os) && cached.Some? && t in cached.value.instances))
    requires !MasterRecurs(m) ==> before == Report([], []) && valid == {}
    requires forall message :: Says(after, doFix, message) <==>
               Says(before, doFix, message) || (message.InvalidOccurrence? && message.rid in Ids(os) - valid)
    ensures forall message :: Says(after, doFix, message) <==> Finding(m, os, cached, doFix, message)
  {
    NothingSaid(doFix);
    hide Says, Listed, Ids;
  }

  lemma EmptyIsQuiet()
    ensures Quiet(Report([], []))
  {
  }

  lemma QuietExactly(m: Master, os: seq<Override>, cached: Option<Cached>, valid: set<int>, before: Report,
                     after: Report)
    requires MasterRecurs(m) ==>
               && (Quiet(before) <==> forall t :: Listed(m.exdates, t) ==> t !in Ids(os) && t >= m.dtstart)
               && (forall t :: t in valid <==>
                     || Listed(m.rdates, t)
                     || (t in Ids(os) && cached.Some? && t in cached.value.instances))
    requires !MasterRecurs(m) ==> before == Report([], []) && valid == {}
    requires Quiet(after) <==> Quiet(before) && Ids(os) - valid == {}
    ensures Quiet(after) <==> NothingWrong(m, os, cached)
  {
    IdsEmpty(os);
    NothingLeft(Ids(os), valid);
    EmptyIsQuiet();
    hide Listed, Ids, Quiet;
  }

  // ----- The two steps of a repair -----

  /** The part of the repair that concerns a master with recurrence properties: the EXDATEs,
      and which override ids are valid. */
  method CheckRecurring(c: Component, doFix: bool) returns (r: Status, validRids: set<int>, report: Report)
    requires c.Valid() && c.master.Some? && MasterRecurs(c.master.value)
    modifies c
    ensures c.Valid() && c.overrides == old(c.overrides)
    ensures c.master.Some? && c.master.value == old(c.master).value.(exdates := c.master.value.exdates)
    ensures !doFix ==> c.master == old(c.master)
    ensures r.Ok? ==>
              forall t :: t in validRids <==>
                Listed(c.master.value.rdates, t) ||
                (t in Ids(c.overrides) && c.cachedInstances.Some? && t in c.cachedInstances.value.instances)
    ensures r.Ok? ==>
              (Quiet(report) <==>
                forall t :: Listed(old(c.master).value.exdates, t) ==>
                  t !in Ids(c.overrides) && t >= c.master.value.dtstart)
    ensures if doFix then report.broken == [] else report.repaired == []
    ensures r.Ok? && (doFix ==> DistinctDates(old(c.master).value.exdates)) ==>
              forall message :: Says(report, doFix, message) <==>
                ExdateFinding(old(c.master).value, c.overrides, doFix, message)
    ensures r.Ok? && doFix && DistinctDates(old(c.master).value.exdates) ==>
              ExdatesRepaired(old(c.master).value, c.overrides, c.master.value.exdates)
    ensures r.Ok? && doFix && DistinctDates(old(c.master).value.exdates) && old(c.cachedInstances).None? ==>
              forall t :: t in Ids(c.overrides) ==>
                Reaches(c.cachedInstances, t + DAY) &&
                (t in c.cachedInstances.value.instances <==> Accepted(old(c.master).value, c.overrides, t))
    ensures (r.Ok? && doFix && DistinctDates(old(c.master).value.exdates) &&
             old(c.cachedInstances).None? && c.overrides != []) ==>
              c.cachedInstances.Some? && ExpandedMidway(c.cachedInstances.value, old(c.master).value, c.overrides)
    ensures (forall t :: t in Ids(c.overrides) ==> Reaches(old(c.cachedInstances), t + DAY)) ==>
              r.Ok? && c.cachedInstances == old(c.cachedInstances)
    ensures c.maxAllowedInstances == 0 ==> r.Ok?
  {
    hide Sound, ValidIds, MapFits, InSet, IsKey, Faithful, Accepted, Generated, Trim, ExdatesRepaired, ExpandedMidway;
    hide Listed, Reaches, DistinctDates, Says, ExdateFinding, Quiet;
    EmptyIsQuiet();
    IdsEmpty(c.overrides);
    var m, allRids := c.master.value, Ids(c.overrides);
    var exdates;
    exdates, report := RemoveOverrideExdates(m.exdates, allRids, doFix, Report([], []));
    c.master := Some(m.(exdates := exdates));
    ghost var m1 := c.master.value;
    r, validRids := ValidInstances(c, allRids, true);
    if !r.Ok? {
      return;
    }
    if doFix && old(c.cachedInstances).None? && DistinctDates(m.exdates) && allRids != {} {
      CachedAreAccepted(c.cachedInstances.value, m, m1, c.overrides);
      FaithfulMidway(c.cachedInstances.value, m, m1, c.overrides);
    }
    validRids := validRids + Values(m.rdates);
    ghost var first := report;
    exdates, report := RemoveEarlyExdates(exdates, m.dtstart, doFix, report);
    if doFix ==> DistinctDates(m.exdates) {
      ExdatesReported(m, c.overrides, m1.exdates, doFix, first, report);
    }
    if doFix && DistinctDates(m.exdates) {
      TrimmedAreRepaired(m, c.overrides, m1.exdates);
    }
    c.master := Some(m.(exdates := exdates));
  }

  method ValidRecurrenceIDs(c: Component, doFix: bool) returns (r: Status, report: Report)
    requires c.Valid()
    modifies c
    ensures c.Valid() && c.overrides == old(c.overrides)
    ensures c.master.Some? <==> old(c.master).Some?
    ensures old(c.master).None? ==> r.Ok? && Quiet(report)
    ensures !doFix ==> c.master == old(c.master)
    ensures r.Ok? && old(c.master).Some? ==>
              (Quiet(report) <==> NothingWrong(old(c.master).value, c.overrides, c.cachedInstances))
    ensures r.Ok? && doFix ==> report.broken == []
    ensures r.Ok? && !doFix ==> report.repaired == []
    ensures r.Ok? && old(c.master).Some? && (doFix ==> DistinctDates(old(c.master).value.exdates)) ==>
              forall message :: Says(report, doFix, message) <==>
                Finding(old(c.master).value, c.overrides, c.cachedInstances, doFix, message)
    ensures (r.Ok? && doFix && old(c.master).Some? && old(c.cachedInstances).None? &&
             DistinctDates(old(c.master).value.exdates)) ==>
              && Repaired(old(c.master).value, c.overrides, c.master.value)
              && (MasterRecurs(old(c.master).value) ==>
                    forall t :: t in Ids(c.overrides) ==>
                      Reaches(c.cachedInstances, t + DAY) &&
                      (t in c.cachedInstances.value.instances <==> Accepted(old(c.master).value, c.overrides, t)))
    ensures (r.Ok? && doFix && old(c.master).Some? && MasterRecurs(old(c.master).value) && c.overrides != [] &&
             old(c.cachedInstances).None? && DistinctDates(old(c.master).value.exdates)) ==>
              c.cachedInstances.Some? &&
              (c.CacheFaithful() <==> CacheSurvives(old(c.master).value, c.overrides, c.cachedInstances.value.limit))
    ensures (forall t :: t in Ids(c.overrides) ==> Reaches(old(c.cachedInstances), t + DAY)) ==>
              r.Ok? && c.cachedInstances == old(c.cachedInstances)
    ensures c.maxAllowedInstances == 0 ==> r.Ok?
  {
    hide Sound, ValidIds, MapFits, InSet, IsKey, Faithful, Accepted, Generated, Trim, Repaired, ExdatesRepaired,
         ExpandedMidway, CacheSurvives, Listed, DistinctDates, NoEarlyExclusion, Says,
         ExdateFinding, Finding, Reaches, NothingWrong, Quiet;
    EmptyIsQuiet();
    r, report := Ok, Report([], []);
    if c.master.None? {
      return;
    }
    var m := c.master.value;
    var allRids := Ids(c.overrides);
    var validRids := {};
    if MasterRecurs(m) {
      r, validRids, report := CheckRecurring(c, doFix);
      if !r.Ok? {
        return;
      }
    }
    var invalidRids := allRids - validRids;
    IdsEmpty(c.overrides);
    NothingLeft(allRids, validRids);
    var rdates;
    ghost var before := report;
    rdates, report := AddRdates(m.rdates, invalidRids, doFix, report);
    if doFix ==> DistinctDates(m.exdates) {
      AllReported(m, c.overrides, c.cachedInstances, doFix, validRids, before, report);
    }
    QuietExactly(m, c.overrides, c.cachedInstances, validRids, before, report);
    c.master := Some(c.master.value.(rdates := rdates));
    if doFix && old(c.cachedInstances).None? && DistinctDates(m.exdates) {
      RdatesRepair(m, c.overrides, c.master.value, validRids);
      if MasterRecurs(m) && c.overrides != [] {
        ReachesBefore(c.cachedInstances.value, c.overrides);
        CacheSurvivesExactly(m, c.overrides, c.master.value, c.cachedInstances.value);
      }
    }
  }

  // ----- What one repair pass achieves -----

  /** When the master still has recurrence properties after a repair. */
  lemma RecursAfterRepair(m: Master, os: seq<Override>, after: Master)
    requires ValidMaster(m) && Repaired(m, os, after)
    ensures MasterRecurs(after) <==> if MasterRecurs(m) then StaysRecurring(m, os) else os != []
  {
    hide Accepted;
    if MasterRecurs(m) && after.exdates != [] {
      assert exists t :: Listed(after.exdates, t);
    }
    if exists o :: o in os && !Accepted(m, os, o.rid) {
      var o :| o in os && !Accepted(m, os, o.rid);
      assert o.rid in Ids(os);
    }
  }

  ghost predicate OnePassSuffices(m: Master, os: seq<Override>)
    requires ValidMaster(m)
  {
    os == [] || !MasterRecurs(m) || StaysRecurring(m, os)
  }

  /** Two repair passes in a row, with no expansion cached before: the second has nothing to
      report if and only if `OnePassSuffices`. */
  method RepairTwice(c: Component) returns (r: Status, first: Report, second: Report)
    requires c.Valid() && c.master.Some? && c.cachedInstances.None? && DistinctDates(c.master.value.exdates)
    modifies c
    ensures c.Valid() && c.overrides == old(c.overrides)
    ensures r.Ok? ==> first.broken == [] && second.broken == []
    ensures r.Ok? ==> (Quiet(second) <==> OnePassSuffices(old(c.master).value, c.overrides))
    ensures c.maxAllowedInstances == 0 ==> r.Ok?
  {
    hide Accepted, StaysRecurring, Faithful, IsKey;
    ghost var m, os := c.master.value, c.overrides;
    r, first := ValidRecurrenceIDs(c, true);
    if !r.Ok? {
      second := first;
      return;
    }
    ghost var after, cached := c.master.value, c.cachedInstances;
    RecursAfterRepair(m, os, after);
    r, second := ValidRecurrenceIDs(c, true);
    if r.Ok? {
      NothingWrongAfterRepair(m, os, after, c.cachedInstances);
    }
  }

  lemma NothingWrongAfterRepair(m: Master, os: seq<Override>, after: Master, cached: Option<Cached>)
    requires ValidMaster(m) && Repaired(m, os, after)
    requires MasterRecurs(m) ==>
               forall t :: t in Ids(os) ==>
                 cached.Some? && (t in cached.value.instances <==> Accepted(m, os, t))
    ensures NothingWrong(after, os, cached) <==> MasterRecurs(after) || os == []
  {
    hide Accepted;
    IdsEmpty(os);
  }

  /** A series whose only EXDATE falls on its only instance, which is overridden: the first pass
      removes the EXDATE, and the second finds an override of a component without recurrence. */
  lemma OnePassMayNotSuffice()
    ensures var m, os := Master(100, 10, None, [], [[100]], false), [Override(100, 100, 110, true, false, false)];
            MasterRecurs(m) && !OnePassSuffices(m, os)
  {
    var m, os := Master(100, 10, None, [], [[100]], false), [Override(100, 100, 110, true, false, false)];
    assert os[0].rid in Ids(os);
    assert forall t :: Listed(m.exdates, t) ==> t == 100;
    assert forall o :: o in os ==> Accepted(m, os, o.rid);
  }

  /** An override that is no instance of its master, and what a repair makes of it. */
  const OFF_RULE := Master(100, 10, Some(RRule(10, Forever)), [], [], false)
  const OFF_RULE_REPAIRED := Master(100, 10, Some(RRule(10, Forever)), [[105]], [], false)
  const AT_105 := [Override(105, 105, 115, true, false, false)]

  lemma OffRule()
    ensures !Accepted(OFF_RULE, AT_105, 105) && forall t :: t in Ids(AT_105) <==> t == 105
  {
    assert !InRule(110, RRule(10, Forever), 105);
    assert !InRule(100, RRule(10, Forever), 105);
    assert AT_105[0] in AT_105;
    assert forall o :: o in AT_105 ==> o == AT_105[0];
  }

  /** Stale because the override needs an RDATE. */
  lemma StaleAfterAddedRdate(cached: Cached)
    requires ExpandedMidway(cached, OFF_RULE, AT_105) && Reaches(Some(cached), 105)
    ensures Repaired(OFF_RULE, AT_105, OFF_RULE_REPAIRED) && !Faithful(cached, OFF_RULE_REPAIRED, AT_105)
  {
    OffRule();
    assert forall t :: Listed(OFF_RULE_REPAIRED.rdates, t) <==> t == 105 by {
      assert [105] in OFF_RULE_REPAIRED.rdates;
    }
    assert forall t :: !Listed(OFF_RULE.exdates, t) && !Listed(OFF_RULE.rdates, t);
    hide Accepted;
    assert Repaired(OFF_RULE, AT_105, OFF_RULE_REPAIRED);
    CacheSurvivesExactly(OFF_RULE, AT_105, OFF_RULE_REPAIRED, cached);
  }

  /** Stale although every override id was valid: an early EXDATE was removed. */
  lemma StaleAfterEarlyExdate(cached: Cached)
    requires Faithful(cached, EARLY, AT_DTSTART) && cached.limit.None?
    ensures Repaired(EARLY, AT_DTSTART, EARLY_REPAIRED) && ValidIds(EARLY, AT_DTSTART)
    ensures !Faithful(cached, EARLY_REPAIRED, AT_DTSTART)
  {
    EarlyIsRepaired();
    RepairMayAddInstance();
    assert AT_DTSTART[0] in AT_DTSTART;
    assert !IsKey(EARLY, AT_DTSTART, 50) && IsKey(EARLY_REPAIRED, AT_DTSTART, 50);
  }
}
