/** Splitting a recurring series at a point in time: what onlyPastInstances and
    onlyFutureInstances of twistedcaldav/ical.py leave of the master component. */
module SeriesSplit {
  import opened Collections
  import opened Recurrence

  // ----- RDATE and EXDATE lists -----

  /** The values that satisfy `keep`; a property left without values is removed. */
  function Trim(properties: seq<seq<int>>, keep: int -> bool): seq<seq<int>> {
    if properties == [] then []
    else
      var values := Filter(properties[0], keep);
      (if values == [] then [] else [values]) + Trim(properties[1..], keep)
  }

  function Filter(s: seq<int>, keep: int -> bool): (r: seq<int>)
    ensures forall t :: t in r <==> t in s && keep(t)
  {
    if s == [] then []
    else (if keep(s[0]) then [s[0]] else []) + Filter(s[1..], keep)
  }

  lemma {:induction false} TrimLists(properties: seq<seq<int>>, keep: int -> bool, t: int)
    ensures Listed(Trim(properties, keep), t) <==> Listed(properties, t) && keep(t)
  {
    if properties != [] {
      var values, tail := Filter(properties[0], keep), Trim(properties[1..], keep);
      TrimLists(properties[1..], keep, t);
      assert forall p :: p in properties <==> p == properties[0] || p in properties[1..];
      assert forall p :: p in Trim(properties, keep) <==> (p == values && values != []) || p in tail;
      if t in values { assert values in Trim(properties, keep); }
    }
  }

  // ----- The part before the split -----

  function PastMaster(m: Master, rid: int): Master {
    m.(rrule := if m.rrule.Some? then Some(RRule(m.rrule.value.step, Until(rid - 1))) else None,
       rdates := Trim(m.rdates, t => t < rid),
       exdates := Trim(m.exdates, t => t < rid))
  }

  ghost predicate KeepsExactlyPast(m: Master, rid: int)
    requires ValidMaster(m)
  {
    forall t :: InSet(PastMaster(m, rid), t) <==> InSet(m, t) && t < rid
  }

  /** DTSTART is before the split, and the rule's progression has no start before the split
      that the rule itself had already ended before, unless a date list covers it. */
  ghost predicate ReachesSplit(m: Master, rid: int)
    requires ValidMaster(m)
  {
    && m.dtstart < rid
    && (m.rrule.Some? ==>
          forall t :: InRule(m.dtstart, RRule(m.rrule.value.step, Forever), t) && m.dtstart < t < rid ==>
            InMasterRule(m, t) || Listed(m.rdates, t) || Listed(m.exdates, t))
  }

  /** The recurrence set of the past part, for any split. */
  lemma PastSet(m: Master, rid: int, t: int)
    requires ValidMaster(m)
    ensures ValidMaster(PastMaster(m, rid))
    ensures InSet(PastMaster(m, rid), t) <==>
              ((t == m.dtstart || (m.rrule.Some? && InRule(m.dtstart, RRule(m.rrule.value.step, Forever), t) && t < rid)
                || (Listed(m.rdates, t) && t < rid))
              && !(Listed(m.exdates, t) && t < rid))
  {
    TrimLists(m.rdates, t => t < rid, t);
    TrimLists(m.exdates, t => t < rid, t);
    if m.rrule.Some? {
      RuleUntil(m.dtstart, m.rrule.value, rid, t);
    }
  }

  /** The past part is exact if and only if the series reaches the split: the rewritten UNTIL
      replaces an earlier end of the rule. */
  lemma PastSplitExactly(m: Master, rid: int)
    requires ValidMaster(m)
    ensures KeepsExactlyPast(m, rid) <==> ReachesSplit(m, rid)
  {
    forall t ensures InSet(PastMaster(m, rid), t) <==>
              ((t == m.dtstart || (m.rrule.Some? && InRule(m.dtstart, RRule(m.rrule.value.step, Forever), t) && t < rid)
                || (Listed(m.rdates, t) && t < rid))
              && !(Listed(m.exdates, t) && t < rid))
    {
      PastSet(m, rid, t);
    }
    if ReachesSplit(m, rid) {
      forall t ensures InSet(PastMaster(m, rid), t) <==> InSet(m, t) && t < rid {
        if InMasterRule(m, t) { RuleInProgression(m.dtstart, m.rrule.value, t); }
        if m.rrule.Some? && InRule(m.dtstart, RRule(m.rrule.value.step, Forever), t) {
          ProgressionFrom(m.dtstart, m.rrule.value.step, t);
        }
      }
    }
    if KeepsExactlyPast(m, rid) {
      assert InSet(PastMaster(m, rid), m.dtstart) <==> InSet(m, m.dtstart) && m.dtstart < rid;
    }
  }

  lemma ProgressionFrom(d: int, step: nat, t: int)
    requires step > 0 && InRule(d, RRule(step, Forever), t)
    ensures d <= t
  {
  }

  // ----- The part from the split on -----

  /** The index of the first element at or after `rid`. */
  function FirstFrom(s: seq<int>, rid: int): (k: Option<nat>)
    ensures k.Some? ==> k.value < |s| && s[k.value] >= rid && forall i :: 0 <= i < k.value ==> s[i] < rid
    ensures k.None? ==> forall i :: 0 <= i < |s| ==> s[i] < rid
  {
    if s == [] then None
    else if s[0] >= rid then Some(0)
    else
      var k := FirstFrom(s[1..], rid);
      if k.Some? then Some(k.value + 1) else None
  }

  /** The first start of the rule in [rid, nextYear), counted among the starts below nextYear. */
  function Cut(m: Master, rid: int, nextYear: int): (k: Option<nat>)
    requires ValidMaster(m)
    ensures k.Some? ==> m.rrule.Some? && k.value < |RuleStarts(m.dtstart, m.rrule.value, nextYear)|
  {
    if m.rrule.Some? then FirstFrom(RuleStarts(m.dtstart, m.rrule.value, nextYear), rid) else None
  }

  /** The instance the new master is derived from. */
  function NewStart(m: Master, rid: int, nextYear: int): int
    requires ValidMaster(m)
  {
    var k := Cut(m, rid, nextYear);
    if k.Some? then RuleStarts(m.dtstart, m.rrule.value, nextYear)[k.value] else rid
  }

  function FutureMaster(m: Master, rid: int, nextYear: int): Master
    requires ValidMaster(m)
  {
    var k, start := Cut(m, rid, nextYear), NewStart(m, rid, nextYear);
    m.(dtstart := start,
       rrule := if k.Some? then Some(Advance(m.rrule.value, k.value)) else None,
       rdates := Trim(m.rdates, t => t >= rid && t != start),
       exdates := Trim(m.exdates, t => t >= rid))
  }

  ghost predicate KeepsExactlyFuture(m: Master, part: Master, rid: int)
    requires ValidMaster(m) && ValidMaster(part)
  {
    forall t :: InSet(part, t) <==> InSet(m, t) && t >= rid
  }

  /** The cut is the rule's first start at or after the split, and `k` starts precede it. */
  lemma CutIsFirst(m: Master, rid: int, nextYear: int)
    requires ValidMaster(m) && Cut(m, rid, nextYear).Some?
    ensures var start := NewStart(m, rid, nextYear);
            && rid <= start && InMasterRule(m, start)
            && (forall t :: InMasterRule(m, t) && t < start ==> t < rid)
  {
    hide InRule, RuleStarts;
    var r, k, start := m.rrule.value, Cut(m, rid, nextYear).value, NewStart(m, rid, nextYear);
    var starts := RuleStarts(m.dtstart, r, nextYear);
    RuleStartsAreTheStarts(m.dtstart, r, nextYear);
    assert start == starts[k] && start in starts;
    forall t | InMasterRule(m, t) && t < start ensures t < rid {
      assert t in starts;
      var i :| 0 <= i < |starts| && starts[i] == t;
      assert i < k;
    }
  }

  /** The recurrence set of the future part when the rule has a start within the year. */
  lemma FutureSetWithRule(m: Master, rid: int, nextYear: int, t: int)
    requires ValidMaster(m) && Cut(m, rid, nextYear).Some?
    ensures ValidMaster(FutureMaster(m, rid, nextYear))
    ensures InSet(FutureMaster(m, rid, nextYear), t) <==> InSet(m, t) && t >= rid
  {
    var r, k, start := m.rrule.value, Cut(m, rid, nextYear).value, NewStart(m, rid, nextYear);
    CutIsFirst(m, rid, nextYear);
    TrimLists(m.rdates, u => u >= rid && u != start, t);
    TrimLists(m.exdates, u => u >= rid, t);
    RebasedRule(m.dtstart, r, nextYear, k, t);
    RuleBegins(m.dtstart, r, start);
    hide InRule, RuleStarts, Cut;
  }

  /** A rule with any start has DTSTART as its first. */
  lemma RuleBegins(d: int, r: RRule, t: int)
    requires ValidRule(r) && InRule(d, r, t)
    ensures InRule(d, r, d)
  {
  }

  /** The recurrence set of the future part when the rule is dropped. */
  lemma FutureSetWithoutRule(m: Master, rid: int, nextYear: int, t: int)
    requires ValidMaster(m) && Cut(m, rid, nextYear).None?
    ensures ValidMaster(FutureMaster(m, rid, nextYear))
    ensures InSet(FutureMaster(m, rid, nextYear), t) <==>
              (t == rid || (Listed(m.rdates, t) && t >= rid)) && !(Listed(m.exdates, t) && t >= rid)
  {
    TrimLists(m.rdates, u => u >= rid && u != rid, t);
    TrimLists(m.exdates, u => u >= rid, t);
  }

  /** What onlyFutureInstances leaves: the re-based master, or the series as it was when no
      instance can be derived at the new start. `known` says whether one can. */
  function FuturePart(m: Master, rid: int, nextYear: int, known: bool): Master
    requires ValidMaster(m)
  {
    if known then FutureMaster(m, rid, nextYear) else m
  }

  /** An instance can be derived at `t`: it is an RDATE, an EXDATE, or an instance of a rule. */
  ghost predicate Derivable(m: Master, t: int)
    requires ValidMaster(m)
  {
    Listed(m.exdates, t) || Listed(m.rdates, t) || (m.rrule.Some? && InSet(m, t))
  }

  /** When the future part is exact: the rule has a start in the year after the split; or else
      the split is itself an instance or an EXDATE and the date lists cover everything later;
      or nothing can be derived and nothing precedes the split. */
  ghost predicate CoversFuture(m: Master, rid: int, nextYear: int)
    requires ValidMaster(m)
  {
    if Cut(m, rid, nextYear).Some? then true
    else if Derivable(m, rid) then
      forall t :: rid < t && (t == m.dtstart || InMasterRule(m, t)) ==> Listed(m.rdates, t) || Listed(m.exdates, t)
    else
      forall t :: InSet(m, t) ==> t >= rid
  }

  lemma CutIsDerivable(m: Master, rid: int, nextYear: int)
    requires ValidMaster(m) && Cut(m, rid, nextYear).Some?
    ensures Derivable(m, NewStart(m, rid, nextYear))
  {
    CutIsFirst(m, rid, nextYear);
  }

  lemma FutureSplitExactly(m: Master, rid: int, nextYear: int)
    requires ValidMaster(m)
    ensures var part := FuturePart(m, rid, nextYear, Derivable(m, NewStart(m, rid, nextYear)));
            ValidMaster(part) && (KeepsExactlyFuture(m, part, rid) <==> CoversFuture(m, rid, nextYear))
  {
    if Cut(m, rid, nextYear).Some? {
      CutIsDerivable(m, rid, nextYear);
      forall t ensures ValidMaster(FutureMaster(m, rid, nextYear)) &&
                       (InSet(FutureMaster(m, rid, nextYear), t) <==> InSet(m, t) && t >= rid) {
        FutureSetWithRule(m, rid, nextYear, t);
      }
    } else if Derivable(m, rid) {
      FutureWithoutRuleExactly(m, rid, nextYear);
    }
  }

  lemma FutureWithoutRuleExactly(m: Master, rid: int, nextYear: int)
    requires ValidMaster(m) && Cut(m, rid, nextYear).None? && Derivable(m, rid)
    ensures var part := FutureMaster(m, rid, nextYear);
            ValidMaster(part) && (KeepsExactlyFuture(m, part, rid) <==> CoversFuture(m, rid, nextYear))
  {
    var part := FutureMaster(m, rid, nextYear);
    assert ValidMaster(part);
    forall t ensures InSet(part, t) <==>
              (t == rid || (Listed(m.rdates, t) && t >= rid)) && !(Listed(m.exdates, t) && t >= rid)
    {
      FutureSetWithoutRule(m, rid, nextYear, t);
    }
    hide FutureMaster;
  }

  /** Neither part's instances change their length or status. */
  lemma PartsKeepLength(m: Master, rid: int, nextYear: int, known: bool)
    requires ValidMaster(m)
    ensures var past := PastMaster(m, rid); past.duration == m.duration && past.cancelled == m.cancelled
    ensures var future := FuturePart(m, rid, nextYear, known);
            future.duration == m.duration && future.cancelled == m.cancelled
  {
  }

  // ----- The partition -----

  /** Splitting partitions a series: for a rule with DTSTART before the split and a start in
      the year after it, the past and the future part hold exactly the instances before and
      from the split on, and a COUNT is reduced by the number of starts the rule had before it. */
  lemma SplitPartitions(m: Master, rid: int, nextYear: int, t: int)
    requires ValidMaster(m) && m.rrule.Some? && m.dtstart < rid
    requires InMasterRule(m, t) && rid <= t < nextYear
    ensures KeepsExactlyPast(m, rid)
    ensures Cut(m, rid, nextYear).Some? && Derivable(m, NewStart(m, rid, nextYear))
    ensures ValidMaster(FutureMaster(m, rid, nextYear))
    ensures KeepsExactlyFuture(m, FutureMaster(m, rid, nextYear), rid)
    ensures m.rrule.value.bound.Count? ==>
              var left := FutureMaster(m, rid, nextYear).rrule.value.bound;
              left.Count? && left.n + |RuleStarts(m.dtstart, m.rrule.value, rid)| == m.rrule.value.bound.n
  {
    var r := m.rrule.value;
    CutExists(m, rid, nextYear, t);
    CutIsDerivable(m, rid, nextYear);
    FutureSplitExactly(m, rid, nextYear);
    assert ReachesSplit(m, rid) by {
      forall u | InRule(m.dtstart, RRule(r.step, Forever), u) && m.dtstart < u < rid ensures InMasterRule(m, u) {
        RuleNotExhausted(m.dtstart, r, t, u);
      }
    }
    PastSplitExactly(m, rid);
    CountBefore(m.dtstart, r, nextYear, rid, Cut(m, rid, nextYear).value);
    CountIsEnough(m.dtstart, r, nextYear);
  }

  lemma CutExists(m: Master, rid: int, nextYear: int, t: int)
    requires ValidMaster(m) && InMasterRule(m, t) && rid <= t < nextYear
    ensures Cut(m, rid, nextYear).Some?
  {
    var starts := RuleStarts(m.dtstart, m.rrule.value, nextYear);
    RuleStartsAreTheStarts(m.dtstart, m.rrule.value, nextYear);
    assert t in starts;
    var i :| 0 <= i < |starts| && starts[i] == t;
    assert starts[i] >= rid;
  }

  /** The index of the first start at or after the split is the number of starts before it. */
  lemma {:induction false} CountBefore(d: int, r: RRule, limit: int, rid: int, k: nat)
    requires ValidRule(r) && FirstFrom(RuleStarts(d, r, limit), rid) == Some(k)
    ensures |RuleStarts(d, r, rid)| == k
    decreases limit - d
  {
    hide RuleStarts, InRule, Next, Live;
    RuleUnfolds(d, r, limit);
    RuleUnfolds(d, r, rid);
    if d < rid {
      var tail := RuleStarts(d + r.step, Next(r), limit);
      assert ([d] + tail)[1..] == tail;
      CountBefore(d + r.step, Next(r), limit, rid, k - 1);
    }
  }

  lemma RuleUnfolds(d: int, r: RRule, limit: int)
    requires ValidRule(r)
    ensures ValidRule(Next(r)) && Next(r).step == r.step
    ensures RuleStarts(d, r, limit) ==
      if d < limit && Live(d, r) then [d] + RuleStarts(d + r.step, Next(r), limit) else []
  {
  }

  lemma {:induction false} CountIsEnough(d: int, r: RRule, limit: int)
    requires ValidRule(r)
    ensures r.bound.Count? ==> |RuleStarts(d, r, limit)| <= r.bound.n
    decreases limit - d
  {
    if d < limit && Live(d, r) {
      CountIsEnough(d + r.step, Next(r), limit);
    }
  }

  /** A rule that had ended before the split is extended up to it: two starts become ten. */
  lemma PastSplitRevivesRule()
    ensures var m := Master(0, 1, Some(RRule(10, Count(2))), [], [], false);
            !InSet(m, 20) && InSet(PastMaster(m, 100), 20) && !KeepsExactlyPast(m, 100)
  {
    var m := Master(0, 1, Some(RRule(10, Count(2))), [], [], false);
    assert !InRule(20, RRule(10, Count(0)), 20);
    assert !InRule(10, RRule(10, Count(1)), 20);
    assert !InRule(0, RRule(10, Count(2)), 20);
    var f := RRule(10, Forever);
    assert InRule(20, f, 20);
    assert InRule(10, f, 20);
    assert InRule(0, f, 20);
    PastSet(m, 100, 20);
  }

  /** A rule with no start in the year after the split is not split at all. */
  lemma FutureSplitMissesSparseRule()
    ensures var m := Master(0, 1, Some(RRule(1000, Forever)), [], [], false);
            FuturePart(m, 5, 100, Derivable(m, NewStart(m, 5, 100))) == m && !KeepsExactlyFuture(m, m, 5)
  {
    var m := Master(0, 1, Some(RRule(1000, Forever)), [], [], false);
    var r := RRule(1000, Forever);
    assert RuleStarts(1000, r, 100) == [];
    assert RuleStarts(0, r, 100) == [0];
    assert !InRule(1000, r, 5);
    assert !InRule(0, r, 5);
    assert InSet(m, 0);
  }
}
