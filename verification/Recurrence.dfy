/** The recurrence data of an iCalendar component, as twistedcaldav/ical.py uses it. Times
    are integer UTC seconds. A recurrence rule is one arithmetic progression from DTSTART
    with an optional COUNT or UNTIL. The iCalendar library's expansion (pycalendar is not
    part of this model) is specified as "the starts below the limit, and whether more remain". */
module Recurrence {

  import opened Collections

  datatype Bound = Forever | Count(n: nat) | Until(last: int)

  datatype RRule = RRule(step: nat, bound: Bound)

  /** A master component: DTSTART, length, RRULE, RDATEs and EXDATEs. An RDATE or EXDATE
      property holds a list of values. */
  datatype Master = Master(
    dtstart: int,
    duration: nat,
    rrule: Option<RRule>,
    rdates: seq<seq<int>>,
    exdates: seq<seq<int>>,
    cancelled: bool)

  ghost predicate ValidRule(r: RRule) {
    r.step > 0
  }

  ghost predicate ValidMaster(m: Master) {
    m.rrule.Some? ==> ValidRule(m.rrule.value)
  }

  /** The values of a list of RDATE or EXDATE properties. */
  ghost predicate Listed(properties: seq<seq<int>>, t: int) {
    exists p :: p in properties && t in p
  }

  // ----- The starts of a rule -----

  /** Whether the rule still yields a start at `d`. */
  predicate Live(d: int, r: RRule) {
    match r.bound
    case Forever => true
    case Count(n) => n > 0
    case Until(last) => d <= last
  }

  /** The rule that remains after its first start. */
  function Next(r: RRule): RRule {
    if r.bound.Count? && r.bound.n > 0 then r.(bound := Count(r.bound.n - 1)) else r
  }

  /** `t` is a start of the rule `r` that begins at `d`. */
  ghost predicate InRule(d: int, r: RRule, t: int)
    requires ValidRule(r)
    decreases t - d
  {
    d <= t && Live(d, r) && (d == t || InRule(d + r.step, Next(r), t))
  }

  /** The starts of the rule below `limit`, in order. */
  function RuleStarts(d: int, r: RRule, limit: int): (s: seq<int>)
    requires ValidRule(r)
    decreases limit - d
  {
    if d < limit && Live(d, r) then [d] + RuleStarts(d + r.step, Next(r), limit) else []
  }

  predicate Increasing(s: seq<int>) {
    forall i, j :: 0 <= i < j < |s| ==> s[i] < s[j]
  }

  /** The library's expansion is the rule's starts below the limit, in increasing order. */
  lemma {:induction false} RuleStartsAreTheStarts(d: int, r: RRule, limit: int)
    requires ValidRule(r)
    ensures forall t :: t in RuleStarts(d, r, limit) <==> InRule(d, r, t) && t < limit
    ensures Increasing(RuleStarts(d, r, limit))
    decreases limit - d
  {
    if d < limit && Live(d, r) {
      var tail := RuleStarts(d + r.step, Next(r), limit);
      RuleStartsAreTheStarts(d + r.step, Next(r), limit);
      var all := [d] + tail;
      assert all == RuleStarts(d, r, limit);
      assert forall t :: t in all <==> t == d || t in tail;
      assert forall t :: t in tail ==> d < t;
      forall i, j | 0 <= i < j < |all| ensures all[i] < all[j] {
        if i == 0 {
          assert tail[j - 1] in tail;
        } else {
          assert tail[i - 1] < tail[j - 1];
        }
      }
    }
  }

  /** The rule that remains after its first `k` starts. */
  function Advance(r: RRule, k: nat): RRule {
    if r.bound.Count? then r.(bound := Count(if k <= r.bound.n then r.bound.n - k else 0)) else r
  }

  /** Re-basing a rule at its k-th start drops the k starts before it and no other. */
  lemma {:induction false} RebasedRule(d: int, r: RRule, limit: int, k: nat, t: int)
    requires ValidRule(r) && k < |RuleStarts(d, r, limit)|
    ensures var i := RuleStarts(d, r, limit)[k];
            InRule(i, Advance(r, k), t) <==> InRule(d, r, t) && i <= t
    decreases k
  {
    var tail := RuleStarts(d + r.step, Next(r), limit);
    if k == 0 {
      assert Advance(r, 0) == r;
    } else {
      RebasedRule(d + r.step, Next(r), limit, k - 1, t);
      assert Advance(Next(r), k - 1) == Advance(r, k);
      RuleStartsAreTheStarts(d + r.step, Next(r), limit);
      assert RuleStarts(d, r, limit)[k] == tail[k - 1];
      assert tail[k - 1] in tail;
    }
  }

  /** Ending a rule just before `t0` keeps the starts of the unbounded rule below `t0`. */
  lemma {:induction false} RuleUntil(d: int, r: RRule, t0: int, t: int)
    requires ValidRule(r)
    ensures InRule(d, RRule(r.step, Until(t0 - 1)), t) <==> InRule(d, RRule(r.step, Forever), t) && t < t0
    decreases t - d
  {
    if d < t {
      RuleUntil(d + r.step, r, t0, t);
    }
  }

  lemma {:induction false} RuleInProgression(d: int, r: RRule, t: int)
    requires ValidRule(r) && InRule(d, r, t)
    ensures InRule(d, RRule(r.step, Forever), t)
    decreases t - d
  {
    if d < t {
      RuleInProgression(d + r.step, Next(r), t);
    }
  }

  /** A rule with a start at or after `t0` has every earlier start of its progression. */
  lemma {:induction false} RuleNotExhausted(d: int, r: RRule, t0: int, t: int)
    requires ValidRule(r) && InRule(d, r, t0) && InRule(d, RRule(r.step, Forever), t) && t <= t0
    ensures InRule(d, r, t)
    decreases t - d
  {
    if d < t {
      RuleNotExhausted(d + r.step, Next(r), t0, t);
    }
  }

  // ----- Recurrence sets -----

  ghost predicate InMasterRule(m: Master, t: int)
    requires ValidMaster(m)
  {
    m.rrule.Some? && InRule(m.dtstart, m.rrule.value, t)
  }

  /** The recurrence set (RFC 5545 section 3.8.5): DTSTART, the rule and the RDATEs, less the EXDATEs. */
  ghost predicate InSet(m: Master, t: int)
    requires ValidMaster(m)
  {
    (t == m.dtstart || InMasterRule(m, t) || Listed(m.rdates, t)) && !Listed(m.exdates, t)
  }

  /** An expansion up to `limit`: the starts below it; the limit is reported (`complete` is
      false) whenever starts at or beyond it remain. */
  ghost predicate IsExpansion(m: Master, limit: int, starts: set<int>, complete: bool)
    requires ValidMaster(m)
  {
    && (forall t :: t in starts <==> InSet(m, t) && t < limit)
    && (complete ==> forall t :: InSet(m, t) ==> t < limit)
  }

  function Values(properties: seq<seq<int>>): (s: set<int>)
    ensures forall t :: t in s <==> Listed(properties, t)
  {
    set p, t | p in properties && t in p :: t
  }

  function Members(s: seq<int>): (r: set<int>)
    ensures forall t :: t in r <==> t in s
  {
    set t | t in s
  }

  /** Every limit has an expansion. */
  function Starts(m: Master, limit: int): (starts: set<int>)
    requires ValidMaster(m)
    ensures forall t :: t in starts <==> InSet(m, t) && t < limit
  {
    var rule := if m.rrule.Some? then Members(RuleStarts(m.dtstart, m.rrule.value, limit)) else {};
    assert m.rrule.Some? ==> forall t :: t in rule <==> InRule(m.dtstart, m.rrule.value, t) && t < limit by {
      if m.rrule.Some? {
        RuleStartsAreTheStarts(m.dtstart, m.rrule.value, limit);
      }
    }
    set t | t in {m.dtstart} + rule + Values(m.rdates) && t < limit && t !in Values(m.exdates)
  }
}
