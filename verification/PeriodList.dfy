/** Lists of time periods, as normalizePeriodList and clipPeriod of twistedcaldav/dateops.py
    treat them. Times are integers: seconds of UTC. A period covers the instants from its start
    up to, but not including, its end. */
module PeriodList {

  import opened Collections

  datatype Period = Period(start: int, end: int)

  predicate Within(p: Period, t: int) {
    p.start <= t < p.end
  }

  ghost predicate Covers(s: seq<Period>, t: int) {
    exists p :: p in s && Within(p, t)
  }

  ghost predicate SameCoverage(a: seq<Period>, b: seq<Period>) {
    forall t :: Covers(a, t) == Covers(b, t)
  }

  ghost predicate AllNonEmpty(s: seq<Period>) {
    forall p :: p in s ==> p.start < p.end
  }

  // ----- Sorting -----

  /** By start, then by end. */
  predicate AtMost(p: Period, q: Period) {
    p.start < q.start || (p.start == q.start && p.end <= q.end)
  }

  ghost predicate Sorted(s: seq<Period>) {
    forall i, j :: 0 <= i < j < |s| ==> AtMost(s[i], s[j])
  }

  function Insert(p: Period, s: seq<Period>): seq<Period> {
    if s == [] || AtMost(p, s[0]) then [p] + s else [s[0]] + Insert(p, s[1..])
  }

  function Sort(s: seq<Period>): seq<Period> {
    if s == [] then [] else Insert(s[0], Sort(s[1..]))
  }

  lemma FirstAtMost(p: Period, s: seq<Period>)
    requires Sorted(s) && (s == [] || AtMost(p, s[0]))
    ensures Sorted([p] + s)
  {
    var m := [p] + s;
    forall i, j | 0 <= i < j < |m|
      ensures AtMost(m[i], m[j])
    {
      assert m[j] == s[j - 1];
      assert i > 0 ==> m[i] == s[i - 1];
      assert j > 1 ==> AtMost(s[0], s[j - 1]);
    }
  }

  lemma TailSorted(p: Period, s: seq<Period>)
    requires Sorted([p] + s)
    ensures Sorted(s) && (s != [] ==> AtMost(p, s[0]))
  {
    var m := [p] + s;
    assert forall i :: 0 <= i < |s| ==> s[i] == m[i + 1];
    assert m[0] == p;
  }

  lemma {:induction false} InsertKeeps(p: Period, s: seq<Period>)
    ensures multiset(Insert(p, s)) == multiset(s) + multiset{p}
  {
    if s != [] {
      InsertKeeps(p, s[1..]);
      assert s == [s[0]] + s[1..];
    }
  }

  lemma {:induction false} InsertSorts(p: Period, s: seq<Period>)
    requires Sorted(s)
    ensures Sorted(Insert(p, s)) && (Insert(p, s)[0] == p || (s != [] && Insert(p, s)[0] == s[0]))
  {
    hide Sorted;
    if s == [] || AtMost(p, s[0]) {
      FirstAtMost(p, s);
    } else {
      assert s == [s[0]] + s[1..];
      TailSorted(s[0], s[1..]);
      InsertSorts(p, s[1..]);
      FirstAtMost(s[0], Insert(p, s[1..]));
    }
  }

  lemma {:induction false} SortSorts(s: seq<Period>)
    ensures Sorted(Sort(s)) && multiset(Sort(s)) == multiset(s)
  {
    if s != [] {
      SortSorts(s[1..]);
      InsertSorts(s[0], Sort(s[1..]));
      InsertKeeps(s[0], Sort(s[1..]));
      assert s == [s[0]] + s[1..];
    }
  }

  lemma {:induction false} SortOfSorted(s: seq<Period>)
    requires Sorted(s)
    ensures Sort(s) == s
  {
    if s != [] {
      SortOfSorted(s[1..]);
      assert s == [s[0]] + s[1..];
    }
  }

  lemma SortKeeps(s: seq<Period>)
    ensures forall p :: p in Sort(s) <==> p in s
  {
    SortSorts(s);
    assert forall p :: p in Sort(s) <==> p in multiset(Sort(s));
  }

  // ----- Merging -----

  function Later(a: int, b: int): int {
    if a < b then b else a
  }

  /** The merge of a period with periods that start no earlier. */
  function MergeFrom(p: Period, s: seq<Period>): (m: seq<Period>)
    ensures m != [] && m[0].start == p.start && m[0].end >= p.end
    decreases |s|
  {
    if s == [] then [p]
    else if p.end >= s[0].start then MergeFrom(Period(p.start, Later(p.end, s[0].end)), s[1..])
    else [p] + MergeFrom(s[0], s[1..])
  }

  function Merged(s: seq<Period>): seq<Period> {
    if s == [] then [] else MergeFrom(s[0], s[1..])
  }

  function Normal(s: seq<Period>): seq<Period> {
    Merged(Sort(s))
  }

  /** Each period starts after the previous one ends. */
  ghost predicate Separated(s: seq<Period>) {
    Sorted(s) && forall i :: 0 <= i < |s| - 1 ==> s[i].end < s[i + 1].start
  }

  lemma MergeOneSorted(p: Period, s: seq<Period>)
    requires s != [] && Sorted([p] + s) && p.end >= s[0].start
    ensures Sorted([Period(p.start, Later(p.end, s[0].end))] + s[1..])
  {
    TailSorted(p, s);
    assert s == [s[0]] + s[1..];
    TailSorted(s[0], s[1..]);
    FirstAtMost(Period(p.start, Later(p.end, s[0].end)), s[1..]);
  }

  lemma {:induction false} MergeSeparates(p: Period, s: seq<Period>)
    requires Sorted([p] + s)
    ensures Separated(MergeFrom(p, s)) && AtMost(p, MergeFrom(p, s)[0])
    decreases |s|
  {
    if s != [] {
      hide Sorted;
      TailSorted(p, s);
      assert s == [s[0]] + s[1..];
      if p.end >= s[0].start {
        MergeOneSorted(p, s);
        MergeSeparates(Period(p.start, Later(p.end, s[0].end)), s[1..]);
      } else {
        MergeSeparates(s[0], s[1..]);
        var m := MergeFrom(s[0], s[1..]);
        FirstAtMost(p, m);
        assert forall i :: 0 < i < |m| ==> ([p] + m)[i] == m[i - 1];
        assert forall i :: 0 <= i < |m| - 1 ==> m[i].end < m[i + 1].start;
      }
    } else {
      assert MergeFrom(p, s) == [p];
      assert Sorted([p]);
    }
  }

  /** The result is sorted and strictly separated. */
  lemma NormalIsSeparated(s: seq<Period>)
    ensures Separated(Normal(s))
  {
    SortSorts(s);
    var t := Sort(s);
    if t != [] {
      assert t == [t[0]] + t[1..];
      MergeSeparates(t[0], t[1..]);
    }
  }

  lemma CoversMore(p: Period, s: seq<Period>, t: int)
    ensures Covers([p] + s, t) <==> Within(p, t) || Covers(s, t)
  {
    if Within(p, t) {
      assert p in [p] + s;
    }
    if Covers(s, t) {
      var q :| q in s && Within(q, t);
      assert q in [p] + s;
    }
  }

  lemma {:induction false} MergeCovers(p: Period, s: seq<Period>, t: int)
    requires Sorted([p] + s)
    ensures Covers(MergeFrom(p, s), t) <==> Covers([p] + s, t)
    decreases |s|
  {
    hide Sorted, Covers;
    CoversMore(p, s, t);
    if s == [] {
      assert [p] + s == [p];
    } else {
      TailSorted(p, s);
      assert s == [s[0]] + s[1..];
      CoversMore(s[0], s[1..], t);
      if p.end >= s[0].start {
        var q := Period(p.start, Later(p.end, s[0].end));
        MergeOneSorted(p, s);
        MergeCovers(q, s[1..], t);
        CoversMore(q, s[1..], t);
      } else {
        MergeCovers(s[0], s[1..], t);
        CoversMore(p, MergeFrom(s[0], s[1..]), t);
      }
    }
  }

  /** Normalizing changes no instant. */
  lemma NormalCovers(s: seq<Period>)
    ensures SameCoverage(Normal(s), s)
  {
    SortSorts(s);
    SortKeeps(s);
    var u := Sort(s);
    forall t
      ensures Covers(Normal(s), t) == Covers(s, t)
    {
      assert Covers(u, t) == Covers(s, t);
      if u != [] {
        assert u == [u[0]] + u[1..];
        MergeCovers(u[0], u[1..], t);
      }
    }
  }

  lemma {:induction false} MergeOfSeparated(p: Period, s: seq<Period>)
    requires Separated([p] + s)
    ensures MergeFrom(p, s) == [p] + s
    decreases |s|
  {
    if s != [] {
      var m := [p] + s;
      assert m[0] == p && m[1] == s[0];
      assert forall i :: 0 <= i < |s| ==> s[i] == m[i + 1];
      assert s == [s[0]] + s[1..];
      TailSorted(p, s);
      MergeOfSeparated(s[0], s[1..]);
    }
  }

  /** What is separated is normal already. */
  lemma NormalOfSeparated(s: seq<Period>)
    requires Separated(s)
    ensures Normal(s) == s
  {
    SortOfSorted(s);
    if s != [] {
      assert s == [s[0]] + s[1..];
      MergeOfSeparated(s[0], s[1..]);
    }
  }

  /** Normalizing twice is normalizing once. */
  lemma NormalIsIdempotent(s: seq<Period>)
    ensures Normal(Normal(s)) == Normal(s)
  {
    NormalIsSeparated(s);
    NormalOfSeparated(Normal(s));
  }

  // ----- Canonical form -----

  lemma MergeNonEmpty(p: Period, s: seq<Period>)
    requires p.start < p.end && AllNonEmpty(s)
    ensures AllNonEmpty(MergeFrom(p, s))
    decreases |s|
  {
    if s != [] {
      assert s[0] in s;
      assert AllNonEmpty(s[1..]);
      if p.end >= s[0].start {
        MergeNonEmpty(Period(p.start, Later(p.end, s[0].end)), s[1..]);
      } else {
        MergeNonEmpty(s[0], s[1..]);
      }
    }
  }

  lemma NormalNonEmpty(s: seq<Period>)
    requires AllNonEmpty(s)
    ensures AllNonEmpty(Normal(s))
  {
    SortKeeps(s);
    var t := Sort(s);
    if t != [] {
      assert t[0] in t;
      MergeNonEmpty(t[0], t[1..]);
    }
  }

  /** Of separated, non-empty periods, the first starts at the first instant covered, and ends
      at the first one after it that is not. */
  lemma FirstPeriod(s: seq<Period>)
    requires Separated(s) && AllNonEmpty(s) && s != []
    ensures Covers(s, s[0].start) && forall t :: t < s[0].start ==> !Covers(s, t)
    ensures !Covers(s, s[0].end) && forall t :: s[0].start <= t < s[0].end ==> Covers(s, t)
  {
    assert s[0] in s;
    forall p | p in s
      ensures p.start >= s[0].start && (p == s[0] || p.start > s[0].end)
    {
      var i :| 0 <= i < |s| && s[i] == p;
      if i > 0 {
        assert s[0].end < s[1].start;
        assert i > 1 ==> AtMost(s[1], s[i]);
      }
    }
  }

  lemma CoversAfter(s: seq<Period>, t: int)
    requires Separated(s) && AllNonEmpty(s) && s != []
    ensures Covers(s[1..], t) <==> t > s[0].end && Covers(s, t)
    ensures Separated(s[1..]) && AllNonEmpty(s[1..])
  {
    assert s == [s[0]] + s[1..];
    CoversMore(s[0], s[1..], t);
    TailSorted(s[0], s[1..]);
    forall i | 0 <= i < |s| - 2
      ensures s[1..][i].end < s[1..][i + 1].start
    {
      assert s[i + 1].end < s[i + 2].start;
    }
    if s[1..] != [] {
      assert s[0].end < s[1].start;
      FirstPeriod(s[1..]);
    }
  }

  lemma Inhabited(s: seq<Period>)
    requires AllNonEmpty(s)
    ensures s != [] ==> Covers(s, s[0].start)
  {
    if s != [] {
      assert s[0] in s && Within(s[0], s[0].start);
    }
  }

  lemma {:induction false} SeparatedAreEqual(a: seq<Period>, b: seq<Period>)
    requires Separated(a) && Separated(b) && AllNonEmpty(a) && AllNonEmpty(b)
    requires SameCoverage(a, b)
    ensures a == b
    decreases |a|
  {
    if a == [] || b == [] {
      Inhabited(a);
      Inhabited(b);
    } else {
      hide Separated, Covers;
      SameFirst(a, b);
      forall t
        ensures Covers(a[1..], t) == Covers(b[1..], t)
      {
        CoversAfter(a, t);
        CoversAfter(b, t);
      }
      CoversAfter(a, 0);
      CoversAfter(b, 0);
      SeparatedAreEqual(a[1..], b[1..]);
      assert a == [a[0]] + a[1..] && b == [b[0]] + b[1..];
    }
  }

  lemma SameFirst(a: seq<Period>, b: seq<Period>)
    requires Separated(a) && Separated(b) && AllNonEmpty(a) && AllNonEmpty(b)
    requires SameCoverage(a, b) && a != [] && b != []
    ensures a[0] == b[0]
  {
    hide Separated, Covers;
    FirstPeriod(a);
    FirstPeriod(b);
    assert a[0].start == b[0].start;
    assert a[0] in a && b[0] in b;
    assert Covers(a, a[0].end) == Covers(b, a[0].end);
    assert Covers(a, b[0].end) == Covers(b, b[0].end);
  }

  /** Lists of non-empty periods have the same normal form exactly if they cover the same
      instants. */
  lemma NormalIsCanonical(a: seq<Period>, b: seq<Period>)
    requires AllNonEmpty(a) && AllNonEmpty(b)
    ensures Normal(a) == Normal(b) <==> SameCoverage(a, b)
  {
    hide Normal, Covers, Separated;
    NormalCovers(a);
    NormalCovers(b);
    if SameCoverage(a, b) {
      NormalIsSeparated(a);
      NormalIsSeparated(b);
      NormalNonEmpty(a);
      NormalNonEmpty(b);
      SeparatedAreEqual(Normal(a), Normal(b));
    }
  }

  // ----- Clipping -----

  /** The part of a period within another one, unless there is none. */
  function ClipPeriod(p: Period, clip: Period): (c: Option<Period>)
    ensures c.None? <==> forall t :: !(Within(p, t) && Within(clip, t))
    ensures c.Some? ==> c.value.start < c.value.end
    ensures c.Some? ==> forall t :: Within(c.value, t) <==> Within(p, t) && Within(clip, t)
  {
    var start := if p.start < clip.start then clip.start else p.start;
    var end := if p.end > clip.end then clip.end else p.end;
    assert start < end ==> Within(p, start) && Within(clip, start);
    if start >= end then None else Some(Period(start, end))
  }

  function ClipAll(s: seq<Period>, clip: Period): seq<Period> {
    if s == [] then []
    else
      match ClipPeriod(s[0], clip)
      case None => ClipAll(s[1..], clip)
      case Some(p) => [p] + ClipAll(s[1..], clip)
  }

  lemma {:induction false} ClipCovers(s: seq<Period>, clip: Period, t: int)
    ensures Covers(ClipAll(s, clip), t) <==> Covers(s, t) && Within(clip, t)
    ensures AllNonEmpty(ClipAll(s, clip))
  {
    if s != [] {
      hide Covers;
      assert s == [s[0]] + s[1..];
      ClipCovers(s[1..], clip, t);
      CoversMore(s[0], s[1..], t);
      var c := ClipPeriod(s[0], clip);
      if c.Some? {
        CoversMore(c.value, ClipAll(s[1..], clip), t);
      }
    }
  }

  ghost predicate AllAfter(s: seq<Period>, t: int) {
    forall p :: p in s ==> t < p.start
  }

  lemma {:induction false} ClipAfter(s: seq<Period>, clip: Period, t: int)
    requires AllAfter(s, t)
    ensures AllAfter(ClipAll(s, clip), t)
  {
    if s != [] {
      assert s[0] in s;
      ClipAfter(s[1..], clip, t);
    }
  }

  lemma TailSeparated(s: seq<Period>)
    requires Separated(s) && s != []
    ensures Separated(s[1..])
  {
    assert s == [s[0]] + s[1..];
    TailSorted(s[0], s[1..]);
    assert forall i :: 0 <= i < |s| - 1 ==> s[1..][i] == s[i + 1];
  }

  lemma {:induction false} ClipSeparates(s: seq<Period>, clip: Period)
    requires Separated(s)
    ensures Separated(ClipAll(s, clip))
  {
    if s != [] {
      hide Separated;
      TailSeparated(s);
      ClipSeparates(s[1..], clip);
      var c := ClipPeriod(s[0], clip);
      if c.Some? {
        AfterFirst(s);
        ClipAfter(s[1..], clip, s[0].end);
        OneThenAfter(c.value, ClipAll(s[1..], clip));
      }
    }
  }

  lemma AfterFirst(s: seq<Period>)
    requires Separated(s) && s != []
    ensures AllAfter(s[1..], s[0].end)
  {
    forall p | p in s[1..]
      ensures s[0].end < p.start
    {
      var i :| 0 < i < |s| && s[i] == p;
      assert s[0].end < s[1].start;
      assert i > 1 ==> AtMost(s[1], s[i]);
    }
  }

  lemma OneThenAfter(p: Period, s: seq<Period>)
    requires Separated(s) && p.start < p.end && AllAfter(s, p.end)
    ensures Separated([p] + s)
  {
    assert s != [] ==> s[0] in s;
    FirstAtMost(p, s);
    var m := [p] + s;
    forall i | 0 <= i < |m| - 1
      ensures m[i].end < m[i + 1].start
    {
      assert m[i + 1] == s[i] && (i > 0 ==> m[i] == s[i - 1]);
      assert i > 0 ==> s[i - 1].end < s[i - 1 + 1].start;
    }
  }

  /** Clipping and normalizing commute: a clipped normal list is the normal form of the
      clipped list. */
  lemma ClippingCommutes(s: seq<Period>, clip: Period)
    ensures ClipAll(Normal(s), clip) == Normal(ClipAll(s, clip))
  {
    hide Normal, Covers, Separated;
    var a, b := ClipAll(Normal(s), clip), ClipAll(s, clip);
    NormalCovers(s);
    forall t
      ensures Covers(a, t) == Covers(b, t)
    {
      ClipCovers(Normal(s), clip, t);
      ClipCovers(s, clip, t);
    }
    ClipCovers(Normal(s), clip, 0);
    ClipCovers(s, clip, 0);
    NormalIsCanonical(a, b);
    NormalIsSeparated(s);
    ClipSeparates(Normal(s), clip);
    NormalOfSeparated(a);
  }

  // ----- The list in place -----

  function Present(s: seq<Option<Period>>): seq<Period> {
    if s == [] then []
    else if s[0].Some? then [s[0].value] + Present(s[1..]) else Present(s[1..])
  }

  lemma {:induction false} PresentJoins(a: seq<Option<Period>>, b: seq<Option<Period>>)
    ensures Present(a + b) == Present(a) + Present(b)
  {
    if a == [] {
      assert a + b == b;
    } else {
      PresentJoins(a[1..], b);
      assert (a + b)[1..] == a[1..] + b;
    }
  }

  lemma {:induction false} PresentNones(s: seq<Option<Period>>)
    requires forall k :: 0 <= k < |s| ==> s[k].None?
    ensures Present(s) == []
  {
    if s != [] {
      PresentNones(s[1..]);
    }
  }

  lemma PresentUpTo(slots: seq<Option<Period>>, index: nat, i: nat)
    requires index < i <= |slots| && slots[index].Some?
    requires forall k :: index < k < i ==> slots[k].None?
    ensures Present(slots[..i]) == Present(slots[..index]) + [slots[index].value]
  {
    var rest := slots[index + 1..i];
    assert slots[..i] == slots[..index] + ([slots[index]] + rest);
    PresentJoins(slots[..index], [slots[index]] + rest);
    PresentJoins([slots[index]], rest);
    PresentNones(rest);
  }

  lemma MergeFromLast(p: Period)
    ensures MergeFrom(p, []) == [p]
  {
  }

  lemma MergeFromNext(p: Period, all: seq<Period>, i: nat)
    requires i < |all|
    ensures MergeFrom(p, all[i..]) ==
      if p.end >= all[i].start then MergeFrom(Period(p.start, Later(p.end, all[i].end)), all[i + 1..])
      else [p] + MergeFrom(all[i], all[i + 1..])
  {
    assert all[i..][1..] == all[i + 1..];
  }

  function AllSome(s: seq<Period>): (r: seq<Option<Period>>)
    ensures |r| == |s| && forall i :: 0 <= i < |s| ==> r[i] == Some(s[i])
  {
    if s == [] then [] else [Some(s[0])] + AllSome(s[1..])
  }

  /** The first `i` periods have been merged: `done` is finished, and the period at `index` is
      followed by Nones up to `i`. */
  ghost predicate Merging(all: seq<Period>, slots: seq<Option<Period>>, i: nat, index: nat, done: seq<Period>) {
    && |slots| == |all| && index < i <= |all| && slots[index].Some?
    && Present(slots[..index]) == done
    && (forall k :: index < k < i ==> slots[k].None?)
    && Merged(all) == done + MergeFrom(slots[index].value, all[i..])
  }

  lemma MergingBegins(all: seq<Period>, slots: seq<Option<Period>>)
    requires |slots| == |all| > 0 && slots[0] == Some(all[0])
    ensures Merging(all, slots, 1, 0, [])
  {
    assert slots[..0] == [];
    assert Merged(all) == [] + MergeFrom(all[0], all[1..]);
  }

  lemma MergedInto(all: seq<Period>, slots: seq<Option<Period>>, i: nat, index: nat, done: seq<Period>,
                   after: seq<Option<Period>>)
    requires Merging(all, slots, i, index, done) && i < |all| && slots[i] == Some(all[i])
    requires slots[index].value.end >= all[i].start
    requires var p := slots[index].value;
      after == slots[index := Some(Period(p.start, Later(p.end, all[i].end)))][i := None]
    ensures Merging(all, after, i + 1, index, done)
  {
    hide Present, MergeFrom, Merged;
    MergeFromNext(slots[index].value, all, i);
    assert after[..index] == slots[..index];
  }

  lemma MovedOn(all: seq<Period>, slots: seq<Option<Period>>, i: nat, index: nat, done: seq<Period>)
    requires Merging(all, slots, i, index, done) && i < |all| && slots[i] == Some(all[i])
    requires slots[index].value.end < all[i].start
    ensures Merging(all, slots, i + 1, i, done + [slots[index].value])
  {
    hide Present, MergeFrom, Merged;
    var p, m := slots[index].value, MergeFrom(all[i], all[i + 1..]);
    MergeFromNext(p, all, i);
    PresentUpTo(slots, index, i);
    assert done + ([p] + m) == (done + [p]) + m;
  }

  lemma NothingMerged(all: seq<Period>, slots: seq<Option<Period>>)
    requires |slots| == |all| == 0
    ensures Present(slots) == Merged(all)
  {
  }

  lemma MergingEnds(all: seq<Period>, slots: seq<Option<Period>>, index: nat, done: seq<Period>)
    requires Merging(all, slots, |all|, index, done)
    ensures Present(slots) == Merged(all)
  {
    hide Present, Merged;
    PresentUpTo(slots, index, |all|);
    assert slots[..|all|] == slots && all[|all|..] == [];
    MergeFromLast(slots[index].value);
  }

  class Periods {
    var periods: seq<Period>

    constructor (periods: seq<Period>)
      ensures this.periods == periods
    {
      this.periods := periods;
    }

    /** The list is sorted; every period is then merged into the one at `index`, leaving None
        behind, or becomes that one; in the end the Nones are dropped. */
    method Normalize()
      modifies this
      ensures periods == Normal(old(periods))
    {
      hide Merged, Sort, Present, Merging;
      periods := Sort(periods);
      ghost var all := periods;
      var slots := AllSome(periods);
      var index: Option<nat> := None;
      var pe := 0;
      ghost var done: seq<Period> := [];
      for i := 0 to |slots|
        invariant |slots| == |all| && forall k :: i <= k < |slots| ==> slots[k] == Some(all[k])
        invariant (index.None? <==> i == 0) && (index.None? ==> done == [])
        invariant index.Some? ==> index.value < i && slots[index.value].Some? && slots[index.value].value.end == pe
        invariant index.Some? ==> Merging(all, slots, i, index.value, done)
      {
        if index.None? {
          MergingBegins(all, slots);
          index, pe := Some(i), slots[i].value.end;
        } else {
          ghost var before := slots;
          var ie := slots[i].value.end;
          if pe >= slots[i].value.start {
            if ie > pe {
              slots := slots[index.value := Some(Period(slots[index.value].value.start, ie))];
              pe := ie;
            }
            slots := slots[i := None];
            MergedInto(all, before, i, index.value, done, slots);
          } else {
            MovedOn(all, slots, i, index.value, done);
            done := done + [slots[index.value].value];
            index, pe := Some(i), slots[i].value.end;
          }
        }
      }
      if index.None? {
        NothingMerged(all, slots);
      } else {
        MergingEnds(all, slots, index.value, done);
      }
      periods := Present(slots);
    }
  }
}
