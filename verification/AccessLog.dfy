/** The rolling request statistics of calendarserver/accesslog.py: one tally per minute, and
    cached aggregates over the last minute, five minutes and hour. */
module AccessLog {

  import opened Collections

  /** A logged request. `at` is the clock, in whole seconds, when it is logged; the times it
      took are in milliseconds, and either may be missing. */
  datatype Request = Request(at: nat, accessLog: bool, verb: string, status: nat,
                             t: Option<real>, respWr: Option<real>, outstanding: nat)

  // ----- Counters -----

  datatype Histogram = Histogram(under10ms: nat, under100ms: nat, under1s: nat, under10s: nat,
                                 under30s: nat, under60s: nat, over60s: nat,
                                 longerThan1s: nat, longerThan10s: nat)

  const ZERO := Histogram(0, 0, 0, 0, 0, 0, 0, 0, 0)

  /** The longest time seen; it starts at zero. */
  type Peak = x: real | x >= 0.0

  /** What is counted for one method. */
  datatype Usage = Usage(count: nat, time: real)

  datatype Counts = Counts(requests: nat, methods: map<string, Usage>, server500: nat, auth401: nat,
                           t: real, respWr: real, slots: nat,
                           times: Histogram, respTimes: Histogram, longest: Peak)

  const EMPTY := Counts(0, map[], 0, 0, 0.0, 0.0, 0, ZERO, ZERO, 0.0)

  function Max(x: Peak, y: real): Peak {
    if x < y then y else x
  }

  function OrZero(t: Option<real>): real {
    if t.Some? then t.value else 0.0
  }

  function Bump(h: Histogram, t: real): Histogram {
    var b :=
      if t >= 60000.0 then h.(over60s := h.over60s + 1)
      else if t >= 30000.0 then h.(under60s := h.under60s + 1)
      else if t >= 10000.0 then h.(under30s := h.under30s + 1)
      else if t >= 1000.0 then h.(under10s := h.under10s + 1)
      else if t >= 100.0 then h.(under1s := h.under1s + 1)
      else if t >= 10.0 then h.(under100ms := h.under100ms + 1)
      else h.(under10ms := h.under10ms + 1);
    if t >= 1000.0 then b.(longerThan1s := b.longerThan1s + 1)
    else if t >= 10000.0 then assert false; b  // "Over 10s" would be counted here
    else b
  }

  function BumpIf(h: Histogram, t: Option<real>): Histogram {
    if t.Some? then Bump(h, t.value) else h
  }

  function UsageOf(m: map<string, Usage>, verb: string): Usage {
    if verb in m then m[verb] else Usage(0, 0.0)
  }

  function Add(a: Usage, b: Usage): Usage {
    Usage(a.count + b.count, a.time + b.time)
  }

  function Used(m: map<string, Usage>, v: string, u: Usage): map<string, Usage> {
    m[v := Add(UsageOf(m, v), u)]
  }

  function AddMethods(a: map<string, Usage>, b: map<string, Usage>): map<string, Usage> {
    map v | v in a.Keys + b.Keys :: Add(UsageOf(a, v), UsageOf(b, v))
  }

  function AddBins(a: Histogram, b: Histogram): Histogram {
    Histogram(a.under10ms + b.under10ms, a.under100ms + b.under100ms, a.under1s + b.under1s,
              a.under10s + b.under10s, a.under30s + b.under30s, a.under60s + b.under60s,
              a.over60s + b.over60s, a.longerThan1s + b.longerThan1s, a.longerThan10s + b.longerThan10s)
  }

  function Record(c: Counts, r: Request): Counts {
    Counts(c.requests + 1,
           Used(c.methods, r.verb, Usage(1, OrZero(r.t))),
           c.server500 + (if r.status >= 500 then 1 else 0),
           c.auth401 + (if r.status == 401 then 1 else 0),
           c.t + OrZero(r.t), c.respWr + OrZero(r.respWr), c.slots + r.outstanding,
           BumpIf(c.times, r.t), BumpIf(c.respTimes, r.respWr),
           if r.t.Some? then Max(c.longest, r.t.value) else c.longest)
  }

  function Merge(a: Counts, b: Counts): Counts {
    Counts(a.requests + b.requests, AddMethods(a.methods, b.methods),
           a.server500 + b.server500, a.auth401 + b.auth401,
           a.t + b.t, a.respWr + b.respWr, a.slots + b.slots,
           AddBins(a.times, b.times), AddBins(a.respTimes, b.respTimes), Max(a.longest, b.longest))
  }

  // ----- The raw log, counted directly -----

  type Log = seq<Request>

  function Total(s: Log): Counts {
    if s == [] then EMPTY else Record(Total(s[..|s| - 1]), s[|s| - 1])
  }

  /** The requests logged from `from` up to, but not including, `to`. */
  function During(s: Log, from: int, to: int): (d: Log)
    ensures forall r :: r in d <==> r in s && from <= r.at < to
  {
    if s == [] then []
    else During(s[..|s| - 1], from, to) + if from <= s[|s| - 1].at < to then [s[|s| - 1]] else []
  }

  lemma {:induction false} TotalOfMore(s: Log, r: Request)
    ensures Total(s + [r]) == Record(Total(s), r)
  {
    assert (s + [r])[..|s|] == s;
  }

  lemma {:induction false} DuringMore(s: Log, r: Request, from: int, to: int)
    ensures During(s + [r], from, to) == if from <= r.at < to then During(s, from, to) + [r] else During(s, from, to)
  {
    assert (s + [r])[..|s|] == s;
  }

  lemma BumpCommutes(a: Histogram, b: Histogram, t: Option<real>)
    ensures AddBins(BumpIf(a, t), b) == AddBins(a, BumpIf(b, t)) == BumpIf(AddBins(a, b), t)
  {
  }

  lemma UsageAdds(a: map<string, Usage>, b: map<string, Usage>, v: string)
    ensures UsageOf(AddMethods(a, b), v) == Add(UsageOf(a, v), UsageOf(b, v))
  {
  }

  lemma MethodsEqual(a: map<string, Usage>, b: map<string, Usage>)
    requires a.Keys == b.Keys && forall v :: v in a ==> UsageOf(a, v) == UsageOf(b, v)
    ensures a == b
  {
    forall v | v in a
      ensures a[v] == b[v]
    {
      assert UsageOf(a, v) == UsageOf(b, v);
    }
  }

  /** `merged` is the merge of `a` with `b`, but for the methods in `todo`. */
  ghost predicate PartlyMerged(a: map<string, Usage>, b: map<string, Usage>, todo: set<string>,
                               merged: map<string, Usage>) {
    && todo <= b.Keys
    && merged.Keys == a.Keys + (b.Keys - todo)
    && forall v :: v in merged ==>
         merged[v] == if v in todo then a[v] else Add(UsageOf(a, v), UsageOf(b, v))
  }

  lemma NoneMerged(a: map<string, Usage>, b: map<string, Usage>)
    ensures PartlyMerged(a, b, b.Keys, a)
  {
  }

  lemma AllMerged(a: map<string, Usage>, b: map<string, Usage>, merged: map<string, Usage>)
    requires PartlyMerged(a, b, {}, merged)
    ensures merged == AddMethods(a, b)
  {
  }

  lemma MergeOne(a: map<string, Usage>, b: map<string, Usage>, todo: set<string>, merged: map<string, Usage>, v: string)
    requires PartlyMerged(a, b, todo, merged) && v in todo
    ensures PartlyMerged(a, b, todo - {v}, merged[v := Add(UsageOf(merged, v), b[v])])
  {
    hide Add;
  }

  lemma UsedIs(m: map<string, Usage>, v: string, time: real)
    ensures Used(m, v, Usage(1, time)) == m[v := Usage(UsageOf(m, v).count + 1, UsageOf(m, v).time + time)]
  {
  }

  lemma UsedUsage(m: map<string, Usage>, v: string, u: Usage, w: string)
    ensures UsageOf(Used(m, v, u), w) == if v == w then Add(UsageOf(m, v), u) else UsageOf(m, w)
  {
  }

  lemma KeysCommute(a: map<string, Usage>, b: map<string, Usage>, v: string, u: Usage)
    ensures AddMethods(Used(a, v, u), b).Keys == AddMethods(a, Used(b, v, u)).Keys == Used(AddMethods(a, b), v, u).Keys
  {
  }

  lemma AddCommutes(a: Usage, b: Usage, u: Usage)
    ensures Add(Add(a, u), b) == Add(a, Add(b, u)) == Add(Add(a, b), u)
  {
  }

  lemma MethodsCommute(a: map<string, Usage>, b: map<string, Usage>, v: string, u: Usage)
    ensures AddMethods(Used(a, v, u), b) == AddMethods(a, Used(b, v, u)) == Used(AddMethods(a, b), v, u)
  {
    var l, m, r := AddMethods(Used(a, v, u), b), AddMethods(a, Used(b, v, u)), Used(AddMethods(a, b), v, u);
    hide AddMethods, Used, UsageOf, Add;
    KeysCommute(a, b, v, u);
    forall w
      ensures UsageOf(l, w) == UsageOf(m, w) == UsageOf(r, w)
    {
      UsageAdds(Used(a, v, u), b, w);
      UsageAdds(a, Used(b, v, u), w);
      UsageAdds(a, b, w);
      UsedUsage(a, v, u, w);
      UsedUsage(b, v, u, w);
      UsedUsage(AddMethods(a, b), v, u, w);
      AddCommutes(UsageOf(a, w), UsageOf(b, w), u);
    }
    MethodsEqual(l, m);
    MethodsEqual(m, r);
  }

  /** It does not matter on which side of a merge a request was recorded. */
  lemma RecordCommutes(a: Counts, b: Counts, r: Request)
    ensures Merge(Record(a, r), b) == Merge(a, Record(b, r)) == Record(Merge(a, b), r)
  {
    hide BumpIf, AddBins, AddMethods, Used;
    BumpCommutes(a.times, b.times, r.t);
    BumpCommutes(a.respTimes, b.respTimes, r.respWr);
    MethodsCommute(a.methods, b.methods, r.verb, Usage(1, OrZero(r.t)));
  }

  lemma MergeEmpty(c: Counts)
    ensures Merge(EMPTY, c) == c == Merge(c, EMPTY)
  {
    assert AddMethods(map[], c.methods) == c.methods;
    assert AddMethods(c.methods, map[]) == c.methods;
  }

  /** Merging the tallies of two adjacent stretches of time gives the tally of both. */
  lemma {:induction false} TotalsMerge(s: Log, from: int, mid: int, to: int)
    requires from <= mid <= to
    ensures Merge(Total(During(s, from, mid)), Total(During(s, mid, to))) == Total(During(s, from, to))
  {
    if s == [] {
      MergeEmpty(EMPTY);
    } else {
      hide Record, Merge;
      var front, r := s[..|s| - 1], s[|s| - 1];
      assert s == front + [r];
      TotalsMerge(front, from, mid, to);
      DuringMore(front, r, from, mid);
      DuringMore(front, r, mid, to);
      DuringMore(front, r, from, to);
      TotalOfMore(During(front, from, mid), r);
      TotalOfMore(During(front, mid, to), r);
      TotalOfMore(During(front, from, to), r);
      RecordCommutes(Total(During(front, from, mid)), Total(During(front, mid, to)), r);
    }
  }

  lemma {:induction false} NothingBefore(s: Log, from: int, first: int, to: int)
    requires from <= first <= to
    requires forall r :: r in s ==> first <= r.at
    ensures During(s, from, to) == During(s, first, to)
  {
    if s != [] {
      assert s[|s| - 1] in s;
      NothingBefore(s[..|s| - 1], from, first, to);
    }
  }

  lemma {:induction false} NothingWithin(s: Log, from: int, to: int)
    requires forall r :: r in s ==> !(from <= r.at < to)
    ensures During(s, from, to) == [] && Total(During(s, from, to)) == EMPTY
  {
    if s != [] {
      assert s[|s| - 1] in s;
      NothingWithin(s[..|s| - 1], from, to);
    }
  }

  // ----- What the counters of a stretch of the log say -----

  function Bins(h: Histogram): nat {
    h.under10ms + h.under100ms + h.under1s + h.under10s + h.under30s + h.under60s + h.over60s
  }

  function CountIf(s: Log, f: Request -> bool): nat {
    if s == [] then 0 else CountIf(s[..|s| - 1], f) + if f(s[|s| - 1]) then 1 else 0
  }

  function SumOf(s: Log, f: Request -> real): real {
    if s == [] then 0.0 else SumOf(s[..|s| - 1], f) + f(s[|s| - 1])
  }

  /** The requests whose time is at least `low` and below `high`, where there is such a bound. */
  function InBin(low: Option<real>, high: Option<real>): Request -> bool {
    (r: Request) => r.t.Some? && (low.None? || low.value <= r.t.value) && (high.None? || r.t.value < high.value)
  }

  lemma BumpBins(h: Histogram, t: Option<real>)
    ensures Bins(BumpIf(h, t)) == Bins(h) + if t.Some? then 1 else 0
    ensures BumpIf(h, t).longerThan1s == h.longerThan1s + if t.Some? && t.value >= 1000.0 then 1 else 0
    ensures BumpIf(h, t).longerThan10s == h.longerThan10s
  {
  }

  /** Every request is counted, and its status. */
  lemma {:induction false} RequestsCounted(s: Log)
    ensures Total(s).requests == |s|
    ensures Total(s).server500 == CountIf(s, (r: Request) => r.status >= 500)
    ensures Total(s).auth401 == CountIf(s, (r: Request) => r.status == 401)
  {
    hide BumpIf, Used;
    if s != [] {
      RequestsCounted(s[..|s| - 1]);
    }
  }

  lemma NoBins()
    ensures Bins(ZERO) == 0
  {
  }

  /** The seven bins of a histogram sum to the requests that carried its time; "Over 1s"
      counts the slow ones again, and "Over 10s" stays zero. */
  lemma {:induction false} BinsSumToTimed(s: Log)
    ensures Bins(Total(s).times) == CountIf(s, (r: Request) => r.t.Some?)
    ensures Bins(Total(s).respTimes) == CountIf(s, (r: Request) => r.respWr.Some?)
    ensures Total(s).times.longerThan1s == CountIf(s, (r: Request) => r.t.Some? && r.t.value >= 1000.0)
    ensures Total(s).times.longerThan10s == 0
  {
    hide BumpIf, Used, Bins;
    NoBins();
    if s != [] {
      var front, r := s[..|s| - 1], s[|s| - 1];
      BinsSumToTimed(front);
      BumpBins(Total(front).times, r.t);
      BumpBins(Total(front).respTimes, r.respWr);
    }
  }

  /** Each of the seven bins counts the requests whose time is in its range. */
  lemma {:induction false} BinsByRange(s: Log)
    ensures var h := Total(s).times;
      && h.under10ms == CountIf(s, InBin(None, Some(10.0)))
      && h.under100ms == CountIf(s, InBin(Some(10.0), Some(100.0)))
      && h.under1s == CountIf(s, InBin(Some(100.0), Some(1000.0)))
      && h.under10s == CountIf(s, InBin(Some(1000.0), Some(10000.0)))
      && h.under30s == CountIf(s, InBin(Some(10000.0), Some(30000.0)))
      && h.under60s == CountIf(s, InBin(Some(30000.0), Some(60000.0)))
      && h.over60s == CountIf(s, InBin(Some(60000.0), None))
  {
    hide Used;
    if s != [] {
      BinsByRange(s[..|s| - 1]);
    }
  }

  /** The sums are sums, and the longest time is the longest. */
  lemma {:induction false} SumsAreRight(s: Log)
    ensures Total(s).t == SumOf(s, (r: Request) => if r.t.Some? then r.t.value else 0.0)
    ensures Total(s).respWr == SumOf(s, (r: Request) => if r.respWr.Some? then r.respWr.value else 0.0)
    ensures Total(s).slots as real == SumOf(s, (r: Request) => r.outstanding as real)
    ensures forall r :: r in s && r.t.Some? ==> r.t.value <= Total(s).longest
    ensures Total(s).longest == 0.0 || exists r :: r in s && r.t == Some(Total(s).longest)
  {
    hide BumpIf, Used;
    if s != [] {
      var front, r := s[..|s| - 1], s[|s| - 1];
      SumsAreRight(front);
      assert s == front + [r];
      assert r in s;
    }
  }

  /** Per method, too: the requests that used it, and the time they took. */
  lemma {:induction false} MethodsCounted(s: Log, verb: string)
    ensures UsageOf(Total(s).methods, verb) ==
      Usage(CountIf(s, (r: Request) => r.verb == verb),
            SumOf(s, (r: Request) => if r.verb == verb && r.t.Some? then r.t.value else 0.0))
  {
    hide BumpIf, UsageOf, Used;
    if s == [] {
      NoUsage(verb);
    } else {
      var front, r := s[..|s| - 1], s[|s| - 1];
      MethodsCounted(front, verb);
      UsedUsage(Total(front).methods, r.verb, Usage(1, OrZero(r.t)), verb);
    }
  }

  lemma NoUsage(verb: string)
    ensures UsageOf(map[], verb) == Usage(0, 0.0)
  {
  }

  // ----- The minutes -----

  const THRESHOLD := 65

  /** The minute that the clock is in. */
  function Minute(clock: nat): (m: nat)
    ensures m % 60 == 0 && m <= clock < m + 60
  {
    clock / 60 * 60
  }

  /** The catch-up loop steps by a minute until it meets the current one: it ends exactly if
      the clock has not gone back to an earlier minute. */
  lemma CatchUpEnds(last: nat, now: nat)
    ensures (exists k: nat :: Minute(last) + 60 * k == Minute(now)) <==> Minute(last) <= Minute(now)
  {
    if Minute(last) <= Minute(now) {
      assert Minute(last) + 60 * (now / 60 - last / 60) == Minute(now);
    }
  }

  /** A dictionary of counters; cached aggregates may share one with a minute. */
  class Tally {
    var counts: Counts

    constructor ()
      ensures counts == EMPTY
    {
      counts := EMPTY;
    }

    method UpdateStats(r: Request)
      modifies this
      ensures counts == Record(old(counts), r)
    {
      hide Bump, Used;
      ghost var before := counts;
      counts := counts.(requests := counts.requests + 1);
      var u := UsageOf(counts.methods, r.verb);
      counts := counts.(methods := counts.methods[r.verb := Usage(u.count + 1, u.time + OrZero(r.t))]);
      assert counts.methods == Used(before.methods, r.verb, Usage(1, OrZero(r.t))) by {
        UsedIs(before.methods, r.verb, OrZero(r.t));
      }
      if r.status >= 500 {
        counts := counts.(server500 := counts.server500 + 1);
      } else if r.status == 401 {
        counts := counts.(auth401 := counts.auth401 + 1);
      }
      counts := counts.(t := counts.t + OrZero(r.t), respWr := counts.respWr + OrZero(r.respWr),
                        slots := counts.slots + r.outstanding);
      if r.t.Some? {
        counts := counts.(times := Bump(counts.times, r.t.value), longest := Max(counts.longest, r.t.value));
      }
      if r.respWr.Some? {
        counts := counts.(respTimes := Bump(counts.respTimes, r.respWr.value));
      }
    }

    method MergeMethods(theirs: map<string, Usage>)
      modifies this
      ensures counts == old(counts).(methods := AddMethods(old(counts.methods), theirs))
    {
      hide AddMethods, UsageOf, Add;
      var merged, todo := counts.methods, theirs.Keys;
      NoneMerged(counts.methods, theirs);
      while todo != {}
        invariant counts == old(counts) && PartlyMerged(counts.methods, theirs, todo, merged)
        decreases |todo|
      {
        var v :| v in todo;
        MergeOne(counts.methods, theirs, todo, merged, v);
        merged := merged[v := Add(UsageOf(merged, v), theirs[v])];
        todo := todo - {v};
      }
      AllMerged(counts.methods, theirs, merged);
      counts := counts.(methods := merged);
    }

    method MergeStats(stats: Tally)
      requires stats != this
      modifies this
      ensures counts == Merge(old(counts), stats.counts)
    {
      hide AddBins, AddMethods, Max;
      counts := counts.(requests := counts.requests + stats.counts.requests);
      MergeMethods(stats.counts.methods);
      counts := counts.(server500 := counts.server500 + stats.counts.server500,
                        auth401 := counts.auth401 + stats.counts.auth401,
                        t := counts.t + stats.counts.t, respWr := counts.respWr + stats.counts.respWr,
                        slots := counts.slots + stats.counts.slots,
                        times := AddBins(counts.times, stats.counts.times),
                        longest := Max(counts.longest, stats.counts.longest),
                        respTimes := AddBins(counts.respTimes, stats.counts.respTimes));
    }
  }

  datatype Slot = Slot(minute: nat, tally: Tally)

  ghost predicate Contiguous(slots: seq<Slot>) {
    forall i :: 0 <= i < |slots| ==> slots[i].minute == slots[0].minute + 60 * i
  }

  ghost predicate Distinct(slots: seq<Slot>) {
    forall i, j :: 0 <= i < j < |slots| ==> slots[i].tally != slots[j].tally
  }

  /** Every minute's tally is that of the requests logged during the minute. */
  ghost predicate Accurate(slots: seq<Slot>, tallies: set<Tally>, log: Log)
    reads tallies
  {
    forall i :: 0 <= i < |slots| ==>
      slots[i].tally in tallies &&
      slots[i].tally.counts == Total(During(log, slots[i].minute, slots[i].minute + 60))
  }

  lemma ContiguousMore(slots: seq<Slot>, slot: Slot)
    requires Contiguous(slots)
    requires |slots| > 0 && slot.minute == slots[|slots| - 1].minute + 60
    ensures Contiguous(slots + [slot])
  {
    var more := slots + [slot];
    forall i | 0 <= i < |more|
      ensures more[i].minute == more[0].minute + 60 * i
    {
      assert i < |slots| ==> more[i] == slots[i];
    }
  }

  lemma ContiguousLast(slots: seq<Slot>, k: nat)
    requires Contiguous(slots) && k < |slots|
    ensures Contiguous(slots[k..])
    ensures slots[k].minute == slots[|slots| - 1].minute - 60 * (|slots| - 1 - k)
  {
    forall i | 0 <= i < |slots| - k
      ensures slots[k..][i].minute == slots[k].minute + 60 * i
    {
      assert slots[k..][i] == slots[k + i];
    }
  }

  lemma AccurateMore(slots: seq<Slot>, tallies: set<Tally>, slot: Slot, log: Log)
    requires Accurate(slots, tallies, log)
    requires slot.tally in tallies && slot.tally.counts == Total(During(log, slot.minute, slot.minute + 60))
    ensures Accurate(slots + [slot], tallies, log)
  {
    hide Total, During;
  }

  /** No request is newer than the last minute, and none older than the first one unless
      older minutes have been dropped. */
  ghost predicate Covers(slots: seq<Slot>, log: Log) {
    if slots == [] then log == []
    else
      && (forall r :: r in log ==> r.at < slots[|slots| - 1].minute + 60)
      && (|slots| < THRESHOLD ==> forall r :: r in log ==> slots[0].minute <= r.at)
  }

  /** The requests of the last `n` completed minutes. */
  ghost function Completed(log: Log, last: nat, n: nat): Log {
    During(log, last - 60 * n, last)
  }

  lemma AccurateAt(slots: seq<Slot>, tallies: set<Tally>, log: Log)
    requires Contiguous(slots) && Accurate(slots, tallies, log) && slots != []
    ensures slots[|slots| - 1].tally in tallies
    ensures var last := slots[|slots| - 1]; last.tally.counts == Total(During(log, last.minute, last.minute + 60))
    ensures |slots| > 1 ==>
      slots[|slots| - 2].tally.counts == Total(Completed(log, slots[|slots| - 1].minute, 1))
  {
    hide Total, During;
  }

  lemma LastSlots(slots: seq<Slot>, k: nat, tallies: set<Tally>, log: Log)
    requires k < |slots| && |slots| == k + THRESHOLD
    requires Contiguous(slots) && Distinct(slots) && Covers(slots, log) && Accurate(slots, tallies, log)
    ensures Contiguous(slots[k..]) && Distinct(slots[k..]) && Covers(slots[k..], log) &&
              Accurate(slots[k..], tallies, log)
  {
    hide During, Total;
    ContiguousLast(slots, k);
  }

  lemma CoversMore(slots: seq<Slot>, log: Log, r: Request)
    requires Contiguous(slots) && Covers(slots, log) && slots != []
    requires slots[|slots| - 1].minute <= r.at < slots[|slots| - 1].minute + 60
    ensures Covers(slots, log + [r])
  {
    ContiguousLast(slots, 0);
  }

  /** A cached aggregate is that of the raw log over the last `n` completed minutes, and is
      not itself the tally of a minute. */
  ghost predicate IsCache(t: Tally?, slots: seq<Slot>, log: Log, n: nat)
    reads t
  {
    t == null ||
    (&& slots != []
     && t.counts == Total(Completed(log, slots[|slots| - 1].minute, n))
     && forall s :: s in slots ==> s.tally != t)
  }

  lemma CacheSays(t: Tally, slots: seq<Slot>, log: Log, n: nat)
    requires IsCache(t, slots, log, n)
    ensures slots != [] && t.counts == Total(Completed(log, slots[|slots| - 1].minute, n))
  {
  }

  lemma CacheApart(t: Tally?, slots: seq<Slot>, log: Log, n: nat)
    requires IsCache(t, slots, log, n) && slots != []
    ensures t != slots[|slots| - 1].tally
  {
    assert slots[|slots| - 1] in slots;
  }

  lemma CacheKept(t: Tally?, slots: seq<Slot>, log: Log, n: nat, r: Request)
    requires IsCache(t, slots, log, n) && slots != [] && slots[|slots| - 1].minute <= r.at
    ensures IsCache(t, slots, log + [r], n)
  {
    hide Total, During;
    var m: int := slots[|slots| - 1].minute;
    DuringMore(log, r, m - 60 * n, m);
  }

  lemma OneMore(slots: seq<Slot>, log: Log, r: Request)
    requires Contiguous(slots) && slots != []
    requires slots[|slots| - 1].minute <= r.at < slots[|slots| - 1].minute + 60
    ensures forall i :: 0 <= i < |slots| - 1 ==>
      During(log + [r], slots[i].minute, slots[i].minute + 60) == During(log, slots[i].minute, slots[i].minute + 60)
  {
    forall i | 0 <= i < |slots| - 1
      ensures var minute := slots[i].minute; During(log + [r], minute, minute + 60) == During(log, minute, minute + 60)
    {
      DuringMore(log, r, slots[i].minute, slots[i].minute + 60);
    }
  }

  /** Updates the last minute with a request logged during it. */
  method RecordIn(slots: seq<Slot>, ghost tallies: set<Tally>, ghost log: Log, r: Request)
    requires Contiguous(slots) && Distinct(slots) && Accurate(slots, tallies, log) && slots != []
    requires slots[|slots| - 1].minute <= r.at < slots[|slots| - 1].minute + 60
    modifies slots[|slots| - 1].tally
    ensures Accurate(slots, tallies, log + [r])
  {
    hide Total, During, Record, Contiguous;
    ghost var m: int := slots[|slots| - 1].minute;
    OneMore(slots, log, r);
    DuringMore(log, r, m, m + 60);
    TotalOfMore(During(log, m, m + 60), r);
    slots[|slots| - 1].tally.UpdateStats(r);
  }

  class AccessLogObserver {
    var statsByMinute: seq<Slot>
    var stats1m: Tally?
    var stats5m: Tally?
    var stats1h: Tally?
    ghost var log: Log
    ghost var tallies: set<Tally>

    ghost predicate Sequential()
      reads this, tallies
    {
      && Contiguous(statsByMinute)
      && Distinct(statsByMinute)
      && Covers(statsByMinute, log)
      && Accurate(statsByMinute, tallies, log)
      && (statsByMinute != [] ==> Last() % 60 == 0)
    }

    ghost function Last(): nat
      requires statsByMinute != []
      reads this
    {
      statsByMinute[|statsByMinute| - 1].minute
    }

    /** With a single minute so far, the last completed one is taken to be that minute. */
    ghost predicate Caches()
      reads this, stats5m, stats1h
    {
      && IsCache(stats5m, statsByMinute, log, 5)
      && IsCache(stats1h, statsByMinute, log, 60)
      && (stats1m != null ==>
            statsByMinute != [] &&
            stats1m == statsByMinute[if |statsByMinute| == 1 then 0 else |statsByMinute| - 2].tally)
    }

    ghost predicate Valid()
      reads this, tallies, stats5m, stats1h
    {
      Sequential() && |statsByMinute| <= THRESHOLD && Caches()
    }

    constructor ()
      ensures Valid() && log == []
    {
      statsByMinute, stats1m, stats5m, stats1h, log, tallies := [], null, null, null, [], {};
    }

    method FirstMinute(minute: nat)
      requires Sequential() && statsByMinute == [] && minute % 60 == 0
      modifies this`statsByMinute, this`tallies
      ensures Sequential() && |statsByMinute| == 1 && Last() == minute
      ensures old(tallies) <= tallies && fresh(tallies - old(tallies))
    {
      var tally := new Tally();
      statsByMinute, tallies := [Slot(minute, tally)], tallies + {tally};
      assert log == [];
    }

    /** Appends a minute in which nothing has been logged. */
    method AppendMinute(minute: nat)
      requires Sequential() && |statsByMinute| > 0 && minute == Last() + 60
      modifies this`statsByMinute, this`tallies
      ensures Sequential() && |statsByMinute| > 0 && Last() == minute
      ensures old(tallies) <= tallies && fresh(tallies - old(tallies))
    {
      hide Contiguous, During, Total;
      var tally := new Tally();
      var slot := Slot(minute, tally);
      NothingWithin(log, minute, minute + 60);
      ContiguousMore(statsByMinute, slot);
      ghost var more := tallies + {tally};
      assert Accurate(statsByMinute, more, log);
      AccurateMore(statsByMinute, more, slot, log);
      statsByMinute, tallies := statsByMinute + [slot], more;
    }

    method EnsureSequentialStats(clock: nat) returns (current: Tally)
      requires Valid() && (statsByMinute != [] ==> Last() <= Minute(clock))
      modifies this
      ensures Valid() && log == old(log)
      ensures statsByMinute != [] && Last() == Minute(clock) && current == statsByMinute[|statsByMinute| - 1].tally
      ensures |statsByMinute| <= 65
      ensures old(tallies) <= tallies && fresh(tallies - old(tallies))
    {
      hide Contiguous, During, Total, Accurate, Distinct;
      var dtindex := Minute(clock);
      if |statsByMinute| > 0 {
        if statsByMinute[|statsByMinute| - 1].minute != dtindex {
          var oldindex := statsByMinute[|statsByMinute| - 1].minute;
          if oldindex != dtindex {
            stats1m, stats5m, stats1h := null, null, null;
          }
          while oldindex != dtindex
            invariant Sequential() && |statsByMinute| > 0 && oldindex == Last() <= dtindex
            invariant log == old(log) && stats1m == null && stats5m == null && stats1h == null
            invariant old(tallies) <= tallies && fresh(tallies - old(tallies))
            decreases dtindex - oldindex
          {
            oldindex := oldindex + 60;
            AppendMinute(oldindex);
          }
        }
      } else {
        FirstMinute(dtindex);
        stats1m, stats5m, stats1h := null, null, null;
      }
      if |statsByMinute| > THRESHOLD {
        LastSlots(statsByMinute, |statsByMinute| - THRESHOLD, tallies, log);
        statsByMinute := statsByMinute[|statsByMinute| - THRESHOLD..];
      }
      current := statsByMinute[|statsByMinute| - 1].tally;
    }

    method LogStats(r: Request)
      requires Valid() && (r.accessLog && statsByMinute != [] ==> Last() <= Minute(r.at))
      modifies this, tallies
      ensures Valid() && log == if r.accessLog then old(log) + [r] else old(log)
      ensures old(tallies) <= tallies && fresh(tallies - old(tallies))
    {
      hide Total, During, Contiguous, Covers, IsCache, Accurate, Distinct;
      if !r.accessLog {
        return;
      }
      var current := EnsureSequentialStats(r.at);
      AccurateAt(statsByMinute, tallies, log);
      CacheApart(stats5m, statsByMinute, log, 5);
      CacheApart(stats1h, statsByMinute, log, 60);
      RecordIn(statsByMinute, tallies, log, r);
      CacheKept(stats5m, statsByMinute, log, 5, r);
      CacheKept(stats1h, statsByMinute, log, 60, r);
      CoversMore(statsByMinute, log, r);
      log := log + [r];
    }

    /** The merge of the last `n` completed minutes that are still kept. */
    method Aggregate(n: nat) returns (sum: Tally)
      requires Sequential() && statsByMinute != [] && n < THRESHOLD
      ensures fresh(sum) && IsCache(sum, statsByMinute, log, n)
    {
      hide Total, During, Distinct, Merge;
      sum := new Tally();
      var len := |statsByMinute|;
      var index := if len < n + 1 then len else n + 1;
      var i := len - index;
      ghost var first := statsByMinute[i].minute;
      NothingWithin(log, first, first);
      while i < len - 1
        invariant len - index <= i <= len - 1
        invariant sum.counts == Total(During(log, first, statsByMinute[i].minute))
      {
        TotalsMerge(log, first, statsByMinute[i].minute, statsByMinute[i].minute + 60);
        sum.MergeStats(statsByMinute[i].tally);
        i := i + 1;
      }
      if index < n + 1 {
        NothingBefore(log, Last() - 60 * n, first, Last());
      }
    }

    /** The aggregates that are not cached are computed. */
    method FillCaches()
      requires Valid() && statsByMinute != []
      modifies this`stats1m, this`stats5m, this`stats1h
      ensures Valid() && stats1m != null && stats5m != null && stats1h != null
    {
      hide Total, During, Distinct, Accurate, Contiguous, Covers, Completed, IsCache;
      if stats1m == null {
        var index := if |statsByMinute| < 2 then |statsByMinute| else 2;
        stats1m := statsByMinute[|statsByMinute| - index].tally;
      }
      if stats5m == null {
        stats5m := Aggregate(5);
      }
      if stats1h == null {
        stats1h := Aggregate(60);
      }
    }

    /** Each aggregate is that of the raw log, whatever was cached before. */
    method GetStats(clock: nat) returns (current: Tally, last1m: Tally, last5m: Tally, last1h: Tally)
      requires Valid() && (statsByMinute != [] ==> Last() <= Minute(clock))
      modifies this
      ensures Valid() && log == old(log) && statsByMinute != [] && Last() == Minute(clock)
      ensures current.counts == Total(During(log, Minute(clock), Minute(clock) + 60))
      ensures last5m.counts == Total(Completed(log, Minute(clock), 5))
      ensures last1h.counts == Total(Completed(log, Minute(clock), 60))
      ensures if |statsByMinute| > 1 then last1m.counts == Total(Completed(log, Minute(clock), 1))
              else last1m == current
      ensures old(tallies) <= tallies && fresh(tallies - old(tallies))
    {
      hide Total, During, Distinct, Accurate, Contiguous, Covers, Completed, IsCache, Minute;
      current := EnsureSequentialStats(clock);
      FillCaches();
      last1m, last5m, last1h := stats1m, stats5m, stats1h;
      AccurateAt(statsByMinute, tallies, log);
      CacheSays(stats5m, statsByMinute, log, 5);
      CacheSays(stats1h, statsByMinute, log, 60);
    }
  }
}
