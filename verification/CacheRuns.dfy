/** The cached expansion of a component over any sequence of the calls that fill it, use it or
    clear it: cacheExpandedTimeRanges, onlyPastInstances, onlyFutureInstances and deriveInstance
    of twistedcaldav/ical.py. */
module CacheRuns {

  import opened Collections
  import opened Recurrence
  import opened Instances
  import opened SeriesSplit
  import opened Calendar

  datatype Op =
    | Expand(limit: int, ignoreInvalidInstances: bool)
    | Past(rid: int)
    | Future(rid: int, nextYear: int)
    | Derive(rid: int, allowCancelled: bool, allowExcluded: bool)

  /** What recurs: a master and its overrides. */
  datatype Series = Series(master: Master, overrides: seq<Override>)

  predicate Recurs(s: Series) {
    MasterRecurs(s.master) || s.overrides != []
  }

  /** The series after a call, if its override ids were valid; `ok` says that it did not raise. */
  ghost function Follow(s: Series, op: Op, ok: bool): (f: Series)
    requires ValidMaster(s.master)
    ensures ValidMaster(f.master)
  {
    match op
    case Expand(_, _) => s
    case Past(rid) => if Recurs(s) then Series(PastMaster(s.master, rid), KeptBefore(s.overrides, rid)) else s
    case Future(rid, nextYear) =>
      if ok && Recurs(s) then
        var known := Derivable(s.master, NewStart(s.master, rid, nextYear));
        Series(FuturePart(s.master, rid, nextYear, known), FutureOverrides(s.overrides, rid, known))
      else s
    case Derive(rid, allowCancelled, _) =>
      Series(Uncancelled(Some(s.master), rid, allowCancelled).value, s.overrides)
  }

  ghost function After(s: Series, ops: seq<Op>, oks: seq<bool>): (f: Series)
    requires ValidMaster(s.master) && |ops| == |oks|
    ensures ValidMaster(f.master)
  {
    if ops == [] then s
    else
      var n := |ops| - 1;
      Follow(After(s, ops[..n], oks[..n]), ops[n], oks[n])
  }

  /** Every override id is an instance. */
  ghost predicate IdsValid(s: Series)
    requires ValidMaster(s.master)
  {
    ValidIds(s.master, s.overrides)
  }

  /** A call after which they still are; see `Calendar.FutureKeepsIds`. */
  ghost predicate KeepsIds(s: Series, op: Op)
    requires ValidMaster(s.master)
  {
    op.Future? && Recurs(s) ==> FutureKeepsIds(s.master, s.overrides, op.rid, op.nextYear)
  }

  ghost predicate AllKeepIds(s: Series, ops: seq<Op>, oks: seq<bool>)
    requires ValidMaster(s.master) && |ops| == |oks|
  {
    forall i :: 0 <= i < |ops| && oks[i] ==> KeepsIds(After(s, ops[..i], oks[..i]), ops[i])
  }

  /** Exactly then a call that does not raise keeps the ids valid. */
  lemma KeepsIdsExactly(s: Series, op: Op, ok: bool)
    requires ValidMaster(s.master) && IdsValid(s)
    ensures IdsValid(Follow(s, op, ok)) <==> !ok || KeepsIds(s, op)
  {
    match op
    case Expand(_, _) =>
    case Past(rid) => PastKeepsIds(s.master, s.overrides, rid);
    case Future(rid, nextYear) => FutureKeepsIdsExactly(s.master, s.overrides, rid, nextYear);
    case Derive(rid, allowCancelled, _) => UncancelledKeepsIds(s.master, s.overrides, rid, allowCancelled);
  }

  lemma FrontKeepsIds(s: Series, ops: seq<Op>, oks: seq<bool>, n: nat)
    requires ValidMaster(s.master) && |ops| == |oks| && n <= |ops| && AllKeepIds(s, ops, oks)
    ensures AllKeepIds(s, ops[..n], oks[..n])
  {
    hide KeepsIds, After;
    assert forall i :: 0 <= i < n ==>
      ops[..n][..i] == ops[..i] && oks[..n][..i] == oks[..i] && ops[..n][i] == ops[i] && oks[..n][i] == oks[i];
  }

  /** The answer of an expansion agrees with the series: every rid up to the limit is a key if
      and only if it is an instance, or the id of a cancelled override. */
  ghost predicate Transparent(s: Series, limit: int, answer: InstanceMap)
    requires ValidMaster(s.master)
  {
    forall t :: t <= limit ==> (t in answer <==> IsKey(s.master, s.overrides, t))
  }

  ghost predicate Holds(c: Component, s: Series)
    reads c
  {
    c.Valid() && c.master == Some(s.master) && c.overrides == s.overrides
  }

  ghost predicate Good(c: Component, s: Series)
    requires ValidMaster(s.master)
    reads c
  {
    Holds(c, s) && c.CacheFaithful() && IdsValid(s)
  }

  /** One call; for an expansion, `answer` is the list it returns. */
  method Perform(c: Component, op: Op, ghost s: Series) returns (ok: bool, answer: InstanceMap)
    requires c.Valid() && c.master.Some? && ValidMaster(s.master)
    modifies c
    ensures c.Valid() && c.master.Some?
    ensures old(Good(c, s)) ==> Holds(c, Follow(s, op, ok)) && c.CacheFaithful()
    ensures old(Good(c, s)) && ok && op.Expand? ==> Transparent(s, op.limit, answer)
  {
    hide Sound, ValidIds, MapFits, DistinctIds, InSet, IsKey, Faithful, PastMaster, FuturePart, KeptBefore, KeptFrom;
    hide Derivable, NewStart, CanDerive, NeedsExpansion, Cancels;
    answer := map[];
    match op {
      case Expand(limit, ignoreInvalidInstances) =>
        var r := c.CacheExpandedTimeRanges(limit, ignoreInvalidInstances);
        ok := r.Ok?;
        if ok {
          answer := c.cachedInstances.value.instances;
        }
      case Past(rid) =>
        c.OnlyPastInstances(rid);
        ok := true;
      case Future(rid, nextYear) =>
        var r := c.OnlyFutureInstances(rid, nextYear);
        ok := r.Ok?;
      case Derive(rid, allowCancelled, allowExcluded) =>
        var r, derived := c.DeriveInstance(rid, allowCancelled, allowExcluded);
        ok := r.Ok?;
    }
  }

  /** The cached expansion is transparent: from a component with valid override ids and an
      empty or faithful cache, after any calls that kept the ids valid, every list that is
      returned agrees with the recurrence set of that moment, up to its limit. */
  method PerformAll(c: Component, ops: seq<Op>) returns (oks: seq<bool>, answers: seq<InstanceMap>)
    requires c.Valid() && c.master.Some? && c.CacheFaithful() && ValidIds(c.master.value, c.overrides)
    modifies c
    ensures |oks| == |answers| == |ops|
    ensures AllTransparent(old(Series(c.master.value, c.overrides)), ops, oks, answers)
  {
    hide AllKeepIds, AllTransparent, After, Good;
    ghost var s := Series(c.master.value, c.overrides);
    oks, answers := [], [];
    AtFirst(c, s);
    for n := 0 to |ops|
      invariant c.Valid() && c.master.Some? && |oks| == |answers| == n
      invariant AllKeepIds(s, ops[..n], oks) ==> Good(c, After(s, ops[..n], oks))
      invariant AllTransparent(s, ops[..n], oks, answers)
    {
      ghost var before := After(s, ops[..n], oks);
      ghost var good := Good(c, before);
      if good {
        GoodHasValidIds(c, before);
      }
      var ok, answer := Perform(c, ops[n], before);
      OneMoreCall(s, ops[..n], oks, ops[n], ok);
      OneMoreAnswer(s, ops[..n], oks, answers, ops[n], ok, answer);
      assert ops[..n + 1] == ops[..n] + [ops[n]];
      if good && (ok ==> KeepsIds(before, ops[n])) {
        StillGood(c, before, ops[n], ok);
      }
      oks, answers := oks + [ok], answers + [answer];
    }
    assert ops[..|ops|] == ops;
  }

  /** Each list that an expansion returned while the ids were valid is transparent. */
  ghost predicate AllTransparent(s: Series, ops: seq<Op>, oks: seq<bool>, answers: seq<InstanceMap>)
    requires ValidMaster(s.master) && |ops| == |oks| == |answers|
  {
    forall i :: 0 <= i < |ops| && AllKeepIds(s, ops[..i], oks[..i]) && oks[i] && ops[i].Expand? ==>
      Transparent(After(s, ops[..i], oks[..i]), ops[i].limit, answers[i])
  }

  lemma AtFirst(c: Component, s: Series)
    requires Holds(c, s) && c.CacheFaithful() && IdsValid(s)
    ensures After(s, [], []) == s && Good(c, s) && AllTransparent(s, [], [], [])
  {
  }

  lemma GoodHasValidIds(c: Component, s: Series)
    requires ValidMaster(s.master) && Good(c, s)
    ensures IdsValid(s)
  {
  }

  lemma StillGood(c: Component, before: Series, op: Op, ok: bool)
    requires ValidMaster(before.master) && IdsValid(before) && (ok ==> KeepsIds(before, op))
    requires Holds(c, Follow(before, op, ok)) && c.CacheFaithful()
    ensures Good(c, Follow(before, op, ok))
  {
    hide IdsValid, KeepsIds, Follow;
    KeepsIdsExactly(before, op, ok);
  }

  lemma OneMoreCall(s: Series, ops: seq<Op>, oks: seq<bool>, op: Op, ok: bool)
    requires ValidMaster(s.master) && |ops| == |oks|
    ensures After(s, ops + [op], oks + [ok]) == Follow(After(s, ops, oks), op, ok)
    ensures AllKeepIds(s, ops + [op], oks + [ok]) ==>
      AllKeepIds(s, ops, oks) && (ok ==> KeepsIds(After(s, ops, oks), op))
  {
    hide KeepsIds, Follow;
    var n, ops', oks' := |ops|, ops + [op], oks + [ok];
    assert ops'[..n] == ops && oks'[..n] == oks && ops'[n] == op && oks'[n] == ok;
    if AllKeepIds(s, ops', oks') {
      FrontKeepsIds(s, ops', oks', n);
    }
  }

  lemma OneMoreAnswer(s: Series, ops: seq<Op>, oks: seq<bool>, answers: seq<InstanceMap>, op: Op, ok: bool,
                      answer: InstanceMap)
    requires ValidMaster(s.master) && |ops| == |oks| == |answers| && AllTransparent(s, ops, oks, answers)
    requires AllKeepIds(s, ops, oks) && ok && op.Expand? ==> Transparent(After(s, ops, oks), op.limit, answer)
    ensures AllTransparent(s, ops + [op], oks + [ok], answers + [answer])
  {
    hide AllKeepIds, After, Transparent;
    var ops', oks', answers' := ops + [op], oks + [ok], answers + [answer];
    forall i | 0 <= i < |ops'| && AllKeepIds(s, ops'[..i], oks'[..i]) && oks'[i] && ops'[i].Expand?
      ensures Transparent(After(s, ops'[..i], oks'[..i]), ops'[i].limit, answers'[i])
    {
      assert ops'[..i] == ops[..i] && oks'[..i] == oks[..i];
      if i == |ops| {
        assert ops[..i] == ops && oks[..i] == oks;
      }
    }
  }
}
