/** The shared property cache of twistedcaldav/memcacheprops.py: each child of a collection has
    its properties in memcache, and processes update them by compare-and-set with retries. The
    store behaves as TestClient of twistedcaldav/memcacheclient.py. */
module PropertyCache {

  import opened Collections

  type Child = nat
  type Name = nat

  type Props = map<Name, int>

  /** What a setProperty call does to a child's properties. */
  datatype Op = SetProp(name: Name, property: int) | DeleteProp(name: Name)

  function Apply(op: Op, m: Props): Props {
    match op
    case SetProp(name, property) => m[name := property]
    case DeleteProp(name) => m - {name}
  }

  // ----- The store -----

  datatype Version = Version(props: Props, token: nat)

  /** Stored values with their tokens; every write takes the next token. */
  datatype Store = Store(data: map<Child, Version>, nextToken: nat)

  function Write(s: Store, child: Child, props: Props): Store {
    Store(s.data[child := Version(props, s.nextToken)], s.nextToken + 1)
  }

  /** TestClient._set refuses a token that is not the stored one; without a token it just writes. */
  predicate Mismatch(s: Store, child: Child, token: Option<nat>) {
    token.Some? && child in s.data && token.value != s.data[child].token
  }

  // ----- Processes -----

  const RETRIES := 10

  datatype Call = Call(id: nat, child: Child, op: Op)

  /** Where a process is in setProperty: about to send `props` under `token`, with `retries`
      attempts left; or about to reload the child after an attempt. */
  datatype Phase =
    | Idle
    | Attempting(call: Call, props: Props, token: Option<nat>, retries: nat)
    | Reloading(call: Call, committed: bool, retries: nat)

  datatype Process = Process(cache: map<Child, Version>, phase: Phase)

  datatype Outcome = Succeeded | Raised

  /** All processes over one store. `log` lists the calls in the order of their commits, and
      `outcomes` how finished calls ended. */
  datatype World = World(store: Store, processes: map<nat, Process>, log: seq<Call>, outcomes: map<nat, Outcome>,
                         started: set<nat>)

  datatype Event =
    | Load(pid: nat, child: Child)
    | Begin(pid: nat, call: Call)
    | Attempt(pid: nat, accepted: bool)
    | Reload(pid: nat)

  predicate Enabled(w: World, e: Event) {
    e.pid in w.processes &&
    var p := w.processes[e.pid];
    match e
    case Load(_, child) => p.phase.Idle? && child in w.store.data
    case Begin(_, call) => p.phase.Idle? && call.id !in w.started
    case Attempt(_, _) => p.phase.Attempting?
    case Reload(_) => p.phase.Reloading? && p.phase.call.child in w.store.data
  }

  function Put(w: World, pid: nat, p: Process): World {
    w.(processes := w.processes[pid := p])
  }

  /** childCache: the cached properties and token, or nothing and no token. */
  function ChildCache(p: Process, child: Child): (Props, Option<nat>) {
    if child in p.cache then (p.cache[child].props, Some(p.cache[child].token)) else (map[], None)
  }

  /** The local copy is updated in place before it is sent. */
  function Prepare(p: Process, call: Call, retries: nat): Process {
    var (props, token) := ChildCache(p, call.child);
    var props' := Apply(call.op, props);
    Process(if call.child in p.cache then p.cache[call.child := Version(props', token.value)] else p.cache,
            Attempting(call, props', token, retries))
  }

  function Step(w: World, e: Event): World
    requires Enabled(w, e)
  {
    var p := w.processes[e.pid];
    match e
    case Load(_, child) =>
      Put(w, e.pid, p.(cache := p.cache[child := w.store.data[child]]))
    case Begin(_, call) =>
      Put(w, e.pid, Prepare(p, call, RETRIES)).(started := w.started + {call.id})
    case Attempt(_, accepted) =>
      var Attempting(call, props, token, retries) := p.phase;
      if accepted && !Mismatch(w.store, call.child, token) then
        Put(w, e.pid, p.(phase := Reloading(call, true, retries)))
          .(store := Write(w.store, call.child, props), log := w.log + [call])
      else
        Put(w, e.pid, p.(phase := Reloading(call, false, retries)))
    case Reload(_) =>
      var Reloading(call, committed, retries) := p.phase;
      var p' := p.(cache := p.cache[call.child := w.store.data[call.child]]);
      if committed then
        Put(w, e.pid, p'.(phase := Idle)).(outcomes := w.outcomes[call.id := Succeeded])
      else if retries <= 1 then
        Put(w, e.pid, Process(map[], Idle)).(outcomes := w.outcomes[call.id := Raised])
      else
        Put(w, e.pid, Prepare(p', call, retries - 1))
  }

  /** Initially nothing is cached or running. */
  predicate Initial(w: World) {
    && (forall pid :: pid in w.processes ==> w.processes[pid] == Process(map[], Idle))
    && (forall c :: c in w.store.data ==> w.store.data[c].token < w.store.nextToken)
    && w.log == [] && w.outcomes == map[] && w.started == {}
  }

  /** A run in which setProperty is only called for children the caller has loaded. */
  ghost predicate IsRun(events: seq<Event>, worlds: seq<World>) {
    && |worlds| == |events| + 1 && Initial(worlds[0])
    && forall i :: 0 <= i < |events| ==>
         && Enabled(worlds[i], events[i]) && worlds[i + 1] == Step(worlds[i], events[i])
         && (events[i].Begin? ==> events[i].call.child in worlds[i].processes[events[i].pid].cache)
  }

  // ----- The invariant -----

  /** The stored properties after the committed calls for a child, in commit order. */
  function Replay(m: Props, log: seq<Call>, child: Child): Props {
    if log == [] then m
    else
      var before := Replay(m, log[..|log| - 1], child);
      if log[|log| - 1].child == child then Apply(log[|log| - 1].op, before) else before
  }

  /** The call at `j` is the last committed one on that name of the child. */
  ghost predicate LastOn(log: seq<Call>, child: Child, name: Name, j: int) {
    && 0 <= j < |log| && log[j].child == child && log[j].op.name == name
    && forall i :: j < i < |log| ==> !(log[i].child == child && log[i].op.name == name)
  }

  /** The child is to have `v` under that name: the last committed call on it set it so, or none
      was committed on it and it had been so initially. */
  ghost predicate ToHold(m: Props, log: seq<Call>, child: Child, name: Name, v: int) {
    || (exists j :: LastOn(log, child, name, j) && log[j].op == SetProp(name, v))
    || ((forall j :: !LastOn(log, child, name, j)) && name in m && m[name] == v)
  }

  lemma {:induction false} ReplayHolds(m: Props, log: seq<Call>, child: Child, name: Name, v: int)
    ensures name in Replay(m, log, child) && Replay(m, log, child)[name] == v <==> ToHold(m, log, child, name, v)
  {
    if log != [] {
      var n := |log| - 1;
      ReplayHolds(m, log[..n], child, name, v);
      if log[n].child == child && log[n].op.name == name {
        assert LastOn(log, child, name, n);
        assert forall j :: LastOn(log, child, name, j) ==> j == n;
      } else {
        assert forall j :: LastOn(log, child, name, j) <==> LastOn(log[..n], child, name, j);
      }
    }
  }

  ghost predicate StoreReplays(w0: World, w: World) {
    && w.store.data.Keys == w0.store.data.Keys
    && (forall c :: c in w.store.data ==>
          w.store.data[c].token < w.store.nextToken &&
          w.store.data[c].props == Replay(w0.store.data[c].props, w.log, c))
  }

  /** A local copy with the stored token is the stored value; in a call, with the call applied. */
  ghost predicate Copies(s: Store, p: Process) {
    && (forall c :: c in p.cache ==>
          c in s.data && p.cache[c].token < s.nextToken &&
          (p.cache[c].token == s.data[c].token && !(p.phase != Idle && p.phase.call.child == c) ==>
           p.cache[c] == s.data[c]))
    && (p.phase.Attempting? ==>
          var Attempting(call, props, token, _) := p.phase;
          call.child in s.data && token.Some? && token.value < s.nextToken &&
          (token.value == s.data[call.child].token ==> props == Apply(call.op, s.data[call.child].props)))
    && (p.phase.Reloading? ==> p.phase.call.child in s.data)
  }

  ghost predicate AllCopies(w: World) {
    forall pid :: pid in w.processes ==> Copies(w.store, w.processes[pid])
  }

  /** How often a call has committed. */
  function Commits(log: seq<Call>, id: nat): nat {
    if log == [] then 0 else Commits(log[..|log| - 1], id) + if log[|log| - 1].id == id then 1 else 0
  }

  predicate Running(w: World, pid: nat, id: nat) {
    pid in w.processes && w.processes[pid].phase != Idle && w.processes[pid].phase.call.id == id
  }

  /** Each call has one owner and has committed once if it succeeded or is about to, and not at
      all if it raised or is still trying. */
  ghost predicate CallsCount(w: World) {
    && (forall pid, id :: Running(w, pid, id) ==>
          id in w.started && id !in w.outcomes &&
          Commits(w.log, id) ==
            (if w.processes[pid].phase.Reloading? && w.processes[pid].phase.committed then 1 else 0))
    && (forall p, q, id :: Running(w, p, id) && Running(w, q, id) ==> p == q)
    && (forall id :: id in w.outcomes ==>
        id in w.started && Commits(w.log, id) == if w.outcomes[id].Succeeded? then 1 else 0)
    && (forall id :: id !in w.started ==> Commits(w.log, id) == 0)
  }

  lemma LogAppend(m: Props, log: seq<Call>, call: Call, child: Child, id: nat)
    ensures Replay(m, log + [call], child) ==
              if call.child == child then Apply(call.op, Replay(m, log, child)) else Replay(m, log, child)
    ensures Commits(log + [call], id) == Commits(log, id) + if call.id == id then 1 else 0
  {
    assert (log + [call])[..|log|] == log;
  }

  /** The processes other than the one that moved still hold good copies. */
  lemma WriteKeepsCopies(s: Store, p: Process, child: Child, props: Props)
    requires Copies(s, p) && child in s.data
    ensures Copies(Write(s, child, props), p)
  {
  }

  lemma PrepareIsGood(s: Store, p: Process, call: Call, retries: nat)
    requires Copies(s, p.(phase := Idle)) && call.child in p.cache
    ensures Copies(s, Prepare(p, call, retries))
  {
  }

  lemma ReloadIsGood(s: Store, p: Process)
    requires Copies(s, p) && p.phase.Reloading?
    requires forall c :: c in s.data ==> s.data[c].token < s.nextToken
    ensures Copies(s, Process(p.cache[p.phase.call.child := s.data[p.phase.call.child]], Idle))
  {
  }

  lemma StepKeepsCopies(w: World, e: Event)
    requires Enabled(w, e) && AllCopies(w)
    requires forall c :: c in w.store.data ==> w.store.data[c].token < w.store.nextToken
    requires e.Begin? ==> e.call.child in w.processes[e.pid].cache
    ensures AllCopies(Step(w, e))
  {
    var p, w' := w.processes[e.pid], Step(w, e);
    assert Copies(w.store, p);
    forall pid | pid in w'.processes
      ensures Copies(w'.store, w'.processes[pid])
    {
      assert Copies(w.store, w.processes[pid]);
      match e
      case Load(_, child) =>
      case Begin(_, call) =>
        if pid == e.pid { PrepareIsGood(w.store, p, call, RETRIES); }
      case Attempt(_, accepted) =>
        if accepted && !Mismatch(w.store, p.phase.call.child, p.phase.token) {
          WriteKeepsCopies(w.store, w.processes[pid], p.phase.call.child, p.phase.props);
        }
      case Reload(_) =>
        if pid == e.pid {
          ReloadIsGood(w.store, p);
          if !p.phase.committed && p.phase.retries > 1 {
            PrepareIsGood(w.store, p.(cache := p.cache[p.phase.call.child := w.store.data[p.phase.call.child]]),
                          p.phase.call, p.phase.retries - 1);
          }
        }
    }
  }

  /** A commit applies exactly its call to the value that was stored. */
  lemma CommitReplays(w0: World, w: World, call: Call, props: Props)
    requires StoreReplays(w0, w) && call.child in w.store.data
    requires props == Apply(call.op, w.store.data[call.child].props)
    ensures StoreReplays(w0, w.(store := Write(w.store, call.child, props), log := w.log + [call]))
  {
    hide Replay, Apply;
    forall c | c in w.store.data
      ensures Replay(w0.store.data[c].props, w.log + [call], c) ==
                if c == call.child then props else w.store.data[c].props
    {
      LogAppend(w0.store.data[c].props, w.log, call, c, 0);
    }
  }

  lemma ReplaysStay(w0: World, w: World, w': World)
    requires StoreReplays(w0, w) && w'.store == w.store && w'.log == w.log
    ensures StoreReplays(w0, w')
  {
  }

  lemma AttemptHasCopy(s: Store, p: Process)
    requires Copies(s, p) && p.phase.Attempting? && !Mismatch(s, p.phase.call.child, p.phase.token)
    ensures var call := p.phase.call; call.child in s.data && p.phase.props == Apply(call.op, s.data[call.child].props)
  {
  }

  lemma StepReplays(w0: World, w: World, e: Event)
    requires Enabled(w, e) && AllCopies(w) && StoreReplays(w0, w)
    ensures StoreReplays(w0, Step(w, e))
  {
    hide StoreReplays, Copies, Mismatch, Apply, Prepare;
    var p := w.processes[e.pid];
    if e.Attempt? && e.accepted && !Mismatch(w.store, p.phase.call.child, p.phase.token) {
      var call, props := p.phase.call, p.phase.props;
      AttemptHasCopy(w.store, p);
      CommitReplays(w0, w, call, props);
      ReplaysStay(w0, w.(store := Write(w.store, call.child, props), log := w.log + [call]), Step(w, e));
    } else {
      ReplaysStay(w0, w, Step(w, e));
    }
  }

  lemma CommitsGrow(log: seq<Call>, call: Call)
    ensures forall id :: Commits(log + [call], id) == Commits(log, id) + if call.id == id then 1 else 0
  {
    forall id { LogAppend(map[], log, call, 0, id); }
  }

  lemma StepCounts(w: World, e: Event)
    requires Enabled(w, e) && CallsCount(w)
    ensures CallsCount(Step(w, e))
  {
    hide Replay, Prepare;
    var p, w' := w.processes[e.pid], Step(w, e);
    match e
    case Load(_, _) =>
      SameCounts(w, w');
    case Begin(_, call) =>
      PreparePhase(p, call, RETRIES);
      BeginCounts(w, w', e.pid, call);
    case Attempt(_, accepted) =>
      AttemptCounts(w, e.pid, accepted);
    case Reload(_) =>
      ReloadCounts(w, e.pid);
  }

  lemma PreparePhase(p: Process, call: Call, retries: nat)
    ensures Prepare(p, call, retries).phase.Attempting? && Prepare(p, call, retries).phase.call == call
    ensures Prepare(p, call, retries).phase.retries == retries
  {
  }

  lemma SameCounts(w: World, w': World)
    requires CallsCount(w) && w'.log == w.log && w'.outcomes == w.outcomes && w'.started == w.started
    requires w'.processes.Keys == w.processes.Keys
    requires forall pid :: pid in w.processes ==> w'.processes[pid].phase == w.processes[pid].phase
    ensures CallsCount(w')
  {
    assert forall pid, id :: Running(w', pid, id) <==> Running(w, pid, id);
  }

  lemma BeginCounts(w: World, w': World, pid: nat, call: Call)
    requires CallsCount(w) && pid in w.processes && w.processes[pid].phase.Idle? && call.id !in w.started
    requires w'.log == w.log && w'.outcomes == w.outcomes && w'.started == w.started + {call.id}
    requires pid in w'.processes && w'.processes == w.processes[pid := w'.processes[pid]]
    requires w'.processes[pid].phase.Attempting? && w'.processes[pid].phase.call == call
    ensures CallsCount(w')
  {
    forall q, id | Running(w', q, id) ensures (q != pid && Running(w, q, id)) || (q == pid && id == call.id) {}
  }

  lemma AttemptCounts(w: World, pid: nat, accepted: bool)
    requires Enabled(w, Attempt(pid, accepted)) && CallsCount(w)
    ensures CallsCount(Step(w, Attempt(pid, accepted)))
  {
    var w', call := Step(w, Attempt(pid, accepted)), w.processes[pid].phase.call;
    CommitsGrow(w.log, call);
    assert Running(w, pid, call.id);
    forall q, id | Running(w', q, id) ensures Running(w, q, id) {}
  }

  lemma ReloadCounts(w: World, pid: nat)
    requires Enabled(w, Reload(pid)) && CallsCount(w)
    ensures CallsCount(Step(w, Reload(pid)))
  {
    var w', phase := Step(w, Reload(pid)), w.processes[pid].phase;
    assert Running(w, pid, phase.call.id);
    PreparePhase(w.processes[pid].(cache := w.processes[pid].cache[phase.call.child := w.store.data[phase.call.child]]),
                 phase.call, if phase.retries == 0 then 0 else phase.retries - 1);
    forall q, id | Running(w', q, id) ensures Running(w, q, id) && (q == pid ==> id == phase.call.id) {}
  }

  // ----- Attempts -----

  /** The `i`th event of a run is an attempt of the call. */
  ghost predicate IsAttempt(events: seq<Event>, worlds: seq<World>, i: nat, id: nat)
    requires i < |events| && i < |worlds|
  {
    events[i].Attempt? && Running(worlds[i], events[i].pid, id)
  }

  ghost function Attempts(events: seq<Event>, worlds: seq<World>, n: nat, id: nat): nat
    requires n <= |events| && n <= |worlds|
  {
    if n == 0 then 0
    else Attempts(events, worlds, n - 1, id) + if IsAttempt(events, worlds, n - 1, id) then 1 else 0
  }

  /** The attempts of each call: as many as it has used up while it runs, all ten if it raised, and
      from one to ten if it succeeded. */
  ghost predicate AttemptsOk(w: World, attempts: nat -> nat) {
    && (forall pid, id :: Running(w, pid, id) ==>
          match w.processes[pid].phase
          case Attempting(_, _, _, retries) => attempts(id) + retries == RETRIES && retries >= 1
          case Reloading(_, _, retries) => attempts(id) + retries == RETRIES + 1 && 1 <= retries <= RETRIES)
    && (forall id :: id in w.outcomes ==>
          if w.outcomes[id].Raised? then attempts(id) == 10 else 1 <= attempts(id) <= 10)
    && (forall id :: id !in w.started ==> attempts(id) == 0)
  }

  ghost function Counted(events: seq<Event>, worlds: seq<World>, n: nat): nat -> nat
    requires n <= |events| && n <= |worlds|
  {
    (id: nat) => Attempts(events, worlds, n, id)
  }

  lemma StepKeepsAttempts(w: World, e: Event, before: nat -> nat, after: nat -> nat)
    requires Enabled(w, e) && CallsCount(w) && AttemptsOk(w, before)
    requires forall id :: after(id) == before(id) + if e.Attempt? && Running(w, e.pid, id) then 1 else 0
    ensures AttemptsOk(Step(w, e), after)
  {
    hide CallsCount, AttemptsOk, Prepare;
    RunsOnce(w);
    match e
    case Load(_, _) => IdleKeepsAttempts(w, e, before, after);
    case Begin(_, _) => BeginKeepsAttempts(w, e, before, after);
    case Attempt(_, _) => AttemptKeepsAttempts(w, e, before, after);
    case Reload(_) => ReloadKeepsAttempts(w, e, before, after);
  }

  /** A call runs in one process only, has been started and has not ended. */
  ghost predicate RunOnce(w: World) {
    && (forall p, q, id :: Running(w, p, id) && Running(w, q, id) ==> p == q)
    && (forall pid, id :: Running(w, pid, id) ==> id in w.started && id !in w.outcomes)
    && (forall id :: id in w.outcomes ==> id in w.started)
  }

  lemma IdleKeepsAttempts(w: World, e: Event, before: nat -> nat, after: nat -> nat)
    requires Enabled(w, e) && e.Load? && AttemptsOk(w, before) && forall id :: after(id) == before(id)
    ensures AttemptsOk(Step(w, e), after)
  {
    assert forall pid, id :: Running(Step(w, e), pid, id) <==> Running(w, pid, id);
  }

  lemma BeginKeepsAttempts(w: World, e: Event, before: nat -> nat, after: nat -> nat)
    requires Enabled(w, e) && e.Begin? && RunOnce(w) && AttemptsOk(w, before) && forall id :: after(id) == before(id)
    ensures AttemptsOk(Step(w, e), after)
  {
    PreparePhase(w.processes[e.pid], e.call, RETRIES);
    hide Prepare;
    assert forall pid, id :: Running(Step(w, e), pid, id) <==>
      (pid != e.pid && Running(w, pid, id)) || (pid == e.pid && id == e.call.id);
  }

  lemma AttemptKeepsAttempts(w: World, e: Event, before: nat -> nat, after: nat -> nat)
    requires Enabled(w, e) && e.Attempt? && RunOnce(w) && AttemptsOk(w, before)
    requires forall id :: after(id) == before(id) + if Running(w, e.pid, id) then 1 else 0
    ensures AttemptsOk(Step(w, e), after)
  {
    assert forall pid, id :: Running(Step(w, e), pid, id) <==> Running(w, pid, id);
  }

  lemma ReloadKeepsAttempts(w: World, e: Event, before: nat -> nat, after: nat -> nat)
    requires Enabled(w, e) && e.Reload? && RunOnce(w) && AttemptsOk(w, before) && forall id :: after(id) == before(id)
    ensures AttemptsOk(Step(w, e), after)
  {
    var p := w.processes[e.pid];
    var p' := p.(cache := p.cache[p.phase.call.child := w.store.data[p.phase.call.child]]);
    PreparePhase(p', p.phase.call, if p.phase.retries == 0 then 0 else p.phase.retries - 1);
    hide Prepare;
    assert Running(w, e.pid, p.phase.call.id);
    assert forall pid, id :: Running(Step(w, e), pid, id) ==> Running(w, pid, id);
  }

  lemma RunsOnce(w: World)
    requires CallsCount(w)
    ensures RunOnce(w)
  {
  }

  // ----- Whole runs -----

  /** No update is lost: in every run over loaded children, the stored properties of every child
      are the initial ones with the committed calls applied in commit order. */
  lemma {:induction false} NoLostUpdates(events: seq<Event>, worlds: seq<World>, n: nat)
    requires IsRun(events, worlds) && n < |worlds|
    ensures StoreReplays(worlds[0], worlds[n]) && AllCopies(worlds[n]) && CallsCount(worlds[n])
  {
    if n == 0 {
      InitialIsGood(worlds[0]);
    } else {
      NoLostUpdates(events, worlds, n - 1);
      assert Enabled(worlds[n - 1], events[n - 1]) && worlds[n] == Step(worlds[n - 1], events[n - 1]);
      hide StoreReplays, AllCopies, CallsCount, Step, Enabled, IsRun;
      TokensOk(worlds[0], worlds[n - 1]);
      StepReplays(worlds[0], worlds[n - 1], events[n - 1]);
      StepKeepsCopies(worlds[n - 1], events[n - 1]);
      StepCounts(worlds[n - 1], events[n - 1]);
    }
  }

  /** In every run a child has a property if and only if the last committed call on its name set it
      to that value, or there was none and it had it from the start. In particular a property whose
      last call deleted it is gone. */
  lemma StoredExactly(events: seq<Event>, worlds: seq<World>, n: nat, child: Child, name: Name, v: int)
    requires IsRun(events, worlds) && n < |worlds| && child in worlds[0].store.data
    ensures child in worlds[n].store.data
    ensures var initially, props := worlds[0].store.data[child].props, worlds[n].store.data[child].props;
            name in props && props[name] == v <==> ToHold(initially, worlds[n].log, child, name, v)
  {
    NoLostUpdates(events, worlds, n);
    ReplayHolds(worlds[0].store.data[child].props, worlds[n].log, child, name, v);
  }

  lemma TokensOk(w0: World, w: World)
    requires StoreReplays(w0, w)
    ensures forall c :: c in w.store.data ==> w.store.data[c].token < w.store.nextToken
  {
  }

  lemma InitialIsGood(w: World)
    requires Initial(w)
    ensures StoreReplays(w, w) && AllCopies(w) && CallsCount(w)
  {
  }

  lemma NoAttempts(events: seq<Event>, worlds: seq<World>)
    requires worlds != [] && Initial(worlds[0])
    ensures AttemptsOk(worlds[0], Counted(events, worlds, 0))
  {
  }

  lemma OneMoreAttempt(events: seq<Event>, worlds: seq<World>, n: nat)
    requires n < |events| && n < |worlds|
    ensures forall id :: Counted(events, worlds, n + 1)(id) ==
              Counted(events, worlds, n)(id) +
              if events[n].Attempt? && Running(worlds[n], events[n].pid, id) then 1 else 0
  {
  }

  /** An attempt that the store does not refuse for another reason commits if and only if the stored
      version is the one that was read, or the child was not loaded, or is not stored. */
  lemma CommitsExactly(w: World, pid: nat, accepted: bool)
    requires Enabled(w, Attempt(pid, accepted))
    ensures var Attempting(call, props, token, _) := w.processes[pid].phase;
            var stored, w' := w.store.data, Step(w, Attempt(pid, accepted));
            if accepted && (token.None? || call.child !in stored || stored[call.child].token == token.value)
            then w'.log == w.log + [call] && w'.store.data.Keys == stored.Keys + {call.child}
                 && w'.store.data[call.child].props == props && w'.store.data - {call.child} == stored - {call.child}
            else w'.log == w.log && w'.store == w.store
  {
  }

  /** In every run a call is attempted ten times before it raises, and no more often. */
  lemma {:induction false} RaisesAfterTen(events: seq<Event>, worlds: seq<World>, n: nat)
    requires IsRun(events, worlds) && n < |worlds|
    ensures AttemptsOk(worlds[n], Counted(events, worlds, n))
  {
    hide StoreReplays, AllCopies, CallsCount, Step, Enabled, AttemptsOk, Attempts, Initial, IsAttempt;
    if n == 0 {
      NoAttempts(events, worlds);
    } else {
      RaisesAfterTen(events, worlds, n - 1);
      NoLostUpdates(events, worlds, n - 1);
      OneMoreAttempt(events, worlds, n - 1);
      StepKeepsAttempts(worlds[n - 1], events[n - 1], Counted(events, worlds, n - 1), Counted(events, worlds, n));
    }
  }

  /** Each call that has ended either committed exactly once, or raised without a commit. */
  lemma CommitsOnceOrRaises(events: seq<Event>, worlds: seq<World>, n: nat, id: nat)
    requires IsRun(events, worlds) && n < |worlds| && id in worlds[n].outcomes
    ensures Commits(worlds[n].log, id) == if worlds[n].outcomes[id].Succeeded? then 1 else 0
  {
    NoLostUpdates(events, worlds, n);
  }

  /** Without a token a call overwrites what it never read: a child that was not loaded loses
      its other properties. */
  lemma LostUpdateWithoutToken()
    ensures var w := World(Store(map[1 := Version(map[7 := 70], 0)], 1), map[0 := Process(map[], Idle)], [], map[], {});
            var begin, attempt := Begin(0, Call(5, 1, SetProp(8, 80))), Attempt(0, true);
            && Initial(w) && Enabled(w, begin) && Enabled(Step(w, begin), attempt)
            && 7 !in Step(Step(w, begin), attempt).store.data[1].props
  {
  }

  /** Exactly what a call on a child without a token does when it gets to write: the stored
      properties survive if and only if the call would have made the same of no properties. */
  lemma WriteWithoutToken(w: World, pid: nat, call: Call)
    requires Enabled(w, Begin(pid, call)) && call.child !in w.processes[pid].cache && call.child in w.store.data
    ensures var b := Step(w, Begin(pid, call));
            && Enabled(b, Attempt(pid, true))
            && var stored := Step(b, Attempt(pid, true)).store.data[call.child].props;
               stored == (if call.op.SetProp? then map[call.op.name := call.op.property] else map[]) &&
               (stored == Apply(call.op, w.store.data[call.child].props) <==>
                  forall name :: name in w.store.data[call.child].props ==>
                    (call.op.SetProp? && name == call.op.name) || (call.op.DeleteProp? && name == call.op.name))
  {
    var props, op := w.store.data[call.child].props, call.op;
    if Apply(op, map[]) == Apply(op, props) {
      forall name | name in props ensures name == op.name {
        assert name != op.name ==> name in Apply(op, props);
      }
    } else {
      assert Apply(op, map[]).Keys <= Apply(op, props).Keys;
    }
  }

  // ----- setProperty as the source writes it -----

  datatype SetResult = Stored | Refused | TokenMismatch

  /** What any writes do to a store: new values have new tokens. */
  ghost predicate Newer(data: map<Child, Version>, next: nat, data': map<Child, Version>, next': nat) {
    && next <= next'
    && (forall c :: c in data ==> c in data')
    && (forall c :: c in data && data'[c].token < next ==> data'[c] == data[c])
  }

  /** Cached versions, except perhaps one, that are the stored ones if their tokens are. */
  ghost predicate CleanCopies(cache: map<Child, Version>, except: Option<Child>, data: map<Child, Version>, next: nat) {
    forall c :: c in cache && except != Some(c) ==>
      c in data && cache[c].token < next && (cache[c].token == data[c].token ==> cache[c] == data[c])
  }

  lemma NewerKeepsClean(cache: map<Child, Version>, except: Option<Child>, data: map<Child, Version>, next: nat,
                        data': map<Child, Version>, next': nat)
    requires CleanCopies(cache, except, data, next) && Newer(data, next, data', next')
    ensures CleanCopies(cache, except, data', next')
  {
  }

  lemma StillHonest(data: map<Child, Version>, next: nat, data': map<Child, Version>, next': nat, child: Child,
                    token: nat)
    requires Newer(data, next, data', next') && child in data && token < next
    ensures child in data' && token < next' && (token == data'[child].token ==> data'[child] == data[child])
  {
  }

  lemma StillLogged(log: seq<Call>, log': seq<Call>, call: Call)
    requires log <= log'
    ensures log != [] && log[|log| - 1] == call ==> call in log'
  {
    if log != [] {
      assert log'[|log| - 1] == log[|log| - 1];
    }
  }

  /** The fake client: its `log` records the commits, and its values replay them. */
  class Client {
    var data: map<Child, Version>
    var token: nat
    ghost const initial: map<Child, Props>
    ghost var log: seq<Call>

    ghost predicate Valid()
      reads this
    {
      && data.Keys == initial.Keys
      && forall c :: c in data ==> data[c].token < token && data[c].props == Replay(initial[c], log, c)
    }

    /** Every child has exactly the properties that the committed calls left it. */
    ghost predicate HoldsCommitted()
      reads this
    {
      data.Keys == initial.Keys &&
      forall c, name, v :: c in data ==>
        (name in data[c].props && data[c].props[name] == v <==> ToHold(initial[c], log, c, name, v))
    }

    lemma CommittedIsHeld()
      requires Valid()
      ensures HoldsCommitted()
    {
      forall c, name, v | c in data
        ensures name in data[c].props && data[c].props[name] == v <==> ToHold(initial[c], log, c, name, v)
      {
        ReplayHolds(initial[c], log, c, name, v);
      }
    }

    constructor (data: map<Child, Version>, token: nat)
      requires forall c :: c in data ==> data[c].token < token
      ensures Valid() && log == [] && this.data == data && this.token == token
    {
      this.data, this.token := data, token;
      initial, log := map c | c in data :: data[c].props, [];
    }

    /** set, or cas with a token: refuses a token that is not the stored one; may also refuse a
        value, for instance one that is too large. A value that applies the call to what was
        stored keeps the log faithful. */
    method Set(call: Call, props: Props, cas: Option<nat>) returns (r: SetResult)
      requires Valid()
      modifies this
      ensures r.TokenMismatch? <==> cas.Some? && call.child in old(data) && cas.value != old(data)[call.child].token
      ensures !r.Stored? ==> data == old(data) && token == old(token) && log == old(log)
      ensures r.Stored? ==> log == old(log) + [call] && token == old(token) + 1 &&
                            data == old(data)[call.child := Version(props, old(token))]
      ensures Newer(old(data), old(token), data, token)
      ensures (r.Stored? ==> call.child in old(data) && props == Apply(call.op, old(data)[call.child].props)) ==>
                Valid()
    {
      hide Replay, Apply;
      if cas.Some? && call.child in data && data[call.child].token != cas.value {
        return TokenMismatch;
      }
      var refused: bool := *;
      if refused {
        return Refused;
      }
      forall c | c in data
        ensures Replay(initial[c], log + [call], c) ==
                  if c == call.child then Apply(call.op, data[c].props) else data[c].props
      {
        LogAppend(initial[c], log, call, c, 0);
      }
      data := data[call.child := Version(props, token)];
      token, log := token + 1, log + [call];
      r := Stored;
    }

    /** Other processes commit calls of their own on any children. */
    method Interfere(id: nat)
      requires Valid()
      modifies this
      ensures Valid() && old(log) <= log && Commits(log, id) == Commits(old(log), id)
      ensures Newer(old(data), old(token), data, token)
    {
      var n: nat := *;
      while n > 0
        invariant Valid() && old(log) <= log && Commits(log, id) == Commits(old(log), id)
        invariant Newer(old(data), old(token), data, token)
      {
        var other: nat, c: nat, name: nat, property: int, set_: bool := *, *, *, *, *;
        if other != id && c in data {
          var call := Call(other, c, if set_ then SetProp(name, property) else DeleteProp(name));
          LogAppend(map[], log, call, 0, id);
          var r := Set(call, Apply(call.op, data[c].props), Some(data[c].token));
        }
        n := n - 1;
      }
    }
  }

  class PropertyCollection {
    const client: Client
    var propertyCache: Option<map<Child, Version>>

    /** A cached value with the stored token is the stored value. */
    ghost predicate Valid()
      reads this, client
    {
      client.Valid() && (propertyCache.Some? ==> CleanCopies(propertyCache.value, None, client.data, client.token))
    }

    ghost predicate OthersClean(child: Child)
      requires propertyCache.Some?
      reads this, client
    {
      CleanCopies(propertyCache.value, Some(child), client.data, client.token)
    }

    constructor (client: Client)
      requires client.Valid()
      ensures Valid() && this.client == client && propertyCache == None
    {
      this.client, propertyCache := client, None;
    }

    /** _loadCache for one child that has a stored value. */
    method LoadChild(c: Child)
      requires client.Valid() && c in client.data
      requires propertyCache.Some? ==> OthersClean(c)
      modifies this
      ensures Valid() && propertyCache.Some? && c in propertyCache.value && propertyCache.value[c] == client.data[c]
    {
      var cache := if propertyCache.Some? then propertyCache.value else map[];
      propertyCache := Some(cache[c := client.data[c]]);
    }

    /** childCache, with the local copy updated in place. */
    method PrepareCopy(call: Call) returns (childCache: Props, token: nat)
      requires Valid() && propertyCache.Some? && call.child in propertyCache.value
      modifies this
      ensures propertyCache.Some? && call.child in propertyCache.value && call.child in client.data &&
                token < client.token
      ensures OthersClean(call.child)
      ensures var was := old(propertyCache).value;
              && token == was[call.child].token && childCache == Apply(call.op, was[call.child].props)
              && propertyCache.value == was[call.child := Version(childCache, token)]
      ensures token == client.data[call.child].token ==> childCache == Apply(call.op, client.data[call.child].props)
    {
      hide Apply;
      var cached := propertyCache.value[call.child];
      childCache, token := Apply(call.op, cached.props), cached.token;
      propertyCache := Some(propertyCache.value[call.child := Version(childCache, token)]);
    }

    /** One attempt: the compare-and-set, and, whatever came of it, a reload of the child. */
    method TrySet(call: Call, childCache: Props, token: nat) returns (stored: bool)
      requires client.Valid() && propertyCache.Some? && Commits(client.log, call.id) == 0
      requires call.child in client.data && token < client.token && OthersClean(call.child)
      requires token == client.data[call.child].token ==> childCache == Apply(call.op, client.data[call.child].props)
      modifies this, client
      ensures Valid() && old(client.log) <= client.log
      ensures propertyCache.Some? && call.child in propertyCache.value
      ensures Commits(client.log, call.id) == if stored then 1 else 0
      ensures stored ==> call in client.log
    {
      hide Commits, Replay, Apply, CleanCopies, Newer;
      ghost var data0, next0, cache := client.data, client.token, propertyCache.value;
      client.Interfere(call.id);
      NewerKeepsClean(cache, Some(call.child), data0, next0, client.data, client.token);
      StillHonest(data0, next0, client.data, client.token, call.child, token);
      ghost var data1, next1 := client.data, client.token;
      CommitsGrow(client.log, call);
      var r := client.Set(call, childCache, Some(token));
      NewerKeepsClean(cache, Some(call.child), data1, next1, client.data, client.token);
      ghost var data2, next2, log2 := client.data, client.token, client.log;
      client.Interfere(call.id);
      StillLogged(log2, client.log, call);
      NewerKeepsClean(cache, Some(call.child), data2, next2, client.data, client.token);
      StillHonest(data1, next1, data2, next2, call.child, token);
      StillHonest(data2, next2, client.data, client.token, call.child, token);
      LoadChild(call.child);
      stored := r.Stored?;
    }

    /** Sets or deletes a property of a child whose token is cached, while other processes
        interfere. Either the call commits exactly once, or it raises, after ten attempts, and
        never commits. */
    method SetProperty(call: Call) returns (ok: bool, ghost attempts: nat)
      requires Valid() && propertyCache.Some? && call.child in propertyCache.value
      requires Commits(client.log, call.id) == 0
      modifies this, client
      ensures Valid() && old(client.log) <= client.log
      ensures ok ==> call in client.log && Commits(client.log, call.id) == 1 && propertyCache.Some?
      ensures !ok ==> Commits(client.log, call.id) == 0 && propertyCache == None
      ensures 0 < attempts <= RETRIES && (!ok ==> attempts == RETRIES)
      ensures client.HoldsCommitted()
    {
      hide Commits, Replay, Apply;
      var childCache: Props, token: nat := PrepareCopy(call);
      var retries: nat := RETRIES;
      attempts := 0;
      while retries > 0
        invariant attempts == RETRIES - retries
        invariant client.Valid() && propertyCache.Some? && old(client.log) <= client.log
        invariant Commits(client.log, call.id) == 0
        invariant call.child in client.data && token < client.token && OthersClean(call.child)
        invariant token == client.data[call.child].token ==> childCache == Apply(call.op, client.data[call.child].props)
      {
        ok := TrySet(call, childCache, token);
        attempts := attempts + 1;
        if ok {
          client.CommittedIsHeld();
          return;
        }
        retries := retries - 1;
        childCache, token := PrepareCopy(call);
      }
      propertyCache := None;
      ok := false;
      client.CommittedIsHeld();
    }
  }
}
