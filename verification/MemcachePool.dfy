/** The memcache connection pool of twistedcaldav/memcachepool.py: a fixed number of
    connections, a queue of commands that found no connection, and a shutdown that waits
    until the pool is idle.

    `Pool` is the pool's state as a value and `Step` the effect of one reactor event on it.
    The class `MemCachePool` has the source's fields and methods; each method is proved
    against the function of the same purpose. */
module MemcachePool {

  import opened Collections

  /** The Deferred the reactor waits for at shutdown: not created, or created and called
      back so many times (a second call raises AlreadyCalledError). */
  datatype Deferred = NotCreated | Created(calls: nat)

  /** One call of performRequest. `immediate` says that the protocol hands back a Deferred
      that has already fired (an unknown command, or a key the protocol refuses), so that
      the client is released before performRequest returns. */
  datatype Request = Request(id: nat, immediate: bool)

  type Client = nat

  /** The fields of the pool, plus what its Deferred chains remember (`connecting`,
      `inFlight`) and the history of the run (`issued`, `dispatched`, `done`). */
  datatype Pool = Pool(
    maxClients: nat,
    busy: set<Client>,
    free: set<Client>,
    pending: nat,
    commands: seq<Request>,
    shutdownRequested: bool,
    shutdownDeferred: Deferred,
    connecting: set<Request>,
    inFlight: map<Client, Request>,
    issued: seq<Request>,
    dispatched: seq<Request>,
    done: set<Request>)

  function Empty(maxClients: nat): Pool {
    Pool(maxClients, {}, {}, 0, [], false, NotCreated, {}, map[], [], [], {})
  }

  predicate Idle(s: Pool) {
    s.busy == {} && s.commands == [] && s.pending == 0
  }

  // ----- The pool's operations as functions -----

  /** performRequest; `pick` is the client that popping the free set yields. */
  function Perform(s: Pool, r: Request, pick: Client): Pool
    requires s.free != {} ==> pick in s.free
    decreases |s.commands|, 2
  {
    if s.free != {} then
      OnClient(s.(free := s.free - {pick}, dispatched := s.dispatched + [r]), pick, r)
    else if |s.busy| + s.pending >= s.maxClients then
      s.(commands := s.commands + [r])
    else
      s.(pending := s.pending + 1, connecting := s.connecting + {r}, dispatched := s.dispatched + [r])
  }

  /** _performRequestOnClient. */
  function OnClient(s: Pool, c: Client, r: Request): Pool
    decreases |s.commands|, 1
  {
    var b := Begin(s, c, r);
    if r.immediate then FreeClient(b, c) else b
  }

  /** clientBusy, with the request sent on the client. */
  function Begin(s: Pool, c: Client, r: Request): Pool {
    s.(free := s.free - {c}, busy := s.busy + {c}, inFlight := s.inFlight[c := r])
  }

  /** clientFree, called when the request on client `c` has been answered. */
  function FreeClient(s: Pool, c: Client): Pool
    requires c in s.inFlight
    decreases |s.commands|, 0
  {
    var f := Fire(Release(s, c));
    if f.commands == [] then f
    else Perform(f.(commands := f.commands[1..]), f.commands[0], c)
  }

  function Release(s: Pool, c: Client): Pool
    requires c in s.inFlight
  {
    s.(busy := s.busy - {c}, free := s.free + {c}, done := s.done + {s.inFlight[c]}, inFlight := s.inFlight - {c})
  }

  /** The connection opened for `r` is no longer pending. */
  function Established(s: Pool, r: Request): Pool {
    s.(pending := if s.pending == 0 then 0 else s.pending - 1, connecting := s.connecting - {r})
  }

  function Fire(s: Pool): Pool {
    if s.shutdownDeferred.Created? && Idle(s)
    then s.(shutdownDeferred := Created(s.shutdownDeferred.calls + 1))
    else s
  }

  // ----- Runs -----

  /** What the reactor can do to a pool: a caller issues a request, a connection comes up,
      an answer (or a memcache error) arrives, or the reactor starts to shut down. */
  datatype Event =
    | Issue(request: Request, pick: Client)
    | Connected(request: Request, client: Client)
    | Answered(client: Client)
    | Shutdown

  predicate Enabled(s: Pool, e: Event) {
    match e
    case Issue(r, pick) => r !in s.issued && (s.free != {} ==> pick in s.free)
    case Connected(r, c) => r in s.connecting && c !in s.busy && c !in s.free
    case Answered(c) => c in s.inFlight
    case Shutdown => !s.shutdownRequested
  }

  function Step(s: Pool, e: Event): Pool
    requires Enabled(s, e)
  {
    match e
    case Issue(r, pick) => Perform(s.(issued := s.issued + [r]), r, pick)
    case Connected(r, c) => OnClient(Established(s, r), c, r)
    case Answered(c) => FreeClient(s, c)
    case Shutdown =>
      s.(shutdownRequested := true, shutdownDeferred := if Idle(s) then NotCreated else Created(0))
  }

  /** `states` is a run of a new pool under `events`: the reactor may do anything enabled. */
  ghost predicate IsRun(maxClients: nat, events: seq<Event>, states: seq<Pool>) {
    && |states| == |events| + 1
    && states[0] == Empty(maxClients)
    && forall i :: 0 <= i < |events| ==> Enabled(states[i], events[i]) && states[i + 1] == Step(states[i], events[i])
  }

  // ----- The invariant -----

  /** Capacity: busy and free are disjoint and, with the pending connects, within the
      maximum; a request waits only while every slot is taken by running work. `spare` is
      the number of slots an operation in progress holds in its hands. */
  ghost predicate Capacity(s: Pool, spare: nat) {
    && s.busy !! s.free
    && |s.busy| + |s.free| + s.pending + spare <= s.maxClients
    && (s.commands != [] ==> s.free == {} && |s.busy| + s.pending + spare == s.maxClients)
    && s.inFlight.Keys == s.busy
    && |s.connecting| == s.pending
  }

  /** Conservation: the requests that have left the queue, in the order they left it, are
      the first ones issued, and each is in exactly one place: connecting, in flight, done,
      or in the hands of an operation in progress (`held`). */
  ghost predicate Conserved(s: Pool, held: set<Request>) {
    && NoDuplicates(s.issued)
    && s.issued == s.dispatched + s.commands
    && Members(s.dispatched) == s.connecting + s.inFlight.Values + s.done + held
    && Apart(s.connecting, s.inFlight.Values, s.done, held)
    && Injective(s.inFlight)
  }

  ghost function Members<T>(s: seq<T>): set<T> {
    set x | x in s
  }

  ghost predicate Apart<T>(a: set<T>, b: set<T>, c: set<T>, d: set<T>) {
    a !! b && a !! c && a !! d && b !! c && b !! d && c !! d
  }

  ghost predicate Injective<K, V>(m: map<K, V>) {
    forall j, k :: j in m && k in m && m[j] == m[k] ==> j == k
  }

  ghost predicate ShutdownPending(s: Pool) {
    && (s.shutdownDeferred.Created? ==> s.shutdownRequested)
    && (s.shutdownDeferred == Created(0) ==> !Idle(s))
  }

  ghost predicate Inv(s: Pool) {
    Capacity(s, 0) && Conserved(s, {}) && ShutdownPending(s)
  }

  lemma BeginKeepsCapacity(s: Pool, c: Client, r: Request)
    requires Capacity(s, 1) && c !in s.busy && c !in s.free
    ensures Capacity(Begin(s, c, r), 0)
  {
    assert Begin(s, c, r).free == s.free;
  }

  lemma BeginKeepsConserved(s: Pool, c: Client, r: Request)
    requires Conserved(s, {r}) && c !in s.inFlight
    ensures Conserved(Begin(s, c, r), {})
  {
    AssignValues(s.inFlight, c, r);
  }

  lemma ReleaseKeepsConserved(s: Pool, c: Client)
    requires Conserved(s, {}) && c in s.inFlight
    ensures Conserved(Release(s, c), {}) && Conserved(Fire(Release(s, c)), {})
  {
    RemoveValues(s.inFlight, c);
  }

  lemma ReleaseKeepsCapacity(s: Pool, c: Client)
    requires Capacity(s, 0) && c in s.inFlight
    ensures s.commands == [] ==> Capacity(Release(s, c), 0)
    ensures s.commands != [] ==> Release(s, c).free == {c} && c !in Release(s, c).busy
    ensures s.commands != [] ==> Capacity(Release(s, c).(free := {}), 1)
  {
    var f := Release(s, c);
    assert |f.busy| == |s.busy| - 1 && |f.free| == |s.free| + 1;
  }

  /** Taking the oldest command off the queue. */
  lemma DequeueKeeps(f: Pool)
    requires Conserved(f, {}) && f.commands != []
    ensures Conserved(Dequeue(f), {f.commands[0]})
  {
    var g := Dequeue(f);
    var next := f.commands[0];
    assert g.dispatched + g.commands == f.issued;
    assert f.issued[|f.dispatched|] == next;
    assert forall i :: 0 <= i < |f.dispatched| ==> f.dispatched[i] == f.issued[i];
    assert next !in f.dispatched;
    assert Members(g.dispatched) == Members(f.dispatched) + {next};
    assert next !in Members(f.dispatched);
  }

  /** What serving a request from `s` may lead to: the invariant holds again, nothing was
      issued, and what had left the queue stays in the order in which it left it. */
  ghost predicate Settles(s: Pool, t: Pool) {
    Inv(t) && t.issued == s.issued && s.dispatched <= t.dispatched
  }

  lemma FreeClientUnfolds(s: Pool, c: Client)
    requires c in s.inFlight && (s.commands != [] ==> s.free == {})
    ensures var f := Fire(Release(s, c));
            FreeClient(s, c) == if f.commands == [] then f else OnClient(Dequeue(f), c, f.commands[0])
  {
    var f := Fire(Release(s, c));
    if f.commands != [] {
      assert f.free == {c} && f.free - {c} == {};
    }
  }

  /** The state in which the only free client has been taken for the oldest command. */
  function Dequeue(f: Pool): Pool
    requires f.commands != []
  {
    f.(commands := f.commands[1..], free := {}, dispatched := f.dispatched + [f.commands[0]])
  }

  /** A client that starts on a request leaves the pool in order, however many queued
      commands it goes on to serve before the reactor gets control back. */
  lemma {:induction false} OnClientKeepsInv(s: Pool, c: Client, r: Request)
    requires Capacity(s, 1) && Conserved(s, {r})
    requires s.shutdownDeferred.Created? ==> s.shutdownRequested
    requires c !in s.busy && c !in s.free && c !in s.inFlight
    ensures Settles(s, OnClient(s, c, r))
    decreases |s.commands|, 1
  {
    hide Conserved, Capacity, FreeClient;
    BeginKeepsCapacity(s, c, r);
    BeginKeepsConserved(s, c, r);
    if r.immediate { FreeClientKeepsInv(Begin(s, c, r), c); }
  }

  lemma {:induction false} FreeClientKeepsInv(s: Pool, c: Client)
    requires Capacity(s, 0) && Conserved(s, {}) && c in s.inFlight
    requires s.shutdownDeferred.Created? ==> s.shutdownRequested
    ensures Settles(s, FreeClient(s, c))
    decreases |s.commands|, 0
  {
    FreeClientUnfolds(s, c);
    hide Conserved, Capacity, OnClient, FreeClient, Settles, Fire, Idle;
    if s.commands == [] {
      FreeWithoutQueue(s, c);
    } else {
      var g := Dequeue(Fire(Release(s, c)));
      FreeWithQueue(s, c);
      OnClientKeepsInv(g, c, s.commands[0]);
      SettlesAfterDequeue(s, g, OnClient(g, c, s.commands[0]));
    }
  }

  lemma FreeWithoutQueue(s: Pool, c: Client)
    requires Capacity(s, 0) && Conserved(s, {}) && c in s.inFlight && s.commands == []
    requires s.shutdownDeferred.Created? ==> s.shutdownRequested
    ensures Settles(s, Fire(Release(s, c))) && Fire(Release(s, c)).commands == []
  {
    hide Conserved;
    ReleaseKeepsCapacity(s, c);
    ReleaseKeepsConserved(s, c);
    FireSettles(Release(s, c));
  }

  lemma FreeWithQueue(s: Pool, c: Client)
    requires Capacity(s, 0) && Conserved(s, {}) && c in s.inFlight && s.commands != []
    ensures var f := Fire(Release(s, c)); f.commands == s.commands && f.issued == s.issued
    ensures var g := Dequeue(Fire(Release(s, c)));
            && Capacity(g, 1) && Conserved(g, {s.commands[0]}) && c !in g.busy && c !in g.free && c !in g.inFlight
            && s.dispatched <= g.dispatched && (g.shutdownDeferred.Created? <==> s.shutdownDeferred.Created?)
            && g.shutdownRequested == s.shutdownRequested
  {
    hide Conserved;
    ReleaseKeepsCapacity(s, c);
    ReleaseKeepsConserved(s, c);
    DequeueKeeps(Fire(Release(s, c)));
  }

  lemma FireSettles(s: Pool)
    requires s.shutdownDeferred.Created? ==> s.shutdownRequested
    ensures ShutdownPending(Fire(s))
  {
  }

  lemma SettlesAfterDequeue(s: Pool, g: Pool, t: Pool)
    requires g.issued == s.issued && s.dispatched <= g.dispatched && Settles(g, t)
    ensures Settles(s, t)
  {
  }

  lemma AssignValues<K, V>(m: map<K, V>, k: K, v: V)
    requires k !in m
    ensures m[k := v].Values == m.Values + {v}
  {
    assert forall j :: j in m ==> j in m[k := v] && m[k := v][j] == m[j];
    assert m[k := v][k] == v;
  }

  lemma RemoveValues<K, V>(m: map<K, V>, k: K)
    requires k in m && forall j :: j in m && m[j] == m[k] ==> j == k
    ensures (m - {k}).Values == m.Values - {m[k]}
  {
    assert forall j :: j in m && j != k ==> j in m - {k} && (m - {k})[j] == m[j];
  }

  /** Bookkeeping of a new request: until the pool has looked for a client, it is held. */
  lemma IssuedIsHeld(s: Pool, r: Request)
    requires Conserved(s, {}) && r !in s.issued
    ensures s.commands == [] ==> Conserved(s.(issued := s.issued + [r], dispatched := s.dispatched + [r]), {r})
    ensures Conserved(s.(issued := s.issued + [r], commands := s.commands + [r]), {})
  {
    assert forall q :: q in s.dispatched ==> q in s.issued;
    assert r !in Members(s.dispatched);
    assert Members(s.dispatched + [r]) == Members(s.dispatched) + {r};
  }

  lemma IssuedHasSlot(s: Pool, r: Request, pick: Client)
    requires Capacity(s, 0) && pick in s.free
    ensures s.commands == [] && pick !in s.busy && pick !in s.inFlight
    ensures Capacity(s.(issued := s.issued + [r], dispatched := s.dispatched + [r], free := s.free - {pick}), 1)
  {
    assert |s.free - {pick}| == |s.free| - 1;
  }

  lemma IssueToFreeClient(s: Pool, r: Request, pick: Client)
    requires Inv(s) && Enabled(s, Issue(r, pick)) && pick in s.free
    ensures Settles(s.(issued := s.issued + [r]), Step(s, Issue(r, pick)))
  {
    hide Conserved, Capacity, OnClient, FreeClient, Settles;
    var i := s.(issued := s.issued + [r], dispatched := s.dispatched + [r]);
    var j := i.(free := i.free - {pick});
    IssuedHasSlot(s, r, pick);
    IssuedIsHeld(s, r);
    HeldIgnoresFree(i, j.free, {r});
    OnClientKeepsInv(j, pick, r);
    SettlesAfterDequeue(s.(issued := s.issued + [r]), j, OnClient(j, pick, r));
  }

  lemma IssueToQueue(s: Pool, r: Request, pick: Client)
    requires Inv(s) && Enabled(s, Issue(r, pick)) && s.free == {} && |s.busy| + s.pending >= s.maxClients
    ensures Settles(s.(issued := s.issued + [r]), Step(s, Issue(r, pick)))
  {
    hide Conserved, OnClient, FreeClient;
    IssuedIsHeld(s, r);
    assert Step(s, Issue(r, pick)) == s.(issued := s.issued + [r], commands := s.commands + [r]);
  }

  /** The pool after a request found no client but room for another connection. */
  function Connecting(s: Pool, r: Request): Pool {
    s.(issued := s.issued + [r], dispatched := s.dispatched + [r],
       pending := s.pending + 1, connecting := s.connecting + {r})
  }

  lemma ConnectKeepsCapacity(s: Pool, r: Request)
    requires Capacity(s, 0) && s.free == {} && |s.busy| + s.pending < s.maxClients && r !in s.connecting
    ensures Capacity(Connecting(s, r), 0)
  {
  }

  lemma ConnectKeepsConserved(s: Pool, r: Request)
    requires Conserved(s, {}) && r !in s.issued && s.commands == []
    ensures Conserved(Connecting(s, r), {})
  {
    IssuedIsHeld(s, r);
  }

  lemma IssueToConnection(s: Pool, r: Request, pick: Client)
    requires Inv(s) && Enabled(s, Issue(r, pick)) && s.free == {} && |s.busy| + s.pending < s.maxClients
    ensures Settles(s.(issued := s.issued + [r]), Step(s, Issue(r, pick)))
  {
    hide Conserved, OnClient, FreeClient;
    NotYetConnecting(s, r);
    ConnectKeepsConserved(s, r);
    ConnectKeepsCapacity(s, r);
    assert Step(s, Issue(r, pick)) == Connecting(s, r);
  }

  lemma NotYetConnecting(s: Pool, r: Request)
    requires Conserved(s, {}) && r !in s.issued
    ensures r !in s.connecting
  {
    assert forall q :: q in s.connecting ==> q in Members(s.dispatched);
    assert forall q :: q in s.dispatched ==> q in s.issued;
  }

  lemma HeldIgnoresFree(s: Pool, free: set<Client>, held: set<Request>)
    requires Conserved(s, held)
    ensures Conserved(s.(free := free), held)
  {
  }

  lemma ConnectedIsHeld(s: Pool, r: Request)
    requires Conserved(s, {}) && r in s.connecting && s.pending > 0
    ensures Conserved(Established(s, r), {r})
  {
  }

  lemma ConnectedHasSlot(s: Pool, r: Request)
    requires Capacity(s, 0) && r in s.connecting
    ensures s.pending > 0 && Capacity(Established(s, r), 1)
    ensures s.inFlight.Keys == s.busy
  {
    assert |s.connecting - {r}| == |s.connecting| - 1;
  }

  lemma ConnectedKeepsInv(s: Pool, r: Request, c: Client)
    requires Inv(s) && Enabled(s, Connected(r, c))
    ensures Settles(s, Step(s, Connected(r, c)))
  {
    hide Conserved, Capacity, OnClient, FreeClient, Settles, Idle;
    var t := Established(s, r);
    ConnectedHasSlot(s, r);
    ConnectedIsHeld(s, r);
    OnClientKeepsInv(t, c, r);
    SettlesAfterDequeue(s, t, OnClient(t, c, r));
  }

  lemma ShutdownKeepsInv(s: Pool)
    requires Inv(s)
    ensures Inv(Step(s.(shutdownRequested := false), Shutdown))
  {
  }

  lemma StepKeepsInv(s: Pool, e: Event)
    requires Inv(s) && Enabled(s, e)
    ensures Inv(Step(s, e))
    ensures Step(s, e).issued == if e.Issue? then s.issued + [e.request] else s.issued
    ensures s.dispatched <= Step(s, e).dispatched
  {
    hide Conserved, Perform, OnClient, FreeClient;
    match e
    case Issue(r, pick) =>
      hide Capacity, ShutdownPending;
      if s.free != {} {
        IssueToFreeClient(s, r, pick);
      } else if |s.busy| + s.pending >= s.maxClients {
        IssueToQueue(s, r, pick);
      } else {
        IssueToConnection(s, r, pick);
      }
    case Connected(r, c) => ConnectedKeepsInv(s, r, c);
    case Answered(c) => FreeClientKeepsInv(s, c);
    case Shutdown => ShutdownKeepsInv(s);
  }

  /** What one event does to the shutdown Deferred: its callback is called, once, exactly
      when the event leaves the pool idle. */
  predicate CalledIfIdle(s: Pool, t: Pool) {
    t.shutdownDeferred ==
      if s.shutdownDeferred.Created? && Idle(t) then Created(s.shutdownDeferred.calls + 1) else s.shutdownDeferred
  }

  lemma {:induction false} OnClientCalls(s: Pool, c: Client, r: Request)
    ensures CalledIfIdle(s, OnClient(s, c, r))
    decreases |s.commands|, 1
  {
    if r.immediate {
      FreeClientCalls(Begin(s, c, r), c);
    } else {
      assert c in OnClient(s, c, r).busy;
    }
  }

  lemma {:induction false} FreeClientCalls(s: Pool, c: Client)
    requires c in s.inFlight
    ensures CalledIfIdle(s, FreeClient(s, c))
    decreases |s.commands|, 0
  {
    var f := Fire(Release(s, c));
    if f.commands != [] {
      assert c in f.free;
      OnClientCalls(f.(commands := f.commands[1..], free := f.free - {c}, dispatched := f.dispatched + [f.commands[0]]),
                    c, f.commands[0]);
    }
  }

  lemma StepCalls(s: Pool, e: Event)
    requires Inv(s) && Enabled(s, e) && !e.Shutdown?
    ensures CalledIfIdle(s, Step(s, e))
  {
    hide OnClient, FreeClient, Conserved;
    match e
    case Issue(r, pick) =>
      if s.free != {} {
        OnClientCalls(s.(issued := s.issued + [r], free := s.free - {pick}, dispatched := s.dispatched + [r]), pick, r);
      }
    case Connected(r, c) =>
      assert s.connecting != {};
      OnClientCalls(Established(s, r), c, r);
    case Answered(c) => FreeClientCalls(s, c);
  }

  // ----- What becomes of requests -----

  /** A request is answered at once and done, or in flight on its client; what was done stays so. */
  lemma {:induction false} OnClientServes(s: Pool, c: Client, r: Request)
    ensures var t := OnClient(s, c, r);
            && s.done <= t.done
            && if r.immediate then r in t.done else c in t.inFlight && t.inFlight[c] == r
    decreases |s.commands|, 1
  {
    if r.immediate {
      FreeClientServes(Begin(s, c, r), c);
    }
  }

  /** The request that was in flight on the client is done, and the oldest command is started. */
  lemma {:induction false} FreeClientServes(s: Pool, c: Client)
    requires c in s.inFlight
    ensures var t := FreeClient(s, c);
            && s.done + {s.inFlight[c]} <= t.done
            && (s.commands == [] ==> t.commands == [] && t.free == s.free + {c} && t.busy == s.busy - {c})
            && (s.commands != [] ==>
                  var q := s.commands[0];
                  if q.immediate then q in t.done else c in t.inFlight && t.inFlight[c] == q)
    decreases |s.commands|, 0
  {
    var f := Fire(Release(s, c));
    if f.commands != [] {
      assert c in f.free;
      OnClientServes(f.(commands := f.commands[1..], free := f.free - {c},
                        dispatched := f.dispatched + [f.commands[0]]),
                     c, f.commands[0]);
    }
  }

  /** Where each event takes its request: to a free client, to the end of the queue where all slots
      are taken, or to a new connection; from the connection to its client; and when it is answered,
      to those that are done. */
  lemma StepServes(s: Pool, e: Event)
    requires Inv(s) && Enabled(s, e)
    ensures var t := Step(s, e);
            && s.done <= t.done
            && (e.Issue? && s.free != {} ==>
                  if e.request.immediate then e.request in t.done
                  else e.pick in t.inFlight && t.inFlight[e.pick] == e.request)
            && (e.Issue? && s.free == {} && |s.busy| + s.pending >= s.maxClients ==>
                t.commands == s.commands + [e.request])
            && (e.Issue? && s.free == {} && |s.busy| + s.pending < s.maxClients ==>
                  t.connecting == s.connecting + {e.request} && t.pending == s.pending + 1)
            && (e.Connected? ==>
                  if e.request.immediate then e.request in t.done
                  else e.client in t.inFlight && t.inFlight[e.client] == e.request)
            && (e.Answered? ==> s.inFlight[e.client] in t.done)
  {
    hide OnClient, FreeClient, Inv;
    match e
    case Issue(r, pick) =>
      if s.free != {} {
        OnClientServes(s.(issued := s.issued + [r], free := s.free - {pick}, dispatched := s.dispatched + [r]), pick,
                       r);
      }
    case Connected(r, c) => OnClientServes(Established(s, r), c, r);
    case Answered(c) => FreeClientServes(s, c);
    case Shutdown =>
  }

  /** No client, but perhaps one, has a request in flight that was answered at once. */
  ghost predicate AllUnanswered(s: Pool, but: Option<Client>) {
    forall c :: c in s.inFlight && but != Some(c) ==> !s.inFlight[c].immediate
  }

  lemma {:induction false} OnClientFrees(s: Pool, c: Client, r: Request)
    requires AllUnanswered(s, None)
    ensures AllUnanswered(OnClient(s, c, r), None)
    decreases |s.commands|, 1
  {
    if r.immediate {
      FreeClientFrees(Begin(s, c, r), c);
    }
  }

  lemma {:induction false} FreeClientFrees(s: Pool, c: Client)
    requires c in s.inFlight && AllUnanswered(s, Some(c))
    ensures AllUnanswered(FreeClient(s, c), None)
    decreases |s.commands|, 0
  {
    var f := Fire(Release(s, c));
    if f.commands != [] {
      assert c in f.free;
      OnClientFrees(f.(commands := f.commands[1..], free := f.free - {c}, dispatched := f.dispatched + [f.commands[0]]),
                    c, f.commands[0]);
    }
  }

  /** In no state of any run does a client still hold a request that has been answered. */
  lemma {:induction false} NoneHeldAnswered(maxClients: nat, events: seq<Event>, states: seq<Pool>, n: nat)
    requires IsRun(maxClients, events, states) && n < |states|
    ensures AllUnanswered(states[n], None)
  {
    if n > 0 {
      NoneHeldAnswered(maxClients, events, states, n - 1);
      StepFrees(states[n - 1], events[n - 1]);
    }
  }

  lemma StepFrees(s: Pool, e: Event)
    requires Enabled(s, e) && AllUnanswered(s, None)
    ensures AllUnanswered(Step(s, e), None)
  {
    hide OnClient, FreeClient;
    match e
    case Issue(r, pick) =>
      if s.free != {} {
        OnClientFrees(s.(issued := s.issued + [r], free := s.free - {pick}, dispatched := s.dispatched + [r]), pick, r);
      }
    case Connected(r, c) => OnClientFrees(Established(s, r), c, r);
    case Answered(c) => FreeClientFrees(s, c);
    case Shutdown =>
  }

  /** Safety over every run: capacity, conservation and the pending shutdown. */
  lemma {:induction false} RunKeepsInv(maxClients: nat, events: seq<Event>, states: seq<Pool>, i: nat)
    requires IsRun(maxClients, events, states) && i < |states|
    ensures Inv(states[i])
  {
    if i > 0 {
      RunKeepsInv(maxClients, events, states, i - 1);
      StepKeepsInv(states[i - 1], events[i - 1]);
    }
  }

  /** Every request that was issued is in exactly one place. */
  lemma ExactlyOnePlace(s: Pool, r: Request)
    requires Inv(s)
    ensures r in s.issued <==> r in s.commands || r in s.connecting || r in s.inFlight.Values || r in s.done
    ensures r in s.commands ==> r !in s.connecting && r !in s.inFlight.Values && r !in s.done
    ensures r in s.connecting ==> r !in s.inFlight.Values && r !in s.done
    ensures r in s.inFlight.Values ==> r !in s.done
  {
    assert r in Members(s.dispatched) <==> r in s.dispatched;
    forall i, j | 0 <= i < |s.dispatched| && 0 <= j < |s.commands|
      ensures s.dispatched[i] != s.commands[j]
    {
      assert s.issued[i] == s.dispatched[i] && s.issued[|s.dispatched| + j] == s.commands[j];
    }
  }

  lemma InvIsFifo(s: Pool)
    requires Inv(s)
    ensures s.dispatched <= s.issued && s.commands == s.issued[|s.dispatched|..]
  {
  }

  /** First in, first out, over a whole run: requests get a connection in the order in which
      they were issued, so none overtakes one that waits. */
  lemma {:induction false} RunIsFifo(maxClients: nat, events: seq<Event>, states: seq<Pool>, i: nat, j: nat)
    requires IsRun(maxClients, events, states) && i <= j < |states|
    ensures states[i].issued <= states[j].issued && states[i].dispatched <= states[j].dispatched
    ensures states[j].dispatched <= states[j].issued
    ensures states[j].commands == states[j].issued[|states[j].dispatched|..]
  {
    hide Step, Enabled, Capacity, ShutdownPending, Conserved;
    RunKeepsInv(maxClients, events, states, j);
    InvIsFifo(states[j]);
    if i < j {
      RunIsFifo(maxClients, events, states, i, j - 1);
      RunKeepsInv(maxClients, events, states, j - 1);
      StepKeepsInv(states[j - 1], events[j - 1]);
    }
  }

  /** How many of the states after index `k`, up to index `n`, are idle. */
  ghost function IdleSince(states: seq<Pool>, k: nat, n: nat): nat
    requires k <= n < |states|
  {
    if n == k then 0 else IdleSince(states, k, n - 1) + if Idle(states[n]) then 1 else 0
  }

  lemma ShutdownOnce(maxClients: nat, events: seq<Event>, states: seq<Pool>, i: nat)
    requires IsRun(maxClients, events, states) && i < |events| && states[i].shutdownRequested
    ensures !events[i].Shutdown?
  {
  }

  /** Shutdown: in a run whose event `k` is the reactor's shutdown of a pool that is not idle,
      the Deferred has been called back once for every idle state since. So it fires in the
      first idle state and only in an idle one, and a second call (AlreadyCalledError) happens
      exactly when requests made after that let the pool become idle again. */
  lemma {:induction false} ShutdownFiresWhenIdle(maxClients: nat, events: seq<Event>, states: seq<Pool>, k: nat, n: nat)
    requires IsRun(maxClients, events, states) && k < n < |states|
    requires events[k].Shutdown? && !Idle(states[k])
    ensures states[n].shutdownRequested
    ensures states[n].shutdownDeferred == Created(IdleSince(states, k, n))
  {
    hide Step, Enabled, Inv, Idle;
    RunKeepsInv(maxClients, events, states, n - 1);
    if n == k + 1 {
      ShutdownWaits(states[k]);
      assert IdleSince(states, k, k) == 0;
    } else {
      ShutdownFiresWhenIdle(maxClients, events, states, k, n - 1);
      ShutdownOnce(maxClients, events, states, n - 1);
      StepKeepsRequested(states[n - 1], events[n - 1]);
      StepCalls(states[n - 1], events[n - 1]);
    }
  }

  lemma ShutdownWaits(s: Pool)
    requires Enabled(s, Shutdown) && !Idle(s)
    ensures var t := Step(s, Shutdown); t.shutdownRequested && t.shutdownDeferred == Created(0) && !Idle(t)
  {
  }

  const FIRST := Request(0, false)
  const SECOND := Request(1, false)

  /** Shut down while one request is in flight, and asked for another one after that. */
  const LATE := [Issue(FIRST, 0), Connected(FIRST, 0), Shutdown, Answered(0), Issue(SECOND, 0), Answered(0)]

  const LATE_STATES := [
    Empty(1),
    Pool(1, {}, {}, 1, [], false, NotCreated, {FIRST}, map[], [FIRST], [FIRST], {}),
    Pool(1, {0}, {}, 0, [], false, NotCreated, {}, map[0 := FIRST], [FIRST], [FIRST], {}),
    Pool(1, {0}, {}, 0, [], true, Created(0), {}, map[0 := FIRST], [FIRST], [FIRST], {}),
    Pool(1, {}, {0}, 0, [], true, Created(1), {}, map[], [FIRST], [FIRST], {FIRST}),
    Pool(1, {0}, {}, 0, [], true, Created(1), {}, map[0 := SECOND], [FIRST, SECOND], [FIRST, SECOND], {FIRST}),
    Pool(1, {}, {0}, 0, [], true, Created(2), {}, map[], [FIRST, SECOND], [FIRST, SECOND], {FIRST, SECOND})]

  ghost predicate LateStep(i: nat)
    requires i < 6
  {
    Enabled(LATE_STATES[i], LATE[i]) && LATE_STATES[i + 1] == Step(LATE_STATES[i], LATE[i])
  }

  lemma LateFirst()
    ensures LateStep(0) && LateStep(1)
  {
  }

  lemma LateShutdown()
    ensures LateStep(2) && LateStep(3)
  {
  }

  lemma LateSecond()
    ensures LateStep(4) && LateStep(5)
  {
    var s := LATE_STATES[4].(issued := [FIRST, SECOND]);
    var t := s.(free := {}, dispatched := [FIRST, SECOND]);
    assert [FIRST] + [SECOND] == [FIRST, SECOND] && {0} - {0} == {};
    assert Perform(s, SECOND, 0) == OnClient(t, 0, SECOND);
    assert OnClient(t, 0, SECOND) == Begin(t, 0, SECOND) == LATE_STATES[5];
  }

  /** The Deferred is called back twice in that run; the second call raises. */
  lemma ShutdownMayFireTwice()
    ensures IsRun(1, LATE, LATE_STATES) && LATE[2].Shutdown? && !Idle(LATE_STATES[2])
    ensures LATE_STATES[6].shutdownDeferred == Created(2)
  {
    LateFirst();
    LateShutdown();
    LateSecond();
    forall i | 0 <= i < |LATE|
      ensures Enabled(LATE_STATES[i], LATE[i]) && LATE_STATES[i + 1] == Step(LATE_STATES[i], LATE[i])
    {
      hide Step, Enabled;
      assert LateStep(i);
    }
  }

  lemma IdleShutdown(s: Pool)
    requires Enabled(s, Shutdown) && Idle(s)
    ensures var t := Step(s, Shutdown); t.shutdownRequested && t.shutdownDeferred == NotCreated
  {
  }

  /** A pool that is idle at shutdown gives the reactor no Deferred to wait for. */
  lemma {:induction false} IdleShutdownNeverFires(maxClients: nat, events: seq<Event>, states: seq<Pool>, k: nat,
                                                  n: nat)
    requires IsRun(maxClients, events, states) && k < n < |states|
    requires events[k].Shutdown? && Idle(states[k])
    ensures states[n].shutdownRequested && states[n].shutdownDeferred == NotCreated
  {
    hide Step, Enabled, Inv, Idle;
    if n == k + 1 {
      IdleShutdown(states[k]);
    } else {
      IdleShutdownNeverFires(maxClients, events, states, k, n - 1);
      ShutdownOnce(maxClients, events, states, n - 1);
      RunKeepsInv(maxClients, events, states, n - 1);
      StepKeepsRequested(states[n - 1], events[n - 1]);
      StepCalls(states[n - 1], events[n - 1]);
    }
  }

  lemma {:induction false} OnClientKeepsRequested(s: Pool, c: Client, r: Request)
    ensures OnClient(s, c, r).shutdownRequested == s.shutdownRequested
    ensures OnClient(s, c, r).maxClients == s.maxClients
    decreases |s.commands|, 1
  {
    if r.immediate { FreeClientKeepsRequested(Begin(s, c, r), c); }
  }

  lemma {:induction false} FreeClientKeepsRequested(s: Pool, c: Client)
    requires c in s.inFlight
    ensures FreeClient(s, c).shutdownRequested == s.shutdownRequested
    ensures FreeClient(s, c).maxClients == s.maxClients
    decreases |s.commands|, 0
  {
    var f := Fire(Release(s, c));
    if f.commands != [] {
      assert c in f.free;
      OnClientKeepsRequested(f.(commands := f.commands[1..], free := f.free - {c},
                                dispatched := f.dispatched + [f.commands[0]]), c, f.commands[0]);
    }
  }

  lemma StepKeepsRequested(s: Pool, e: Event)
    requires Enabled(s, e)
    ensures s.shutdownRequested ==> Step(s, e).shutdownRequested
    ensures Step(s, e).maxClients == s.maxClients
  {
    hide OnClient, FreeClient;
    match e
    case Issue(r, pick) =>
      if s.free != {} {
        OnClientKeepsRequested(s.(issued := s.issued + [r], free := s.free - {pick}, dispatched := s.dispatched + [r]),
                               pick, r);
      }
    case Connected(r, c) =>
      OnClientKeepsRequested(Established(s, r), c, r);
    case Answered(c) => FreeClientKeepsRequested(s, c);
    case Shutdown =>
  }

  // ----- The pool as the source writes it -----

  class MemCachePool {
    const maxClients: nat
    var busyClients: set<Client>
    var freeClients: set<Client>
    var pendingConnects: nat
    var commands: seq<Request>
    var shutdownRequested: bool
    var shutdownDeferred: Deferred

    ghost var connecting: set<Request>
    ghost var inFlight: map<Client, Request>
    ghost var issued: seq<Request>
    ghost var dispatched: seq<Request>
    ghost var done: set<Request>

    ghost function State(): Pool
      reads this
    {
      Pool(maxClients, busyClients, freeClients, pendingConnects, commands, shutdownRequested, shutdownDeferred,
           connecting, inFlight, issued, dispatched, done)
    }

    /** While commands wait, at most one client is free: the one that is about to serve them. */
    ghost predicate AtMostOneFree()
      reads this
    {
      commands != [] ==> forall c, d :: c in freeClients && d in freeClients ==> c == d
    }

    constructor (maxClients: nat)
      ensures State() == Empty(maxClients) && Inv(State())
    {
      this.maxClients := maxClients;
      busyClients, freeClients, pendingConnects, commands := {}, {}, 0, [];
      shutdownRequested, shutdownDeferred := false, NotCreated;
      connecting, inFlight, issued, dispatched, done := {}, map[], [], [], {};
    }

    method IsIdle() returns (idle: bool)
      ensures idle == Idle(State())
    {
      idle := |busyClients| == 0 && |commands| == 0 && pendingConnects == 0;
    }

    /** The reactor is about to stop; `waits` says whether it was given a Deferred. */
    method ShutdownCallback() returns (waits: bool)
      requires Inv(State()) && !shutdownRequested
      modifies this
      ensures State() == Step(old(State()), Shutdown) && Inv(State())
      ensures waits <==> !Idle(old(State()))
    {
      hide Conserved, Capacity, ShutdownPending, Perform, OnClient, FreeClient;
      StepKeepsInv(State(), Shutdown);
      shutdownRequested := true;
      shutdownDeferred := NotCreated;
      var idle := IsIdle();
      if !idle {
        shutdownDeferred := Created(0);
      }
      waits := !idle;
    }

    /** get, set, checkAndSet and the other commands a caller can issue. */
    method Command(r: Request) returns (ghost pick: Client)
      requires Inv(State()) && r !in issued
      modifies this
      ensures Enabled(old(State()), Issue(r, pick))
      ensures State() == Step(old(State()), Issue(r, pick)) && Inv(State())
    {
      hide Conserved;
      ghost var s := State();
      issued := issued + [r];
      pick := PerformRequest(r);
      StepKeepsInv(s, Issue(r, pick));
    }

    method PerformRequest(r: Request) returns (ghost pick: Client)
      requires AtMostOneFree()
      modifies this
      ensures old(freeClients) != {} ==> pick in old(freeClients)
      ensures State() == Perform(old(State()), r, pick)
      decreases |commands|, 2
    {
      hide FreeClient;
      pick := 0;
      if |freeClients| > 0 {
        var client :| client in freeClients;
        freeClients := freeClients - {client};
        pick, dispatched := client, dispatched + [r];
        PerformRequestOnClient(client, r);
      } else if |busyClients| + pendingConnects >= maxClients {
        commands := commands + [r];
      } else {
        NewClientConnection(r);
      }
    }

    method NewClientConnection(r: Request)
      modifies this
      ensures State() == old(State()).(pending := old(pendingConnects) + 1, connecting := old(connecting) + {r},
                                       dispatched := old(dispatched) + [r])
    {
      pendingConnects := pendingConnects + 1;
      connecting, dispatched := connecting + {r}, dispatched + [r];
    }

    /** The connection opened for `r` is up: the callbacks of its Deferred run. */
    method ConnectionMade(r: Request, client: Client)
      requires Inv(State()) && Enabled(State(), Connected(r, client))
      modifies this
      ensures State() == Step(old(State()), Connected(r, client)) && Inv(State())
    {
      hide Conserved, OnClient;
      StepKeepsInv(State(), Connected(r, client));
      assert connecting != {};
      pendingConnects, connecting := pendingConnects - 1, connecting - {r};
      PerformRequestOnClient(client, r);
    }

    method PerformRequestOnClient(client: Client, r: Request)
      requires commands != [] ==> freeClients - {client} == {}
      modifies this
      ensures State() == OnClient(old(State()), client, r)
      decreases |commands|, 1
    {
      hide FreeClient;
      ClientBusy(client);
      inFlight := inFlight[client := r];
      if r.immediate {
        ClientFree(client);
      }
    }

    method ClientBusy(client: Client)
      modifies this
      ensures State() == old(State()).(free := old(freeClients) - {client}, busy := old(busyClients) + {client})
    {
      if client in freeClients {
        freeClients := freeClients - {client};
      }
      busyClients := busyClients + {client};
    }

    /** The answer to the request in flight on `client`, or a memcache error, has arrived. */
    method ClientAnswered(client: Client)
      requires Inv(State()) && client in inFlight
      modifies this
      ensures State() == Step(old(State()), Answered(client)) && Inv(State())
    {
      hide Conserved, FreeClient;
      StepKeepsInv(State(), Answered(client));
      ClientFree(client);
    }

    method ClientFree(client: Client)
      requires client in inFlight && (commands != [] ==> freeClients == {})
      modifies this
      ensures State() == FreeClient(old(State()), client)
      decreases |commands|, 0
    {
      hide OnClient, Perform;
      ghost var f := Fire(Release(State(), client));
      if client in busyClients {
        busyClients := busyClients - {client};
      }
      freeClients := freeClients + {client};
      done, inFlight := done + {inFlight[client]}, inFlight - {client};
      var idle := IsIdle();
      if shutdownDeferred.Created? && idle {
        shutdownDeferred := Created(shutdownDeferred.calls + 1);
      }
      assert State() == f;
      if |commands| > 0 {
        var r := commands[0];
        commands := commands[1..];
        ghost var pick := PerformRequest(r);
        assert pick == client;
      }
    }
  }
}
