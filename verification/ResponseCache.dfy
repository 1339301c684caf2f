/** The PROPFIND response cache of twistedcaldav/cache.py over the expiring store of
    twistedcaldav/memcacher.py. A cached response is guarded by tokens; every change of a
    resource replaces the token of its URI; tokens and responses expire after one timeout. */
module ResponseCache {

  import opened Collections

  /** The pool a token lives in: principal tokens have a pool handle of their own, which the
      configuration may map to the default pool. */
  datatype Handle = Default | PrincipalToken

  /** A token's key: "cacheToken:" and the URI, in a pool. */
  datatype TokenKey = TokenKey(handle: Handle, uri: string)

  const KEY_LIMIT := 250
  const TOKEN_PREFIX := "cacheToken:"
  const DEFAULT_EXPIRY := 99999

  /** The store refuses longer keys, silently. */
  predicate Fits(k: TokenKey) {
    |TOKEN_PREFIX| + |k.uri| <= KEY_LIMIT
  }

  /** An expiry time of zero means the store's default. */
  function Lifetime(expireTime: nat): nat {
    if expireTime == 0 then DEFAULT_EXPIRY else expireTime
  }

  // ----- The history of a store -----

  /** What happens to tokens: a notifier issues a fresh one, or time passes. */
  datatype Event = Changed(key: TokenKey, token: nat) | Tick(seconds: nat)

  type History = seq<Event>

  function Clock(h: History): nat {
    if h == [] then 0
    else Clock(h[..|h| - 1]) + match h[|h| - 1] case Tick(n) => n case Changed(_, _) => 0
  }

  /** A token and the time at which it was set. */
  datatype Stamp = Stamp(token: nat, at: nat)

  function LastChange(h: History, k: TokenKey): Option<Stamp> {
    if h == [] then None
    else if h[|h| - 1].Changed? && h[|h| - 1].key == k then Some(Stamp(h[|h| - 1].token, Clock(h[..|h| - 1])))
    else LastChange(h[..|h| - 1], k)
  }

  /** The token a reader gets: the last one issued, unless it expired or its key was refused. */
  function Current(h: History, timeout: nat, k: TokenKey): Option<nat> {
    match LastChange(h, k)
    case None => None
    case Some(s) => if Fits(k) && Clock(h) < s.at + timeout then Some(s.token) else None
  }

  /** uuid4 tokens are never issued twice. */
  ghost predicate FreshTokens(h: History) {
    forall i, j :: 0 <= i < j < |h| && h[i].Changed? && h[j].Changed? ==> h[i].token != h[j].token
  }

  /** A change of `k` was issued after the first `i` events and within the first `r`. */
  ghost predicate ChangedBetween(h: History, k: TokenKey, i: nat, r: nat)
    requires i <= r <= |h|
  {
    exists j :: i <= j < r && h[j].Changed? && h[j].key == k
  }

  lemma {:induction false} ClockGrows(h: History, i: nat, r: nat)
    requires i <= r <= |h|
    ensures Clock(h[..i]) <= Clock(h[..r])
  {
    if i < r {
      ClockGrows(h, i, r - 1);
      assert h[..r][..r - 1] == h[..r - 1];
    }
  }

  /** Where the last change of a key before `r` happened. */
  lemma {:induction false} LastChangeIs(h: History, k: TokenKey, r: nat)
    requires r <= |h|
    ensures LastChange(h[..r], k).None? <==> !ChangedBetween(h, k, 0, r)
    ensures LastChange(h[..r], k).Some? ==>
              exists j :: LastAt(h, k, j, r) && LastChange(h[..r], k).value == Stamp(h[j].token, Clock(h[..j]))
  {
    hide LastChange, Clock, ChangedBetween;
    if r == 0 {
      NothingYet(h, k);
    } else {
      assert h[..r] == h[..r - 1] + [h[r - 1]];
      Append(h[..r - 1], h[r - 1], k);
      LastChangeIs(h, k, r - 1);
      OneMoreEvent(h, k, r - 1);
      if h[r - 1].Changed? && h[r - 1].key == k {
        assert LastAt(h, k, r - 1, r);
      } else if LastChange(h[..r - 1], k).Some? {
        var j :| LastAt(h, k, j, r - 1) && LastChange(h[..r - 1], k).value == Stamp(h[j].token, Clock(h[..j]));
        assert LastAt(h, k, j, r);
      }
    }
  }

  lemma NothingYet(h: History, k: TokenKey)
    ensures LastChange(h[..0], k) == None && !ChangedBetween(h, k, 0, 0)
  {
  }

  lemma OneMoreEvent(h: History, k: TokenKey, r: nat)
    requires r < |h|
    ensures ChangedBetween(h, k, 0, r + 1) <==> ChangedBetween(h, k, 0, r) || (h[r].Changed? && h[r].key == k)
  {
  }

  /** Event `j` is the last change of `k` among the first `r` events. */
  ghost predicate LastAt(h: History, k: TokenKey, j: int, r: nat)
    requires r <= |h|
  {
    0 <= j < r && h[j].Changed? && h[j].key == k && forall q :: j < q < r ==> !(h[q].Changed? && h[q].key == k)
  }

  lemma Append(h: History, e: Event, k: TokenKey)
    ensures LastChange(h + [e], k) ==
              if e.Changed? && e.key == k then Some(Stamp(e.token, Clock(h))) else LastChange(h, k)
    ensures Clock(h + [e]) == Clock(h) + match e case Tick(n) => n case Changed(_, _) => 0
  {
    assert (h + [e])[..|h|] == h;
  }

  // ----- One guard of a cached response -----

  /** A change that a token comparison cannot see: the token was missing when it was captured
      and is missing again, because its key is too long or the last change has expired. */
  ghost predicate Unseen(h: History, timeout: nat, k: TokenKey, i: nat, r: nat)
    requires i <= r <= |h|
  {
    && Current(h[..i], timeout, k) == None
    && (!Fits(k) || (LastChange(h[..r], k).Some? && LastChange(h[..r], k).value.at + timeout <= Clock(h[..r])))
  }

  /** If a token captured after `i` events equals the one read after `r`, the guarded resource
      was changed in between if and only if a change was issued that the tokens cannot show. */
  lemma TokenMatchMeansUnchanged(h: History, timeout: nat, k: TokenKey, i: nat, r: nat)
    requires i <= r <= |h| && FreshTokens(h)
    requires ChangedBetween(h, k, i, r)
    ensures Current(h[..i], timeout, k) == Current(h[..r], timeout, k) <==> Unseen(h, timeout, k, i, r)
  {
    LastChangeIs(h, k, i);
    LastChangeIs(h, k, r);
    var c :| i <= c < r && h[c].Changed? && h[c].key == k;
    var j :| LastAt(h, k, j, r) && LastChange(h[..r], k).value == Stamp(h[j].token, Clock(h[..j]));
    assert i <= j;
    if Current(h[..i], timeout, k).Some? {
      var q :| LastAt(h, k, q, i) && LastChange(h[..i], k).value == Stamp(h[q].token, Clock(h[..q]));
      assert h[q].token != h[j].token;
    }
  }

  /** A token that is missing when it is captured and missing when it is compared guards, if its
      key is not too long and less than one timeout has passed in between: a token issued in the
      meantime would still be there. */
  lemma NeverStaleWithinTimeout(h: History, timeout: nat, k: TokenKey, i: nat, r: nat)
    requires i <= r <= |h| && FreshTokens(h) && Fits(k)
    requires Clock(h[..r]) < Clock(h[..i]) + timeout
    requires Current(h[..i], timeout, k) == Current(h[..r], timeout, k)
    ensures !ChangedBetween(h, k, i, r)
  {
    if ChangedBetween(h, k, i, r) {
      TokenMatchMeansUnchanged(h, timeout, k, i, r);
      LastChangeIs(h, k, r);
      var c :| i <= c < r && h[c].Changed? && h[c].key == k;
      var j :| LastAt(h, k, j, r) && LastChange(h[..r], k).value == Stamp(h[j].token, Clock(h[..j]));
      ClockGrows(h, i, j);
    }
  }

  /** The token was missing after `i` events and, `d` seconds later, after `r`. */
  ghost predicate MissingTwice(h: History, timeout: nat, k: TokenKey, i: nat, r: nat, d: nat) {
    && i <= r <= |h| && FreshTokens(h)
    && Current(h[..i], timeout, k) == None == Current(h[..r], timeout, k)
    && Clock(h[..r]) == Clock(h[..i]) + d
  }

  ghost predicate GuardsFor(timeout: nat, k: TokenKey, d: nat) {
    forall h, i, r :: MissingTwice(h, timeout, k, i, r, d) ==> !ChangedBetween(h, k, i, r)
  }

  /** A missing token guards for `d` seconds, whatever happens, if and only if its key is not too
      long and `d` is less than the timeout. */
  lemma MissingTokenGuardsExactly(timeout: nat, k: TokenKey, d: nat)
    ensures GuardsFor(timeout, k, d) <==> |"cacheToken:"| + |k.uri| <= 250 && d < timeout
  {
    if Fits(k) && d < timeout {
      forall h, i, r | MissingTwice(h, timeout, k, i, r, d)
        ensures !ChangedBetween(h, k, i, r)
      {
        NeverStaleWithinTimeout(h, timeout, k, i, r);
      }
    } else {
      var h := [Changed(k, 0), Tick(d)];
      assert h[..0] == [] && h[..2] == h && h[..2][..1] == h[..1] && h[..1][..0] == [];
      assert LastChange(h[..1], k) == Some(Stamp(0, 0));
      assert LastChange(h[..2], k) == Some(Stamp(0, 0));
      assert Clock(h[..1]) == 0;
      assert MissingTwice(h, timeout, k, 0, 2, d);
      assert h[0].Changed? && h[0].key == k;
      assert ChangedBetween(h, k, 0, 2);
    }
  }

  /** A token that was there when it was captured guards for ever. */
  lemma NeverStaleWithToken(h: History, timeout: nat, k: TokenKey, i: nat, r: nat)
    requires i <= r <= |h| && FreshTokens(h)
    requires Current(h[..i], timeout, k).Some? && Current(h[..i], timeout, k) == Current(h[..r], timeout, k)
    ensures !ChangedBetween(h, k, i, r)
  {
    if ChangedBetween(h, k, i, r) {
      TokenMatchMeansUnchanged(h, timeout, k, i, r);
    }
  }

  /** So a live response can be stale: a change between the capture of a missing token and the
      storing of the response expires one second before the response. */
  lemma StaleAfterRace(timeout: nat, k: TokenKey)
    requires timeout >= 1 && Fits(k)
    ensures var h := [Changed(k, 0), Tick(1), Tick(timeout - 1)];
            && FreshTokens(h) && ChangedBetween(h, k, 0, 3)
            && Current(h[..0], timeout, k) == Current(h[..3], timeout, k)
            && Clock(h[..3]) < Clock(h[..2]) + timeout
  {
    var h := [Changed(k, 0), Tick(1), Tick(timeout - 1)];
    assert h[..3] == h && h[..3][..2] == h[..2] && h[..2][..1] == h[..1] && h[..1][..0] == [];
    assert h[0].Changed?;
    assert LastChange(h[..1], k) == Some(Stamp(0, 0));
    assert LastChange(h[..2], k) == Some(Stamp(0, 0));
    assert Clock(h[..1]) == 0;
    assert Clock(h[..2]) == 1;
  }

  /** And so can one that was stored in the instant of the capture: it is found in the last second
      of its life, and the change that followed expires before its token is compared. */
  lemma StaleAfterSlowLookup(timeout: nat, k: TokenKey)
    requires timeout >= 1 && Fits(k)
    ensures var h := [Changed(k, 0), Tick(timeout - 1), Tick(1)];
            && FreshTokens(h) && ChangedBetween(h, k, 0, 3)
            && Current(h[..0], timeout, k) == Current(h[..3], timeout, k)
            && Clock(h[..2]) < Clock(h[..0]) + timeout
  {
    var h := [Changed(k, 0), Tick(timeout - 1), Tick(1)];
    assert h[..3] == h && h[..3][..2] == h[..2] && h[..2][..1] == h[..1] && h[..1][..0] == [];
    assert h[0].Changed?;
    assert LastChange(h[..1], k) == Some(Stamp(0, 0));
    assert LastChange(h[..2], k) == Some(Stamp(0, 0));
    assert Clock(h[..1]) == 0;
    assert Clock(h[..2]) == timeout - 1;
  }

  /** Whether the token read after `i` events guards until it is compared after `r`: it is there;
      or its key is not too long, and less than one timeout has passed. */
  predicate Guards(h: History, timeout: nat, k: TokenKey, i: nat, r: nat)
    requires i <= r <= |h|
  {
    Current(h[..i], timeout, k).Some? || (Fits(k) && Clock(h[..r]) < Clock(h[..i]) + timeout)
  }

  /** Whatever runs in between, a hit on a token that guards means that nothing was changed since
      the capture. */
  lemma HitIsFresh(h: History, timeout: nat, k: TokenKey, i: nat, r: nat)
    requires i <= r <= |h| && FreshTokens(h)
    requires Current(h[..i], timeout, k) == Current(h[..r], timeout, k)
    requires Guards(h, timeout, k, i, r)
    ensures !ChangedBetween(h, k, i, r)
  {
    if Current(h[..i], timeout, k).Some? {
      NeverStaleWithToken(h, timeout, k, i, r);
    } else {
      NeverStaleWithinTimeout(h, timeout, k, i, r);
    }
  }

  /** But a response is made before its tokens are read: one made after `p` events is stale, where
      the token guards, if and only if something was changed before the capture. */
  lemma HitIsFreshExactly(h: History, timeout: nat, k: TokenKey, p: nat, i: nat, r: nat)
    requires p <= i <= r <= |h| && FreshTokens(h)
    requires Current(h[..i], timeout, k) == Current(h[..r], timeout, k)
    requires Guards(h, timeout, k, i, r)
    ensures ChangedBetween(h, k, p, r) <==> ChangedBetween(h, k, p, i)
  {
    hide Current, Guards;
    HitIsFresh(h, timeout, k, i, r);
  }

  /** For then the token that is captured may be the very one that the change set. */
  lemma StaleAfterRendering(timeout: nat, k: TokenKey)
    requires timeout >= 1 && Fits(k)
    ensures var h := [Changed(k, 0)];
            && FreshTokens(h) && ChangedBetween(h, k, 0, 1)
            && Current(h[..1], timeout, k) == Some(0) && Guards(h, timeout, k, 1, 1)
  {
    var h := [Changed(k, 0)];
    assert h[0].Changed?;
    assert h[..1] == h && h[..1][..0] == [];
    assert LastChange(h[..1], k) == Some(Stamp(0, 0));
    assert Clock(h[..1]) == 0;
  }

  // ----- Entries and their guards -----

  /** What a response is cached under; the md5 of it is taken to be injective. */
  datatype RequestKey = RequestKey(name: string, principal: string, uri: string, depth: string, body: string)

  /** A cached response with the tokens in force when they were captured. */
  datatype Entry = Entry(
    principalToken: Option<nat>,
    directoryToken: nat,
    uriToken: Option<nat>,
    childTokens: map<string, Option<nat>>,
    response: nat)

  datatype Guard = OfPrincipal | OfUri | OfChild(uri: string)

  predicate IsGuard(e: Entry, g: Guard) {
    g.OfChild? ==> g.uri in e.childTokens
  }

  function GuardKey(q: RequestKey, principalHandle: Handle, g: Guard): TokenKey {
    match g
    case OfPrincipal => TokenKey(principalHandle, q.principal)
    case OfUri => TokenKey(Default, q.uri)
    case OfChild(uri) => TokenKey(Default, uri)
  }

  function GuardToken(e: Entry, g: Guard): Option<nat>
    requires IsGuard(e, g)
  {
    match g
    case OfPrincipal => e.principalToken
    case OfUri => e.uriToken
    case OfChild(uri) => e.childTokens[uri]
  }

  /** The child URIs recorded for the request, and after how many events the response was made,
      each token captured, and the response stored. */
  datatype Origin = Origin(children: seq<string>, made: nat, captured: map<Guard, nat>, stored: nat)

  /** The entry has a token for each of the children, and for no others. */
  ghost predicate HasChildren(e: Entry, children: seq<string>) {
    forall uri :: uri in e.childTokens <==> uri in children
  }

  /** What a response depends on: the principal, the resource and the recorded children. */
  ghost function Watched(q: RequestKey, principalHandle: Handle, children: seq<string>): set<TokenKey> {
    {TokenKey(principalHandle, q.principal), TokenKey(Default, q.uri)} +
    set uri | uri in children :: TokenKey(Default, uri)
  }

  lemma WatchedAreGuards(q: RequestKey, principalHandle: Handle, e: Entry, children: seq<string>)
    requires HasChildren(e, children)
    ensures forall k :: k in Watched(q, principalHandle, children) ==>
              exists g :: IsGuard(e, g) && GuardKey(q, principalHandle, g) == k
  {
    forall k | k in Watched(q, principalHandle, children)
      ensures exists g :: IsGuard(e, g) && GuardKey(q, principalHandle, g) == k
    {
      var g := if k == TokenKey(principalHandle, q.principal) then OfPrincipal
               else if k == TokenKey(Default, q.uri) then OfUri
               else OfChild(k.uri);
      assert IsGuard(e, g) && GuardKey(q, principalHandle, g) == k;
    }
  }

  ghost predicate CapturedAt(h: History, timeout: nat, k: TokenKey, token: Option<nat>, i: nat) {
    i <= |h| && Current(h[..i], timeout, k) == token
  }

  ghost predicate OriginOk(h: History, timeout: nat, principalHandle: Handle, q: RequestKey, e: Entry, o: Origin) {
    && o.stored <= |h|
    && HasChildren(e, o.children)
    && (forall g :: IsGuard(e, g) ==>
          g in o.captured && o.made <= o.captured[g] <= o.stored &&
          CapturedAt(h, timeout, GuardKey(q, principalHandle, g), GuardToken(e, g), o.captured[g]))
  }

  lemma OriginStays(h: History, h': History, timeout: nat, principalHandle: Handle, q: RequestKey, e: Entry, o: Origin)
    requires OriginOk(h, timeout, principalHandle, q, e, o) && h <= h'
    ensures OriginOk(h', timeout, principalHandle, q, e, o) && h'[..o.stored] == h[..o.stored]
  {
    forall i | 0 <= i <= |h| ensures h'[..i] == h[..i] {}
  }

  /** What a hit guarantees for one guard of a response made after `p` events: where its token
      guards, nothing was changed between the capture and the comparison, and so something since
      the response was made only if before the capture; elsewhere a change between the two is one
      that the tokens cannot show. */
  ghost predicate GuardHolds(h: History, timeout: nat, k: TokenKey, p: nat, i: nat, r: nat) {
    && p <= i <= r <= |h|
    && (Guards(h, timeout, k, i, r) ==>
          !ChangedBetween(h, k, i, r) && (ChangedBetween(h, k, p, r) <==> ChangedBetween(h, k, p, i)))
    && (ChangedBetween(h, k, i, r) ==> Unseen(h, timeout, k, i, r))
  }

  lemma MatchedGuardHolds(h: History, timeout: nat, k: TokenKey, token: Option<nat>, p: nat, i: nat, r: nat)
    requires FreshTokens(h) && p <= i <= r && CapturedAt(h, timeout, k, token, i) && CapturedAt(h, timeout, k, token, r)
    ensures GuardHolds(h, timeout, k, p, i, r)
  {
    if ChangedBetween(h, k, i, r) {
      TokenMatchMeansUnchanged(h, timeout, k, i, r);
    }
    if Guards(h, timeout, k, i, r) {
      HitIsFresh(h, timeout, k, i, r);
      HitIsFreshExactly(h, timeout, k, p, i, r);
    }
  }

  /** Some guard's token was compared and was not the entry's. */
  ghost predicate Mismatch(h: History, timeout: nat, principalHandle: Handle, q: RequestKey, e: Entry,
                           compared: map<Guard, nat>) {
    exists g :: IsGuard(e, g) && g in compared &&
      compared[g] <= |h| && Current(h[..compared[g]], timeout, GuardKey(q, principalHandle, g)) != GuardToken(e, g)
  }

  lemma Mismatched(h: History, timeout: nat, principalHandle: Handle, q: RequestKey, e: Entry,
                   compared: map<Guard, nat>, g: Guard, token: Option<nat>)
    requires IsGuard(e, g) && g in compared && token != GuardToken(e, g)
    requires CapturedAt(h, timeout, GuardKey(q, principalHandle, g), token, compared[g])
    ensures Mismatch(h, timeout, principalHandle, q, e, compared)
  {
  }

  // ----- The cache as the source writes it -----

  datatype Key = OfToken(token: TokenKey) | OfRequest(request: RequestKey)

  datatype Value = Token(token: nat) | Response(entry: Entry)

  datatype Cell = Cell(value: Value, expires: nat)

  type Cells = map<Key, Cell>

  /** The cell of a token is the one its last change set. */
  ghost predicate TokenCell(cells: Cells, h: History, timeout: nat, k: TokenKey) {
    match LastChange(h, k)
    case None => OfToken(k) !in cells
    case Some(s) =>
      if Fits(k) then OfToken(k) in cells && cells[OfToken(k)] == Cell(Token(s.token), s.at + timeout)
      else OfToken(k) !in cells
  }

  ghost predicate TokenCells(cells: Cells, h: History, timeout: nat) {
    forall k :: TokenCell(cells, h, timeout, k)
  }

  ghost predicate ResponseCells(cells: Cells, origins: map<RequestKey, Origin>, h: History, timeout: nat,
                                principalHandle: Handle) {
    forall q :: OfRequest(q) in cells ==>
      q in origins && cells[OfRequest(q)].value.Response? && origins[q].stored <= |h| &&
      OriginOk(h, timeout, principalHandle, q, cells[OfRequest(q)].value.entry, origins[q]) &&
      cells[OfRequest(q)].expires == Clock(h[..origins[q].stored]) + timeout
  }

  ghost predicate TokensBelow(h: History, next: nat) {
    FreshTokens(h) && forall i :: 0 <= i < |h| && h[i].Changed? ==> h[i].token < next
  }

  lemma ChangeSetsToken(cells: Cells, h: History, timeout: nat, k: TokenKey, token: nat)
    requires TokenCells(cells, h, timeout)
    ensures TokenCells(if Fits(k) then cells[OfToken(k) := Cell(Token(token), Clock(h) + timeout)] else cells,
                       h + [Changed(k, token)], timeout)
  {
    var cells' := if Fits(k) then cells[OfToken(k) := Cell(Token(token), Clock(h) + timeout)] else cells;
    forall j ensures TokenCell(cells', h + [Changed(k, token)], timeout, j) {
      assert TokenCell(cells, h, timeout, j);
      Append(h, Changed(k, token), j);
    }
  }

  lemma FreshTokensAppend(h: History, k: TokenKey, next: nat)
    requires TokensBelow(h, next)
    ensures TokensBelow(h + [Changed(k, next)], next + 1)
  {
  }

  lemma TickKeepsTokens(cells: Cells, h: History, timeout: nat, seconds: nat)
    requires TokenCells(cells, h, timeout)
    ensures TokenCells(cells, h + [Tick(seconds)], timeout)
  {
    forall j ensures TokenCell(cells, h + [Tick(seconds)], timeout, j) {
      assert TokenCell(cells, h, timeout, j);
      Append(h, Tick(seconds), j);
    }
  }

  lemma GrowthKeepsResponses(cells: Cells, cells': Cells, origins: map<RequestKey, Origin>, h: History, e: Event,
                             timeout: nat, principalHandle: Handle)
    requires ResponseCells(cells, origins, h, timeout, principalHandle)
    requires forall q :: OfRequest(q) in cells' ==> OfRequest(q) in cells && cells'[OfRequest(q)] == cells[OfRequest(q)]
    ensures ResponseCells(cells', origins, h + [e], timeout, principalHandle)
  {
    hide OriginOk, Clock;
    forall q | OfRequest(q) in cells'
      ensures OriginOk(h + [e], timeout, principalHandle, q, cells[OfRequest(q)].value.entry, origins[q])
      ensures (h + [e])[..origins[q].stored] == h[..origins[q].stored]
    {
      OriginStays(h, h + [e], timeout, principalHandle, q, cells[OfRequest(q)].value.entry, origins[q]);
    }
  }

  class Cache {
    const expireTime: nat
    const principalHandle: Handle
    var cells: Cells
    var clock: nat
    var nextToken: nat

    ghost var hist: History
    ghost var origins: map<RequestKey, Origin>

    ghost function Timeout(): nat {
      Lifetime(expireTime)
    }

    ghost predicate Valid()
      reads this
    {
      && clock == Clock(hist) && TokensBelow(hist, nextToken)
      && TokenCells(cells, hist, Timeout())
      && ResponseCells(cells, origins, hist, Timeout(), principalHandle)
    }

    constructor (expireTime: nat, principalHandle: Handle)
      ensures Valid() && hist == [] && this.expireTime == expireTime && this.principalHandle == principalHandle
      ensures if expireTime > 0 then Timeout() == expireTime else Timeout() == 99999
    {
      this.expireTime, this.principalHandle := expireTime, principalHandle;
      cells, clock, nextToken := map[], 0, 0;
      hist, origins := [], map[];
    }

    /** memoryCacher.get: an expired cell compared as missing. */
    method Get(key: Key) returns (value: Option<Value>)
      requires Valid()
      ensures key.OfToken? ==>
                value == match Current(hist, Timeout(), key.token) case None => None case Some(t) => Some(Token(t))
      ensures key.OfRequest? && value.Some? ==>
                key in cells && value == Some(cells[key].value) && Clock(hist) < cells[key].expires
      ensures key.OfRequest? && value.None? ==> key !in cells || cells[key].expires <= Clock(hist)
    {
      assert key.OfToken? ==> TokenCell(cells, hist, Timeout(), key.token);
      if key in cells && clock < cells[key].expires {
        value := Some(cells[key].value);
      } else {
        value := None;
      }
    }

    /** A notifier replaces the token of a URI. */
    method NotifyChanged(k: TokenKey)
      requires Valid()
      modifies this
      ensures Valid() && hist == old(hist) + [Changed(k, old(nextToken))] && SameResponses(old(cells), old(origins))
    {
      hide TokenCells, ResponseCells, FreshTokens;
      ghost var e := Changed(k, nextToken);
      ChangeSetsToken(cells, hist, Timeout(), k, nextToken);
      Append(hist, e, k);
      FreshTokensAppend(hist, k, nextToken);
      if |TOKEN_PREFIX| + |k.uri| <= KEY_LIMIT {
        cells := cells[OfToken(k) := Cell(Token(nextToken), clock + Lifetime(expireTime))];
      }
      GrowthKeepsResponses(old(cells), cells, origins, hist, e, Timeout(), principalHandle);
      nextToken, hist := nextToken + 1, hist + [e];
    }

    method AdvanceClock(seconds: nat)
      requires Valid()
      modifies this
      ensures Valid() && hist == old(hist) + [Tick(seconds)] && SameResponses(old(cells), old(origins))
    {
      hide TokenCells, ResponseCells;
      TickKeepsTokens(cells, hist, Timeout(), seconds);
      Append(hist, Tick(seconds), TokenKey(Default, ""));
      GrowthKeepsResponses(cells, cells, origins, hist, Tick(seconds), Timeout(), principalHandle);
      clock, hist := clock + seconds, hist + [Tick(seconds)];
    }

    /** The responses are those of an earlier moment. */
    ghost predicate SameResponses(before: Cells, originsBefore: map<RequestKey, Origin>)
      reads this
    {
      && origins == originsBefore
      && (forall q :: OfRequest(q) in cells <==> OfRequest(q) in before)
      && (forall q :: OfRequest(q) in cells ==> cells[OfRequest(q)] == before[OfRequest(q)])
    }

    /** Other requests run: any resources are changed, and any time passes. */
    method Yield()
      requires Valid()
      modifies this
      ensures Valid() && old(hist) <= hist && SameResponses(old(cells), old(origins))
    {
      var steps: nat := *;
      while steps > 0
        invariant Valid() && old(hist) <= hist && SameResponses(old(cells), old(origins))
      {
        var uri: string, handle: Handle, seconds: nat := *, *, *;
        if * {
          NotifyChanged(TokenKey(handle, uri));
        } else {
          AdvanceClock(seconds);
        }
        steps := steps - 1;
      }
    }

    method TokenForURI(k: TokenKey) returns (token: Option<nat>)
      requires Valid()
      ensures CapturedAt(hist, Timeout(), k, token, |hist|)
    {
      assert hist[..|hist|] == hist;
      var value := Get(OfToken(k));
      token := if value.Some? && value.value.Token? then Some(value.value.token) else None;
    }

    /** The tokens of a request: principal, directory record, resource and recorded children,
        each read at its own time. `captured` says when. */
    method GetTokens(q: RequestKey, directoryToken: nat, response: nat, childURIs: seq<string>)
      returns (e: Entry, ghost captured: map<Guard, nat>)
      requires Valid()
      modifies this
      ensures Valid() && old(hist) <= hist && e.response == response && e.directoryToken == directoryToken
      ensures HasChildren(e, childURIs)
      ensures AllCaptured(hist, Timeout(), principalHandle, q, e, captured, |old(hist)|)
    {
      hide TokenCells, ResponseCells, Current, Clock, FreshTokens, AllCaptured;
      captured := map[OfPrincipal := |hist|];
      var principalToken := TokenForURI(TokenKey(principalHandle, q.principal));
      ghost var before := hist;
      Yield();
      CaptureStays(before, hist, Timeout(), TokenKey(principalHandle, q.principal), principalToken, |before|);
      captured := captured[OfUri := |hist|];
      var uriToken := TokenForURI(TokenKey(Default, q.uri));
      e := Entry(principalToken, directoryToken, uriToken, map[], response);
      OwnCaptured(hist, Timeout(), principalHandle, q, e, captured, |old(hist)|);
      e, captured := TokensForChildren(q, e, captured, childURIs, |old(hist)|);
    }

    method TokensForChildren(q: RequestKey, own: Entry, ghost capturedOwn: map<Guard, nat>, childURIs: seq<string>,
                             ghost start: nat)
      returns (e: Entry, ghost captured: map<Guard, nat>)
      requires Valid() && start <= |hist|
      requires AllCaptured(hist, Timeout(), principalHandle, q, own, capturedOwn, start) && own.childTokens == map[]
      modifies this
      ensures Valid() && old(hist) <= hist && e == own.(childTokens := e.childTokens)
      ensures HasChildren(e, childURIs)
      ensures AllCaptured(hist, Timeout(), principalHandle, q, e, captured, start)
    {
      hide TokenCells, ResponseCells, Current, Clock, FreshTokens, AllCaptured;
      e, captured := own, capturedOwn;
      for i := 0 to |childURIs|
        invariant Valid() && old(hist) <= hist && e == own.(childTokens := e.childTokens)
        invariant HasChildren(e, childURIs[..i])
        invariant AllCaptured(hist, Timeout(), principalHandle, q, e, captured, start)
      {
        ghost var before := hist;
        Yield();
        CapturesStay(before, hist, Timeout(), principalHandle, q, e, captured, start);
        var token := TokenForURI(TokenKey(Default, childURIs[i]));
        CaptureChild(hist, Timeout(), principalHandle, q, e, captured, start, childURIs[i], token);
        captured := captured[OfChild(childURIs[i]) := |hist|];
        e := e.(childTokens := e.childTokens[childURIs[i] := token]);
        assert childURIs[..i + 1] == childURIs[..i] + [childURIs[i]];
      }
      assert childURIs[..|childURIs|] == childURIs;
    }

    /** Answers a request and caches the response, with other requests running before, between and
        after: the response is `made` from the resources first, and its tokens are read then. */
    method RenderHTTP(q: RequestKey, directoryToken: nat, response: nat, childURIs: seq<string>, tooLarge: bool)
      returns (ghost made: nat)
      requires Valid()
      modifies this
      ensures Valid() && |old(hist)| <= made <= |hist| && old(hist) <= hist
      ensures !tooLarge ==> IsCached(q, directoryToken, response, childURIs, made)
    {
      hide TokenCells, ResponseCells, Current, Clock, FreshTokens;
      Yield();
      made := |hist|;
      Yield();
      CacheResponseForRequest(q, directoryToken, response, childURIs, tooLarge, made);
    }

    /** The response is in the cache: made then, stored just now, with the tokens of the recorded
        children among those that were captured in between. */
    ghost predicate IsCached(q: RequestKey, directoryToken: nat, response: nat, childURIs: seq<string>, made: nat)
      reads this
    {
      && OfRequest(q) in cells && cells[OfRequest(q)].value.Response?
      && cells[OfRequest(q)].value.entry.response == response
      && cells[OfRequest(q)].value.entry.directoryToken == directoryToken
      && HasChildren(cells[OfRequest(q)].value.entry, childURIs)
      && q in origins && origins[q].children == childURIs && origins[q].made == made && origins[q].stored == |hist|
      && forall g :: IsGuard(cells[OfRequest(q)].value.entry, g) ==>
           g in origins[q].captured && made <= origins[q].captured[g]
    }

    /** Caches a response under the tokens read for it, with other requests running between the
        reads and before the store. `childURIs` are the URIs recorded for the request; the store
        refuses a value that is `tooLarge`. */
    method CacheResponseForRequest(q: RequestKey, directoryToken: nat, response: nat, childURIs: seq<string>,
                                   tooLarge: bool, ghost made: nat)
      requires Valid() && made <= |hist|
      modifies this
      ensures Valid() && old(hist) <= hist
      ensures !tooLarge ==> IsCached(q, directoryToken, response, childURIs, made)
      ensures !tooLarge ==>
                forall g :: IsGuard(cells[OfRequest(q)].value.entry, g) ==> |old(hist)| <= origins[q].captured[g]
    {
      hide TokenCells, ResponseCells, Current, Clock, FreshTokens;
      ghost var captured;
      var e;
      e, captured := GetTokens(q, directoryToken, response, childURIs);
      ghost var before := hist;
      Yield();
      CapturesStay(before, hist, Timeout(), principalHandle, q, e, captured, |old(hist)|);
      if !tooLarge {
        StoreResponse(q, e, Origin(childURIs, made, captured, |hist|));
      }
    }

    method StoreResponse(q: RequestKey, e: Entry, ghost o: Origin)
      requires Valid() && OriginOk(hist, Timeout(), principalHandle, q, e, o) && o.stored == |hist|
      modifies this
      ensures Valid() && hist == old(hist)
      ensures origins == old(origins)[q := o] && OfRequest(q) in cells && cells[OfRequest(q)].value == Response(e)
    {
      hide LastChange, Clock, OriginOk, FreshTokens;
      assert hist[..|hist|] == hist;
      cells := cells[OfRequest(q) := Cell(Response(e), clock + Lifetime(expireTime))];
      origins := origins[q := o];
      forall k ensures TokenCell(cells, hist, Timeout(), k) {
        assert TokenCell(old(cells), hist, Timeout(), k);
      }
    }

    /** Looks a response up and compares its tokens one by one with the current ones, with other
        requests running in between. `e` is the live entry that was found, `o` says when it was
        captured and stored, and `compared` when each of its tokens was compared. A live entry is
        missed only if a token differs. */
    method GetResponseForRequest(q: RequestKey, directoryToken: nat)
      returns (response: Option<nat>, ghost e: Entry, ghost o: Origin, ghost compared: map<Guard, nat>)
      requires Valid()
      modifies this
      ensures Valid() && old(hist) <= hist
      ensures response.Some? ==>
                && e.response == response.value && e.directoryToken == directoryToken
                && o.stored <= |old(hist)| && Clock(old(hist)) < Clock(old(hist)[..o.stored]) + Timeout()
                && HasChildren(e, o.children)
                && forall g :: IsGuard(e, g) ==>
                     && g in o.captured && g in compared && o.captured[g] <= o.stored && |old(hist)| <= compared[g]
                     && GuardHolds(hist, Timeout(), GuardKey(q, principalHandle, g), o.made, o.captured[g], compared[g])
                     && CapturedAt(hist, Timeout(), GuardKey(q, principalHandle, g), GuardToken(e, g), o.captured[g])
                     && CapturedAt(hist, Timeout(), GuardKey(q, principalHandle, g), GuardToken(e, g), compared[g])
      ensures old(Live(q)) ==> e == old(cells)[OfRequest(q)].value.entry && q in old(origins) && o == old(origins)[q]
      ensures response.Some? ==> old(Live(q))
      ensures old(Live(q)) && response.None? ==>
                directoryToken != e.directoryToken || Mismatch(hist, Timeout(), principalHandle, q, e, compared)
    {
      hide TokenCells, Current, Clock, ResponseCells, Mismatch;
      response, compared := None, map[];
      var value := Get(OfRequest(q));
      if value.None? || !value.value.Response? {
        e, o := Entry(None, 0, None, map[], 0), Origin([], 0, map[], 0);
        return;
      }
      var entry := value.value.entry;
      e := entry;
      o := FoundOrigin(q);
      Yield();
      compared := compared[OfPrincipal := |hist|];
      var principalToken := TokenForURI(TokenKey(principalHandle, q.principal));
      ghost var before := hist;
      Yield();
      CaptureStays(before, hist, Timeout(), TokenKey(principalHandle, q.principal), principalToken, |before|);
      compared := compared[OfUri := |hist|];
      var uriToken := TokenForURI(TokenKey(Default, q.uri));
      if || principalToken != entry.principalToken
         || directoryToken != entry.directoryToken
         || uriToken != entry.uriToken {
        if principalToken != entry.principalToken {
          Mismatched(hist, Timeout(), principalHandle, q, e, compared, OfPrincipal, principalToken);
        } else if uriToken != entry.uriToken {
          Mismatched(hist, Timeout(), principalHandle, q, e, compared, OfUri, uriToken);
        }
        return;
      }
      assert AllRead(hist, Timeout(), principalHandle, q, e, e.childTokens.Keys, compared, |old(hist)|);
      var same;
      same, compared := CompareChildren(q, entry, compared, |old(hist)|);
      if !same {
        return;
      }
      OriginStays(old(hist), hist, Timeout(), principalHandle, q, e, o);
      HitHolds(hist, Timeout(), principalHandle, q, e, o, compared, |old(hist)|);
      response := Some(entry.response);
    }

    /** A request is answered and cached, and after any time and changes it comes again. A hit is
        then that response; and of everything it depends on, each recorded child included, a token
        was captured between the making and the storing and found the same during the lookup. */
    method RenderThenLookUp(q: RequestKey, directoryToken: nat, response: nat, childURIs: seq<string>, later: nat)
      returns (hit: Option<nat>, ghost made: nat, ghost stored: nat, ghost asked: nat)
      requires Valid()
      modifies this
      ensures Valid() && |old(hist)| <= made <= stored <= asked <= |hist|
      ensures hit.Some? ==> hit == Some(response) && later == directoryToken
      ensures hit.Some? ==>
                forall k :: k in Watched(q, principalHandle, childURIs) ==>
                  exists i: nat, r: nat :: i <= stored && asked <= r && GuardHolds(hist, Timeout(), k, made, i, r)
    {
      hide TokenCells, ResponseCells, Current, Clock, FreshTokens, GuardHolds, Watched;
      made := RenderHTTP(q, directoryToken, response, childURIs, false);
      stored := |hist|;
      Yield();
      asked := |hist|;
      ghost var e: Entry, o: Origin, compared: map<Guard, nat>;
      hit, e, o, compared := GetResponseForRequest(q, later);
      if hit.Some? {
        WatchedAreGuards(q, principalHandle, e, childURIs);
      }
    }

    /** Compares the tokens of the recorded children. */
    method CompareChildren(q: RequestKey, entry: Entry, ghost others: map<Guard, nat>, ghost start: nat)
      returns (same: bool, ghost compared: map<Guard, nat>)
      requires Valid() && start <= |hist|
      requires AllRead(hist, Timeout(), principalHandle, q, entry, entry.childTokens.Keys, others, start)
      modifies this
      ensures Valid() && old(hist) <= hist
      ensures same ==> AllRead(hist, Timeout(), principalHandle, q, entry, {}, compared, start)
      ensures !same ==> Mismatch(hist, Timeout(), principalHandle, q, entry, compared)
    {
      hide TokenCells, Current, Clock, ResponseCells, Mismatch;
      compared := others;
      var todo := entry.childTokens.Keys;
      while todo != {}
        invariant Valid() && old(hist) <= hist && todo <= entry.childTokens.Keys
        invariant AllRead(hist, Timeout(), principalHandle, q, entry, todo, compared, start)
        decreases |todo|
      {
        var uri :| uri in todo;
        ghost var before := hist;
        Yield();
        ReadsStay(before, hist, Timeout(), principalHandle, q, entry, todo, compared, start);
        var token := TokenForURI(TokenKey(Default, uri));
        compared := compared[OfChild(uri) := |hist|];
        if token != entry.childTokens[uri] {
          Mismatched(hist, Timeout(), principalHandle, q, entry, compared, OfChild(uri), token);
          return false, compared;
        }
        todo := todo - {uri};
      }
      same := true;
    }

    /** The cache has a response for the request, and it has not expired. */
    ghost predicate Live(q: RequestKey)
      reads this
    {
      OfRequest(q) in cells && Clock(hist) < cells[OfRequest(q)].expires && cells[OfRequest(q)].value.Response?
    }

    ghost method FoundOrigin(q: RequestKey) returns (o: Origin)
      requires Valid() && OfRequest(q) in cells && Clock(hist) < cells[OfRequest(q)].expires
      ensures cells[OfRequest(q)].value.Response? && q in origins && o == origins[q]
      ensures o.stored <= |hist| && Clock(hist) < Clock(hist[..o.stored]) + Timeout()
      ensures OriginOk(hist, Timeout(), principalHandle, q, cells[OfRequest(q)].value.entry, o)
    {
      hide OriginOk;
      o := origins[q];
    }
  }

  lemma CaptureStays(h: History, h': History, timeout: nat, k: TokenKey, token: Option<nat>, i: nat)
    requires CapturedAt(h, timeout, k, token, i) && h <= h'
    ensures CapturedAt(h', timeout, k, token, i)
  {
    assert h'[..i] == h[..i];
  }

  /** Every token of the entry was captured at a position from `start` on. */
  ghost predicate AllCaptured(h: History, timeout: nat, principalHandle: Handle, q: RequestKey, e: Entry,
                              captured: map<Guard, nat>, start: nat) {
    forall g :: IsGuard(e, g) ==>
      g in captured && start <= captured[g] &&
      CapturedAt(h, timeout, GuardKey(q, principalHandle, g), GuardToken(e, g), captured[g])
  }

  lemma OwnCaptured(h: History, timeout: nat, principalHandle: Handle, q: RequestKey, e: Entry,
                    captured: map<Guard, nat>, start: nat)
    requires OfPrincipal in captured && OfUri in captured && start <= captured[OfPrincipal] && start <= captured[OfUri]
    requires CapturedAt(h, timeout, TokenKey(principalHandle, q.principal), e.principalToken, captured[OfPrincipal])
    requires CapturedAt(h, timeout, TokenKey(Default, q.uri), e.uriToken, captured[OfUri])
    requires e.childTokens == map[]
    ensures AllCaptured(h, timeout, principalHandle, q, e, captured, start)
  {
    hide CapturedAt;
  }

  lemma CaptureChild(h: History, timeout: nat, principalHandle: Handle, q: RequestKey, e: Entry,
                     captured: map<Guard, nat>, start: nat, uri: string, token: Option<nat>)
    requires AllCaptured(h, timeout, principalHandle, q, e, captured, start) && start <= |h|
    requires CapturedAt(h, timeout, TokenKey(Default, uri), token, |h|)
    ensures AllCaptured(h, timeout, principalHandle, q, e.(childTokens := e.childTokens[uri := token]),
                        captured[OfChild(uri) := |h|], start)
  {
    hide CapturedAt;
  }

  lemma CapturesStay(h: History, h': History, timeout: nat, principalHandle: Handle, q: RequestKey, e: Entry,
                     captured: map<Guard, nat>, start: nat)
    requires AllCaptured(h, timeout, principalHandle, q, e, captured, start) && h <= h'
    ensures AllCaptured(h', timeout, principalHandle, q, e, captured, start)
  {
    forall g | IsGuard(e, g)
      ensures CapturedAt(h', timeout, GuardKey(q, principalHandle, g), GuardToken(e, g), captured[g])
    {
      CaptureStays(h, h', timeout, GuardKey(q, principalHandle, g), GuardToken(e, g), captured[g]);
    }
  }

  /** Every token of the entry, except those of the children in `todo`, was read from `start` on
      and found to be the entry's. */
  ghost predicate AllRead(h: History, timeout: nat, principalHandle: Handle, q: RequestKey, e: Entry,
                          todo: set<string>, compared: map<Guard, nat>, start: nat) {
    forall g :: IsGuard(e, g) && !(g.OfChild? && g.uri in todo) ==>
      g in compared && start <= compared[g] &&
      CapturedAt(h, timeout, GuardKey(q, principalHandle, g), GuardToken(e, g), compared[g])
  }

  lemma ReadsStay(h: History, h': History, timeout: nat, principalHandle: Handle, q: RequestKey, e: Entry,
                  todo: set<string>, compared: map<Guard, nat>, start: nat)
    requires AllRead(h, timeout, principalHandle, q, e, todo, compared, start) && h <= h'
    ensures AllRead(h', timeout, principalHandle, q, e, todo, compared, start)
  {
    forall g | IsGuard(e, g) && !(g.OfChild? && g.uri in todo)
      ensures CapturedAt(h', timeout, GuardKey(q, principalHandle, g), GuardToken(e, g), compared[g])
    {
      CaptureStays(h, h', timeout, GuardKey(q, principalHandle, g), GuardToken(e, g), compared[g]);
    }
  }

  lemma HitHolds(h: History, timeout: nat, principalHandle: Handle, q: RequestKey, e: Entry, o: Origin,
                 compared: map<Guard, nat>, start: nat)
    requires FreshTokens(h) && OriginOk(h, timeout, principalHandle, q, e, o) && o.stored <= start
    requires AllRead(h, timeout, principalHandle, q, e, {}, compared, start)
    ensures forall g :: IsGuard(e, g) ==>
      GuardHolds(h, timeout, GuardKey(q, principalHandle, g), o.made, o.captured[g], compared[g])
  {
    hide Current;
    forall g | IsGuard(e, g)
      ensures GuardHolds(h, timeout, GuardKey(q, principalHandle, g), o.made, o.captured[g], compared[g])
    {
      MatchedGuardHolds(h, timeout, GuardKey(q, principalHandle, g), GuardToken(e, g), o.made, o.captured[g],
                        compared[g]);
    }
  }
}
