/** The cache of a simulated calendar client, simplugin/caldavclient.py: events are held in one
    index by href and in one index per calendar, and a PROPFIND brings a calendar up to date. */
module CalendarSync {

  import opened Collections

  /** The URL of a resource, up to and with its last slash, and the rest of it. A collection's
      own URL has nothing behind the slash. */
  datatype Href = Href(calendar: string, base: string)

  type Etag = string

  // ----- What the server says -----

  /** A PROPFIND lists resources with their etags, if they have one. */
  type Listing = map<Href, Option<Etag>>

  /** What a multiget has for a resource. */
  datatype Item = Item(status: nat, etag: Etag, scheduleTag: Option<string>, body: string)

  type Answers = map<Href, Item>

  datatype Resource = Resource(etag: Etag, scheduleTag: Option<string>, body: string)

  type Server = map<Href, Resource>

  function ListingOf(server: Server, url: string): Listing {
    (map h | h in server && h.calendar == url :: Some(server[h].etag)) + map[Href(url, "") := None]
  }

  function AnswersOf(server: Server): Answers {
    map h | h in server :: Item(200, server[h].etag, server[h].scheduleTag, server[h].body)
  }

  // ----- What the client holds -----

  datatype Cached = Cached(etag: Option<Etag>, scheduleTag: Option<string>, body: Option<string>)

  const BLANK := Cached(None, None, None)

  type Cache = map<Href, Cached>

  /** Resources without an etag are passed over. */
  predicate Tracked(listing: Listing, h: Href) {
    h in listing && h.base != "" && listing[h].Some?
  }

  /** The cache once the listed resources in `seen` have an entry each. */
  function Blanked(c: Cache, listing: Listing, seen: set<Href>): Cache {
    map h | h in c.Keys + (set g | g in seen && Tracked(listing, g)) :: if h in c then c[h] else BLANK
  }

  predicate Differs(c: Cache, listing: Listing, h: Href) {
    Tracked(listing, h) && (h in c ==> c[h].etag != listing[h])
  }

  function Fetched(e: Cached, i: Item): Cached {
    Cached(Some(i.etag), if i.scheduleTag.Some? then i.scheduleTag else e.scheduleTag, Some(i.body))
  }

  /** The entry has what the answer says; a schedule tag stays if the answer has none. */
  ghost predicate IsAnswer(now: Cached, was: Cached, i: Item) {
    && now.etag == Some(i.etag) && now.body == Some(i.body)
    && (i.scheduleTag.Some? ==> now.scheduleTag == i.scheduleTag)
    && (i.scheduleTag.None? ==> now.scheduleTag == was.scheduleTag)
  }

  predicate Answered(answers: Answers, h: Href) {
    h in answers && answers[h].status == 200
  }

  function Updated(c: Cache, hrefs: set<Href>, answers: Answers): Cache {
    map h | h in c :: if h in hrefs && Answered(answers, h) then Fetched(c[h], answers[h]) else c[h]
  }

  function Without(c: Cache, hrefs: set<Href>): Cache {
    map h | h in c && h !in hrefs :: c[h]
  }

  function InCalendar(c: Cache, url: string): set<Href> {
    set h | h in c && h.calendar == url
  }

  function Reported(listing: Listing): set<Href> {
    set h | h in listing && h.base != ""
  }

  function Changes(c: Cache, listing: Listing): set<Href> {
    set h | h in listing && Differs(c, listing, h)
  }

  /** The cache after a listing has been applied to it. */
  function Applied(c: Cache, listing: Listing, answers: Answers, previous: set<Href>): Cache {
    Without(Updated(Blanked(c, listing, listing.Keys), Changes(c, listing), answers), previous - Reported(listing))
  }

  /** The cache after a sync of one calendar. */
  function Synced(c: Cache, url: string, listing: Listing, answers: Answers): Cache {
    Applied(c, listing, answers, InCalendar(c, url))
  }

  function SyncedWith(c: Cache, url: string, server: Server): Cache {
    Synced(c, url, ListingOf(server, url), AnswersOf(server))
  }

  ghost predicate Proper(server: Server) {
    forall h :: h in server ==> h.base != ""
  }

  function EntryOf(c: Cache, h: Href): Cached {
    if h in c then c[h] else BLANK
  }

  /** What a listing does to the entry of one href. */
  lemma AppliedAt(c: Cache, listing: Listing, answers: Answers, previous: set<Href>, h: Href)
    ensures var r := Applied(c, listing, answers, previous);
      var tracked := h in listing && h.base != "" && listing[h].Some?;
      var stale := tracked && !(h in c && c[h].etag == listing[h]);
      var answered := h in answers && answers[h].status == 200;
      && (h in r <==> (h in c || tracked) && (h in previous ==> h in listing && h.base != ""))
      && (h in r && stale && answered ==> IsAnswer(r[h], EntryOf(c, h), answers[h]))
      && (h in r && !(stale && answered) ==> if h in c then r[h] == c[h] else r[h] == Cached(None, None, None))
  {
  }

  /** After a sync the calendar has exactly the server's resources, with their etags; a body is
      the server's exactly if it was before, or if the etag had changed. Other calendars are as
      they were. */
  lemma SyncExactly(c: Cache, url: string, server: Server, h: Href)
    requires Proper(server)
    ensures var r := SyncedWith(c, url, server);
      && (h.calendar == url ==> (h in r <==> h in server))
      && (h.calendar == url && h in r ==> r[h].etag == Some(server[h].etag))
      && (h.calendar == url && h in r ==>
            (r[h].body == Some(server[h].body) <==>
              (h in c && c[h].etag == Some(server[h].etag) ==> c[h].body == Some(server[h].body))))
      && (h.calendar != url ==> (h in r <==> h in c) && (h in r ==> r[h] == c[h]))
  {
    hide Applied;
    AppliedAt(c, ListingOf(server, url), AnswersOf(server), InCalendar(c, url), h);
  }

  // ----- Many syncs -----

  /** Etags change with bodies: an href's etag tells its body, whenever it is asked for. */
  type Versions = (Href, Etag) -> string

  ghost predicate Truthful(c: Cache, v: Versions) {
    forall h :: h in c && c[h].etag.Some? ==> c[h].body == Some(v(h, c[h].etag.value))
  }

  ghost predicate Versioned(server: Server, v: Versions) {
    Proper(server) && forall h :: h in server ==> server[h].body == v(h, server[h].etag)
  }

  /** A sync of one calendar with the server as it then was. */
  datatype Sync = Sync(url: string, server: Server)

  function After(syncs: seq<Sync>): Cache {
    if syncs == [] then map[]
    else SyncedWith(After(syncs[..|syncs| - 1]), syncs[|syncs| - 1].url, syncs[|syncs| - 1].server)
  }

  /** The server when a calendar was last synced; before that, as good as empty. */
  function LastSeen(syncs: seq<Sync>, url: string): Server {
    if syncs == [] then map[]
    else if syncs[|syncs| - 1].url == url then syncs[|syncs| - 1].server
    else LastSeen(syncs[..|syncs| - 1], url)
  }

  lemma SyncStaysTruthful(c: Cache, url: string, server: Server, v: Versions)
    requires Truthful(c, v) && Versioned(server, v)
    ensures Truthful(SyncedWith(c, url, server), v)
  {
    hide SyncedWith;
    forall h | h in SyncedWith(c, url, server) && SyncedWith(c, url, server)[h].etag.Some?
      ensures SyncedWith(c, url, server)[h].body == Some(v(h, SyncedWith(c, url, server)[h].etag.value))
    {
      SyncExactly(c, url, server, h);
    }
  }

  lemma {:induction false} RunsStayTruthful(syncs: seq<Sync>, v: Versions)
    requires forall i :: 0 <= i < |syncs| ==> Versioned(syncs[i].server, v)
    ensures Truthful(After(syncs), v)
  {
    hide SyncedWith;
    if syncs != [] {
      RunsStayTruthful(syncs[..|syncs| - 1], v);
      SyncStaysTruthful(After(syncs[..|syncs| - 1]), syncs[|syncs| - 1].url, syncs[|syncs| - 1].server, v);
    }
  }

  /** Convergence: however the server changed between the syncs of however many calendars, the
      client holds, of every calendar, the resources, etags and bodies that the server had when
      the calendar was last synced. */
  lemma {:induction false} RunsConverge(syncs: seq<Sync>, v: Versions, h: Href)
    requires forall i :: 0 <= i < |syncs| ==> Versioned(syncs[i].server, v)
    ensures h in After(syncs) <==> h in LastSeen(syncs, h.calendar)
    ensures h in After(syncs) ==> var r := LastSeen(syncs, h.calendar)[h];
      After(syncs)[h].etag == Some(r.etag) && After(syncs)[h].body == Some(r.body)
  {
    hide SyncedWith;
    if syncs != [] {
      var front, last := syncs[..|syncs| - 1], syncs[|syncs| - 1];
      RunsConverge(front, v, h);
      RunsStayTruthful(front, v);
      SyncExactly(After(front), last.url, last.server, h);
    }
  }

  // ----- Batches -----

  function Flat(batches: seq<seq<Href>>): seq<Href> {
    if batches == [] then [] else Flat(batches[..|batches| - 1]) + batches[|batches| - 1]
  }

  /** The characters of an href's URL. */
  function Codes(h: Href): (s: seq<int>)
    ensures |s| == |h.calendar| + |h.base|
    ensures forall i :: 0 <= i < |h.calendar| ==> s[i] == h.calendar[i] as int
    ensures forall i :: 0 <= i < |h.base| ==> s[|h.calendar| + i] == h.base[i] as int
  {
    var url := h.calendar + h.base;
    seq(|url|, i requires 0 <= i < |url| => url[i] as int)
  }

  /** `h` does not come before `g`, by the first character in which they differ. */
  ghost predicate AtMost(g: Href, h: Href) {
    !Less(Codes(h), Codes(g))
  }

  ghost predicate InOrder(s: seq<Href>) {
    forall i, j :: 0 <= i < j < |s| ==> AtMost(s[i], s[j])
  }

  lemma AtMostTransitive(f: Href, g: Href, h: Href)
    requires AtMost(f, g) && AtMost(g, h)
    ensures AtMost(f, h)
  {
    hide Less, Codes;
    LessIsTotal(Codes(f), Codes(g));
    LessIsTotal(Codes(g), Codes(h));
    LessIsTotal(Codes(f), Codes(h));
    if Less(Codes(f), Codes(g)) && Less(Codes(g), Codes(h)) {
      LessIsTransitive(Codes(f), Codes(g), Codes(h));
    }
  }

  method InsertHref(s: seq<Href>, h: Href) returns (more: seq<Href>)
    requires InOrder(s)
    ensures InOrder(more) && multiset(more) == multiset(s) + multiset{h}
  {
    hide Before, Less, Codes;
    var i := 0;
    while i < |s| && Before(Codes(s[i]), Codes(h))
      invariant i <= |s| && forall j :: 0 <= j < i ==> AtMost(s[j], h)
    {
      BeforeIsLess(Codes(s[i]), Codes(h));
      LessIsTotal(Codes(s[i]), Codes(h));
      i := i + 1;
    }
    forall j | i <= j < |s|
      ensures AtMost(h, s[j])
    {
      BeforeIsLess(Codes(s[i]), Codes(h));
      if j > i {
        AtMostTransitive(h, s[i], s[j]);
      }
    }
    more := s[..i] + [h] + s[i..];
    assert s == s[..i] + s[i..];
  }

  method SortHrefs(s: seq<Href>) returns (r: seq<Href>)
    ensures InOrder(r) && multiset(r) == multiset(s)
  {
    hide AtMost;
    r := [];
    for i := 0 to |s|
      invariant InOrder(r) && multiset(r) == multiset(s[..i])
    {
      r := InsertHref(r, s[i]);
      assert s[..i + 1] == s[..i] + [s[i]];
    }
    assert s[..|s|] == s;
  }

  // ----- The client's objects -----

  class Event {
    const url: Href
    var etag: Option<Etag>
    var scheduleTag: Option<string>
    var component: Option<string>

    constructor (url: Href, etag: Option<Etag>)
      ensures this.url == url && Value() == Cached(etag, None, None)
    {
      this.url, this.etag, scheduleTag, component := url, etag, None, None;
    }

    ghost function Value(): Cached
      reads this
    {
      Cached(etag, scheduleTag, component)
    }

    method Change(etag: Etag, scheduleTag: Option<string>, body: string)
      modifies this
      ensures Value() == Fetched(old(Value()), Item(200, etag, scheduleTag, body))
    {
      this.etag := Some(etag);
      if scheduleTag.Some? {
        this.scheduleTag := scheduleTag;
      }
      component := Some(body);
    }

    /** The data kept for the event is deleted. */
    method Removed()
      modifies this`component
      ensures component == None
    {
      component := None;
    }
  }

  class Calendar {
    const url: string
    var changeToken: string
    var events: map<string, Event>

    constructor (url: string)
      ensures this.url == url && changeToken == "" && events == map[]
    {
      this.url, changeToken, events := url, "", map[];
    }
  }

  /** `c` is what the events hold; no event is held under two hrefs. */
  ghost predicate Holds(events: map<Href, Event>, repr: set<Event>, c: Cache)
    reads repr
  {
    && events.Keys == c.Keys
    && (forall h :: h in events ==> events[h] in repr && events[h].url == h)
    && (forall h :: h in events ==> events[h].Value() == c[h])
  }

  ghost predicate OwnCalendars(calendars: map<string, Calendar>, repr: set<Calendar>) {
    forall u :: u in calendars ==> calendars[u] in repr && calendars[u].url == u
  }

  /** The two kinds of index hold the same events. */
  ghost predicate Indexed(events: map<Href, Event>, calendars: map<string, Calendar>, repr: set<Calendar>)
    requires OwnCalendars(calendars, repr)
    reads repr
  {
    && (forall h :: h in events ==> h.calendar in calendars && h.base in calendars[h.calendar].events)
    && (forall h :: h in events ==> calendars[h.calendar].events[h.base] == events[h])
    && (forall u, b :: u in calendars && b in calendars[u].events ==> Href(u, b) in events)
  }

  function SetOf(s: seq<Href>): set<Href> {
    set h | h in s
  }

  lemma HoldsAt(events: map<Href, Event>, repr: set<Event>, c: Cache, h: Href)
    requires Holds(events, repr, c)
    ensures h in events <==> h in c
    ensures h in events ==> events[h] in repr && events[h].Value() == c[h]
  {
  }

  lemma IndexedAt(events: map<Href, Event>, calendars: map<string, Calendar>, repr: set<Calendar>, h: Href)
    requires OwnCalendars(calendars, repr) && Indexed(events, calendars, repr)
    ensures h in events ==> h.calendar in calendars && calendars[h.calendar] in repr
  {
  }

  lemma UpdatedMore(c: Cache, hrefs: set<Href>, answers: Answers, h: Href)
    requires h in c
    ensures var u := Updated(c, hrefs, answers);
      Updated(c, hrefs + {h}, answers) == if Answered(answers, h) then u[h := Fetched(u[h], answers[h])] else u
  {
  }

  lemma BlankedMore(c: Cache, listing: Listing, seen: set<Href>, h: Href)
    ensures var b := Blanked(c, listing, seen);
      Blanked(c, listing, seen + {h}) == if Tracked(listing, h) && h !in b then b[h := BLANK] else b
  {
  }

  lemma NoneBlanked(c: Cache, listing: Listing)
    ensures Blanked(c, listing, {}) == c
  {
  }

  lemma BlankedDiffers(c: Cache, listing: Listing, seen: set<Href>, h: Href)
    requires h in seen && h in listing
    ensures Tracked(listing, h) ==> h in Blanked(c, listing, seen)
    ensures h in Changes(c, listing) <==> Tracked(listing, h) && Blanked(c, listing, seen)[h].etag != listing[h]
  {
  }

  /** The listed resources but those in `todo` have been compared. */
  ghost predicate Compared(before: Cache, listing: Listing, todo: set<Href>, c: Cache, changed: seq<Href>) {
    && c == Blanked(before, listing, listing.Keys - todo)
    && multiset(changed) == multiset(Changes(before, listing) - todo)
  }

  lemma NothingCompared(before: Cache, listing: Listing)
    ensures Compared(before, listing, listing.Keys, before, [])
  {
    NoneBlanked(before, listing);
    assert Changes(before, listing) - listing.Keys == {};
    assert listing.Keys - listing.Keys == {};
  }

  lemma AllCompared(before: Cache, listing: Listing, c: Cache, changed: seq<Href>)
    requires Compared(before, listing, {}, c, changed)
    ensures c == Blanked(before, listing, listing.Keys) && multiset(changed) == multiset(Changes(before, listing))
  {
    hide Blanked, Changes;
    assert listing.Keys - {} == listing.Keys;
    assert Changes(before, listing) - {} == Changes(before, listing);
  }

  lemma ChangesAre(c: Cache, listing: Listing, changed: seq<Href>)
    requires multiset(changed) == multiset(Changes(c, listing))
    ensures forall h :: h in changed <==>
              h in listing && h.base != "" && listing[h].Some? && !(h in c && c[h].etag == listing[h])
  {
    SameSet(changed, Changes(c, listing));
    assert forall h :: h in changed <==> h in SetOf(changed);
  }

  lemma ComparedMore(before: Cache, listing: Listing, todo: set<Href>, was: Cache, c: Cache, changed: seq<Href>,
                     h: Href)
    requires Compared(before, listing, todo, was, changed) && h in todo && todo <= listing.Keys
    requires c == if Tracked(listing, h) && h !in was then was[h := BLANK] else was
    ensures Tracked(listing, h) ==> h in c
    ensures var differs := Tracked(listing, h) && c[h].etag != listing[h];
      Compared(before, listing, todo - {h}, c, if differs then changed + [h] else changed)
  {
    hide Blanked, Changes;
    var seen := listing.Keys - todo;
    assert listing.Keys - (todo - {h}) == seen + {h};
    BlankedMore(before, listing, seen, h);
    BlankedDiffers(before, listing, seen + {h}, h);
    TakeOne(Changes(before, listing), todo, h);
  }

  lemma ReportedIs(listing: Listing)
    ensures Reported(listing) == set h | h in listing && h.base != ""
  {
  }

  lemma SameElements(s: seq<Href>, t: seq<Href>)
    requires multiset(s) == multiset(t)
    ensures SetOf(s) == SetOf(t) && forall h :: h in s <==> h in t
  {
    assert forall h :: h in s <==> h in multiset(s);
    assert forall h :: h in t <==> h in multiset(t);
  }

  lemma SameSet(s: seq<Href>, all: set<Href>)
    requires multiset(s) == multiset(all)
    ensures SetOf(s) == all
  {
    assert forall h :: h in s <==> h in multiset(s);
  }

  lemma ChangesKnown(before: Cache, listing: Listing, changed: seq<Href>, previous: set<Href>)
    requires multiset(changed) == multiset(Changes(before, listing))
    requires forall h :: h in previous ==> h in before
    ensures var b := Blanked(before, listing, listing.Keys);
      (forall h :: h in changed ==> h in b) && forall h :: h in previous ==> h in b
  {
    SameSet(changed, Changes(before, listing));
    assert forall h :: h in changed ==> h in SetOf(changed);
  }

  /** The hrefs that a multiget has something for, in order. */
  function AnsweredIn(s: seq<Href>, answers: Answers): seq<Href> {
    if s == [] then []
    else AnsweredIn(s[..|s| - 1], answers) + if Answered(answers, s[|s| - 1]) then [s[|s| - 1]] else []
  }

  lemma {:induction false} AnsweredExactly(s: seq<Href>, answers: Answers, h: Href)
    ensures h in AnsweredIn(s, answers) <==> h in s && h in answers && answers[h].status == 200
  {
    if s != [] {
      AnsweredExactly(s[..|s| - 1], answers, h);
      assert s == s[..|s| - 1] + [s[|s| - 1]];
    }
  }

  lemma AnsweredMore(s: seq<Href>, i: nat, answers: Answers)
    requires i < |s|
    ensures AnsweredIn(s[..i + 1], answers) ==
      if Answered(answers, s[i]) then AnsweredIn(s[..i], answers) + [s[i]] else AnsweredIn(s[..i], answers)
  {
    assert s[..i + 1][..i] == s[..i];
  }

  lemma {:induction false} AnsweredJoins(a: seq<Href>, b: seq<Href>, answers: Answers)
    ensures AnsweredIn(a + b, answers) == AnsweredIn(a, answers) + AnsweredIn(b, answers)
  {
    if b == [] {
      assert a + b == a;
    } else {
      AnsweredJoins(a, b[..|b| - 1], answers);
      assert (a + b)[..|a + b| - 1] == a + b[..|b| - 1];
    }
  }

  lemma NothingUpdated(c: Cache, answers: Answers)
    ensures Updated(c, SetOf([]), answers) == c && AnsweredIn([], answers) == []
  {
  }

  lemma UpdatedKeys(c: Cache, hrefs: set<Href>, answers: Answers)
    ensures Updated(c, hrefs, answers).Keys == c.Keys
  {
  }

  lemma UpdatedAt(c: Cache, batch: seq<Href>, answers: Answers)
    ensures var u := Updated(c, SetOf(batch), answers);
      && u.Keys == c.Keys
      && forall h :: h in c ==>
           if h in batch && h in answers && answers[h].status == 200 then IsAnswer(u[h], c[h], answers[h])
           else u[h] == c[h]
  {
  }

  lemma UpdatedTwice(c: Cache, a: seq<Href>, b: seq<Href>, answers: Answers)
    ensures Updated(Updated(c, SetOf(a), answers), SetOf(b), answers) == Updated(c, SetOf(a + b), answers)
  {
  }

  lemma FlatMore(batches: seq<seq<Href>>, batch: seq<Href>)
    ensures Flat(batches + [batch]) == Flat(batches) + batch
  {
    assert (batches + [batch])[..|batches|] == batches;
  }

  lemma WithoutNothing(c: Cache)
    ensures Without(c, {}) == c
  {
  }

  lemma WithoutMore(c: Cache, hrefs: set<Href>, h: Href)
    ensures Without(Without(c, hrefs), {h}) == Without(c, hrefs + {h})
    ensures h in Without(c, hrefs) <==> h in c && h !in hrefs
  {
  }

  method ChangeEvent(events: map<Href, Event>, ghost repr: set<Event>, ghost c: Cache,
                     href: Href, etag: Etag, scheduleTag: Option<string>, body: string)
    requires Holds(events, repr, c) && href in events
    modifies events[href]
    ensures Holds(events, repr, c[href := Fetched(c[href], Item(200, etag, scheduleTag, body))])
  {
    hide Fetched;
    events[href].Change(etag, scheduleTag, body);
    assert forall h :: h in events && h != href ==> events[h] != events[href];
  }

  method DropEvent(events: map<Href, Event>, ghost repr: set<Event>, ghost c: Cache, href: Href)
    requires Holds(events, repr, c) && href in events
    modifies events[href]
    ensures Holds(events - {href}, repr, Without(c, {href}))
  {
    events[href].Removed();
    assert forall h :: h in events && h != href ==> events[h] != events[href];
  }

  lemma HoldsMore(events: map<Href, Event>, repr: set<Event>, c: Cache, href: Href, event: Event)
    requires Holds(events, repr, c) && event.url == href
    ensures Holds(events[href := event], repr + {event}, c[href := event.Value()])
  {
  }

  method FileEvent(ghost events: map<Href, Event>, calendars: map<string, Calendar>, ghost repr: set<Calendar>,
                   href: Href, event: Event)
    requires OwnCalendars(calendars, repr) && Indexed(events, calendars, repr) && href.calendar in calendars
    modifies calendars[href.calendar]
    ensures Indexed(events[href := event], calendars, repr)
    ensures calendars[href.calendar].changeToken == old(calendars[href.calendar].changeToken)
  {
    var calendar := calendars[href.calendar];
    calendar.events := calendar.events[href.base := event];
    assert forall u :: u in calendars && u != href.calendar ==> calendars[u] != calendar;
  }

  method UnfileEvent(ghost events: map<Href, Event>, calendars: map<string, Calendar>, ghost repr: set<Calendar>,
                     href: Href)
    requires OwnCalendars(calendars, repr) && Indexed(events, calendars, repr) && href in events
    modifies calendars[href.calendar]
    ensures Indexed(events - {href}, calendars, repr)
    ensures calendars[href.calendar].changeToken == old(calendars[href.calendar].changeToken)
  {
    var calendar := calendars[href.calendar];
    calendar.events := calendar.events - {href.base};
    assert forall u :: u in calendars && u != href.calendar ==> calendars[u] != calendar;
  }

  class BaseAppleClient {
    var events: map<Href, Event>
    var calendars: map<string, Calendar>
    var issued: seq<Href>
    const multigetBatchSize: nat
    ghost var eventRepr: set<Event>
    ghost var calendarRepr: set<Calendar>
    ghost var contents: Cache

    constructor (batchSize: nat)
      requires batchSize > 0
      ensures Valid() && contents == map[] && calendars == map[]
    {
      events, calendars, issued, multigetBatchSize := map[], map[], [], batchSize;
      eventRepr, calendarRepr, contents := {}, {}, map[];
    }

    ghost predicate Valid()
      reads this, eventRepr, calendarRepr
    {
      && multigetBatchSize > 0
      && Holds(events, eventRepr, contents)
      && OwnCalendars(calendars, calendarRepr)
      && Indexed(events, calendars, calendarRepr)
    }

    function Home(h: Href): Calendar
      requires h.calendar in calendars
      reads this
    {
      calendars[h.calendar]
    }

    function At(h: Href): Event
      requires h in events
      reads this
    {
      events[h]
    }

    method SetEvent(href: Href, event: Event)
      requires Valid() && event.url == href && href.calendar in calendars
      modifies this`events, this`eventRepr, this`contents, Home(href)
      ensures Home(href).changeToken == old(Home(href).changeToken)
      ensures Valid() && eventRepr == old(eventRepr) + {event}
      ensures contents == old(contents)[href := event.Value()]
    {
      hide Holds, Indexed;
      HoldsMore(events, eventRepr, contents, href, event);
      FileEvent(events, calendars, calendarRepr, href, event);
      events := events[href := event];
      eventRepr, contents := eventRepr + {event}, contents[href := event.Value()];
    }

    method RemoveEvent(href: Href)
      requires Valid() && href in events
      modifies this`events, this`contents, At(href), Home(href)
      ensures Home(href).changeToken == old(Home(href).changeToken)
      ensures Valid()
      ensures contents == Without(old(contents), {href})
    {
      hide Holds, Without, Indexed;
      IndexedAt(events, calendars, calendarRepr, href);
      HoldsAt(events, eventRepr, contents, href);
      DropEvent(events, eventRepr, contents, href);
      UnfileEvent(events, calendars, calendarRepr, href);
      events := events - {href};
      contents := Without(contents, {href});
    }

    method EventChanged(href: Href, etag: Etag, scheduleTag: Option<string>, body: string)
      requires Valid() && href in events
      modifies this`issued, this`contents, At(href)
      ensures Valid() && issued == old(issued) + [href]
      ensures href in old(contents) && contents == old(contents)[href := contents[href]]
      ensures IsAnswer(contents[href], old(contents)[href], Item(200, etag, scheduleTag, body))
      ensures contents == old(contents)[href := Fetched(old(contents)[href], Item(200, etag, scheduleTag, body))]
    {
      hide Holds, Indexed, OwnCalendars;
      HoldsAt(events, eventRepr, contents, href);
      ChangeEvent(events, eventRepr, contents, href, etag, scheduleTag, body);
      contents := contents[href := Fetched(contents[href], Item(200, etag, scheduleTag, body))];
      issued := issued + [href];
    }

    lemma HomeKnown(h: Href)
      requires Valid() && h.calendar in calendars
      ensures Home(h) in calendarRepr
    {
    }

    method CompareOne(listing: Listing, h: Href) returns (differs: bool)
      requires Valid() && h in listing && h.calendar in calendars
      modifies this`events, this`eventRepr, this`contents, Home(h)
      ensures Valid() && fresh(eventRepr - old(eventRepr)) && old(eventRepr) <= eventRepr
      ensures Home(h).changeToken == old(Home(h).changeToken)
      ensures contents ==
                if Tracked(listing, h) && h !in old(contents) then old(contents)[h := BLANK] else old(contents)
      ensures differs <==> Tracked(listing, h) && contents[h].etag != listing[h]
    {
      hide Holds, Indexed;
      if h.base == "" || listing[h].None? {
        return false;
      }
      HoldsAt(events, eventRepr, contents, h);
      if h !in events {
        var event := new Event(h, None);
        SetEvent(h, event);
      }
      HoldsAt(events, eventRepr, contents, h);
      differs := events[h].etag != listing[h];
    }

    /** Everything listed gets an entry, blank if it is new; returns what differs. */
    method Compare(listing: Listing) returns (changed: seq<Href>)
      requires Valid()
      requires forall h :: h in listing ==> h.calendar in calendars
      modifies this`events, this`eventRepr, this`contents, calendarRepr
      ensures Valid() && fresh(eventRepr - old(eventRepr)) && old(eventRepr) <= eventRepr
      ensures contents == Blanked(old(contents), listing, listing.Keys)
      ensures multiset(changed) == multiset(Changes(old(contents), listing))
      ensures forall h :: h in changed <==>
                && h in listing && h.base != "" && listing[h].Some?
                && !(h in old(contents) && old(contents)[h].etag == listing[h])
      ensures forall c :: c in calendarRepr ==> c.changeToken == old(c.changeToken)
    {
      hide Valid, Compared, Tracked, Blanked, Changes;
      ghost var before := contents;
      var todo := listing.Keys;
      changed := [];
      NothingCompared(before, listing);
      while todo != {}
        invariant Valid() && todo <= listing.Keys
        invariant fresh(eventRepr - old(eventRepr)) && old(eventRepr) <= eventRepr
        invariant Compared(before, listing, todo, contents, changed)
        invariant forall c :: c in calendarRepr ==> c.changeToken == old(c.changeToken)
        decreases |todo|
      {
        var h :| h in todo;
        HomeKnown(h);
        ghost var was := contents;
        var differs := CompareOne(listing, h);
        ComparedMore(before, listing, todo, was, contents, changed, h);
        if differs {
          changed := changed + [h];
        }
        todo := todo - {h};
      }
      AllCompared(before, listing, contents, changed);
      ChangesAre(before, listing, changed);
    }

    lemma EventKnown(h: Href)
      requires Valid()
      ensures h in events <==> h in contents
      ensures h in events ==> events[h] in eventRepr
    {
    }

    /** One multiget; resources that are gone, or whose status is not 200, stay as they are. */
    method FetchBatch(batch: seq<Href>, answers: Answers)
      requires Valid() && forall h :: h in batch ==> h in contents
      modifies this`issued, this`contents, eventRepr
      ensures Valid() && contents == Updated(old(contents), SetOf(batch), answers)
      ensures issued == old(issued) + AnsweredIn(batch, answers)
      ensures contents.Keys == old(contents).Keys
      ensures forall h :: h in contents ==>
                if h in batch && h in answers && answers[h].status == 200
                then IsAnswer(contents[h], old(contents)[h], answers[h])
                else contents[h] == old(contents)[h]
      ensures forall h :: h in issued[|old(issued)|..] <==> h in batch && h in answers && answers[h].status == 200
    {
      hide Valid, Updated, AnsweredIn;
      ghost var before := contents;
      NothingUpdated(before, answers);
      for i := 0 to |batch|
        invariant Valid() && contents == Updated(before, SetOf(batch[..i]), answers)
        invariant issued == old(issued) + AnsweredIn(batch[..i], answers)
      {
        var h := batch[i];
        assert batch[..i + 1] == batch[..i] + [h] && SetOf(batch[..i + 1]) == SetOf(batch[..i]) + {h};
        UpdatedMore(before, SetOf(batch[..i]), answers, h);
        UpdatedKeys(before, SetOf(batch[..i]), answers);
        AnsweredMore(batch, i, answers);
        EventKnown(h);
        if h in answers {
          var res := answers[h];
          if res.status == 200 {
            EventChanged(h, res.etag, res.scheduleTag, res.body);
          }
        }
      }
      assert batch[..|batch|] == batch;
      UpdatedAt(before, batch, answers);
      forall h { AnsweredExactly(batch, answers, h); }
    }

    /** The loop over the batches. */
    method FetchBatches(hrefs: seq<Href>, answers: Answers) returns (batches: seq<seq<Href>>)
      requires Valid() && forall h :: h in hrefs ==> h in contents
      modifies this`issued, this`contents, eventRepr
      ensures Valid() && contents == Updated(old(contents), SetOf(hrefs), answers)
      ensures issued == old(issued) + AnsweredIn(hrefs, answers)
      ensures Flat(batches) == hrefs
      ensures forall i :: 0 <= i < |batches| ==> 0 < |batches[i]| <= multigetBatchSize
    {
      hide Updated, AnsweredIn, Holds, Indexed;
      ghost var before := contents;
      NothingUpdated(before, answers);
      batches := [];
      var rest := hrefs;
      ghost var done := [];
      while rest != []
        invariant Valid() && done + rest == hrefs && Flat(batches) == done
        invariant contents == Updated(before, SetOf(done), answers)
        invariant issued == old(issued) + AnsweredIn(done, answers)
        invariant forall i :: 0 <= i < |batches| ==> 0 < |batches[i]| <= multigetBatchSize
        decreases |rest|
      {
        var size := if |rest| < multigetBatchSize then |rest| else multigetBatchSize;
        var batch := rest[..size];
        rest := rest[size..];
        UpdatedKeys(before, SetOf(done), answers);
        FetchBatch(batch, answers);
        UpdatedTwice(before, done, batch, answers);
        AnsweredJoins(done, batch, answers);
        done := done + batch;
        FlatMore(batches, batch);
        batches := batches + [batch];
      }
      assert done == hrefs;
    }

    /** The hrefs are sorted and fetched in batches, each of them in exactly one. */
    method UpdateChangedEvents(changed: seq<Href>, answers: Answers) returns (batches: seq<seq<Href>>)
      requires Valid() && forall h :: h in changed ==> h in contents
      modifies this`issued, this`contents, eventRepr
      ensures Valid() && contents == Updated(old(contents), SetOf(changed), answers)
      ensures InOrder(Flat(batches)) && multiset(Flat(batches)) == multiset(changed)
      ensures issued == old(issued) + AnsweredIn(Flat(batches), answers)
      ensures forall i :: 0 <= i < |batches| ==> 0 < |batches[i]| <= multigetBatchSize
    {
      hide Valid, Updated, AnsweredIn, InOrder, SetOf, Flat;
      var hrefs := SortHrefs(changed);
      SameElements(hrefs, changed);
      batches := FetchBatches(hrefs, answers);
    }

    method RemoveAll(hrefs: set<Href>)
      requires Valid() && forall h :: h in hrefs ==> h in contents
      modifies this`events, this`contents, eventRepr, calendarRepr
      ensures Valid() && contents == Without(old(contents), hrefs)
      ensures forall c :: c in calendarRepr ==> c.changeToken == old(c.changeToken)
    {
      hide Valid, Without;
      ghost var before := contents;
      var todo := hrefs;
      WithoutNothing(before);
      assert hrefs - todo == {};
      while todo != {}
        invariant Valid() && todo <= hrefs
        invariant contents == Without(before, hrefs - todo)
        invariant forall c :: c in calendarRepr ==> c.changeToken == old(c.changeToken)
        decreases |todo|
      {
        var h :| h in todo;
        WithoutMore(before, hrefs - todo, h);
        assert hrefs - (todo - {h}) == hrefs - todo + {h};
        EventHome(h);
        RemoveEvent(h);
        todo := todo - {h};
      }
      assert hrefs - todo == hrefs;
    }

    lemma EventHome(h: Href)
      requires Valid() && h in contents
      ensures h in events && events[h] in eventRepr && h.calendar in calendars && Home(h) in calendarRepr
    {
    }

    /** Returns the multigets that were sent. */
    method UpdateApplyChanges(calendar: Calendar, listing: Listing, answers: Answers, oldHrefs: set<Href>)
      returns (batches: seq<seq<Href>>)
      requires Valid() && calendar.url in calendars && calendars[calendar.url] == calendar
      requires forall h :: h in listing ==> h.calendar == calendar.url
      requires forall h :: h in oldHrefs ==> h in contents
      modifies this`events, this`eventRepr, this`contents, this`issued, eventRepr, calendarRepr
      ensures Valid() && fresh(eventRepr - old(eventRepr)) && old(eventRepr) <= eventRepr
      ensures contents == Applied(old(contents), listing, answers, oldHrefs)
      ensures InOrder(Flat(batches)) && multiset(Flat(batches)) == multiset(Changes(old(contents), listing))
      ensures forall i :: 0 <= i < |batches| ==> 0 < |batches[i]| <= multigetBatchSize
      ensures forall c :: c in calendarRepr ==> c.changeToken == old(c.changeToken)
    {
      hide Valid, Updated, Blanked, Changes, Without, Reported, InOrder, Flat;
      ghost var before := contents;
      var changed := Compare(listing);
      ChangesKnown(before, listing, changed, oldHrefs);
      batches := UpdateChangedEvents(changed, answers);
      SameSet(changed, Changes(before, listing));
      UpdatedKeys(Blanked(before, listing, listing.Keys), SetOf(changed), answers);
      var allHrefs := set h | h in listing && h.base != "";
      assert allHrefs == Reported(listing) by { ReportedIs(listing); }
      RemoveAll(oldHrefs - allHrefs);
    }

    /** Afterwards the calendar is what the server listed and answered; the calendars' own
        indexes, of this calendar and of others, still hold the same events. */
    method UpdateCalendarPropfind(calendar: Calendar, newToken: string, listing: Listing, answers: Answers)
      returns (batches: seq<seq<Href>>)
      requires Valid() && calendar.url in calendars && calendars[calendar.url] == calendar
      requires forall h :: h in listing ==> h.calendar == calendar.url
      modifies this`events, this`eventRepr, this`contents, this`issued, eventRepr, calendarRepr
      ensures Valid() && fresh(eventRepr - old(eventRepr)) && old(eventRepr) <= eventRepr
      ensures contents == Synced(old(contents), calendar.url, listing, answers)
      ensures InOrder(Flat(batches)) && multiset(Flat(batches)) == multiset(Changes(old(contents), listing))
      ensures forall i :: 0 <= i < |batches| ==> 0 < |batches[i]| <= multigetBatchSize
      ensures forall c :: c in calendarRepr ==> c.changeToken == if c == calendar then newToken else old(c.changeToken)
    {
      hide Valid, Updated, Blanked, Changes, Without, Reported, InOrder, Flat;
      var oldHrefs := set b | b in calendar.events :: Href(calendar.url, b);
      CalendarKnown(calendar, oldHrefs);
      batches := UpdateApplyChanges(calendar, listing, answers, oldHrefs);
      SetToken(calendar.url, newToken);
    }

    method SetToken(url: string, token: string)
      requires Valid() && url in calendars
      modifies calendars[url]
      ensures Valid() && calendars[url].changeToken == token
    {
      calendars[url].changeToken := token;
    }

    lemma CalendarKnown(calendar: Calendar, hrefs: set<Href>)
      requires Valid() && calendar.url in calendars && calendars[calendar.url] == calendar
      requires hrefs == set b | b in calendar.events :: Href(calendar.url, b)
      ensures calendar in calendarRepr && hrefs == InCalendar(contents, calendar.url)
    {
      forall h | h in InCalendar(contents, calendar.url)
        ensures h in hrefs
      {
        EventKnown(h);
        assert h == Href(calendar.url, h.base) && h.base in calendar.events;
      }
      forall h | h in hrefs
        ensures h in contents
      {
        EventKnown(h);
      }
    }
  }
}
