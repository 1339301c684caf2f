# Calendar server: models and proofs

Dafny models of the parts of the CalDAV and CardDAV server whose correctness is hardest to see
from the code, with proofs of what they promise. Each source file has its own module; classes
have the source's fields and methods, and each method is proved against a function or a
predicate on values, about which the properties over whole runs are then proved as lemmas.

| module | models |
|---|---|
| `MemcachePool` | the connection pool: busy, free, pending and queued work, and the shutdown that waits for it |
| `Recurrence`, `Instances` | recurrence sets of one progression with RDATEs and EXDATEs, and the merge of overrides into an expansion (RFC 5545 sections 3.2.13, 3.3.10, 3.8.4.4 and 3.8.5) |
| `SeriesSplit`, `Calendar`, `CacheRuns` | splitting a series at a point in time, deriving instances, and the cached expansion over any sequence of calls |
| `Repair`, `AttendeeView`, `GroupAttendees` | repairing overrides and EXDATEs, an attendee's view, and reconciling attendees with groups |
| `ResponseCache` | the PROPFIND response cache guarded by expiring tokens, with other requests running between any two steps |
| `PropertyCache` | property maps shared by compare-and-set with retries, as a state machine of processes and as code |
| `AccessLog` | rolling request statistics |
| `Notifications` | the revision log from which any old client catches up (the idea of RFC 6578 section 3) |
| `DirectoryFilter` | addressbook-query filters turned into directory queries (RFC 6352 section 10.5) |
| `WireProtocol` | memcache replies on a chunked connection, and values as flagged bytes |
| `PeriodList` | normal forms of period lists |
| `MoFile` | GNU MO files, with a reader for them |
| `CalendarSync` | the simulated client's cache with its two indexes |
| `Collections` | options, and lists and sets as several models need them |

`dafny verify dfyconfig.toml` checks everything.

## What is assumed

Times are integers, seconds of UTC. The iCalendar library is specified by what its expansion
means: exactly the starts below a limit, and whether any remain (`Calendar.Sound`). pickle and
zlib undo themselves (`WireProtocol.Trusted`), md5 keys are injective, uuid4 tokens are never
issued twice (`ResponseCache.FreshTokens`). Every yield of the response cache may run any number
of changes and let any time pass; every step of the property cache may be followed by a step of
any other process. What each property needs of its caller stands in its `requires`.

## Where the code does not keep a promise

Each of these is proved by the lemmas and methods named: by an example, by the exact condition
under which the promise is kept, or by both.

- A split gives a rule that had already ended the split as its new end, and so adds instances
  (`PastSplitRevivesRule`; exactly when: `PastSplitExactly`). A rule with no start within a year
  after the split leaves the future part as it was (`FutureSplitMissesSparseRule`,
  `FutureSplitExactly`), or is dropped with the instances of later overrides
  (`FutureMayDropIds`, `FutureKeepsIdsExactly`).
- Two THISANDFUTURE overrides before the same instance are not confluent (`TwoShiftsDisagree`,
  `ConfluentExactly`).
- Taking back an EXDATE that one property lists twice leaves it there, and no instance is derived
  from a rule (`RemoveExdateExactly`, exactly; `DeriveInstance`).
- A second repair pass can find something to repair (`OnePassMayNotSuffice`, `RepairTwice`). A
  repair adds instances where an RDATE before DTSTART was excluded (`RepairMayAddInstance`,
  `RepairKeepsSetExactly`). The expansion cached during a repair can be stale after it
  (`StaleAfterAddedRdate`, `StaleAfterEarlyExdate`, `CacheSurvivesExactly`), and so can one cached
  before it (`EarlierCacheSurvivesExactly`).
- Whether an attendee who moves between groups keeps PARTSTAT depends on the order of the groups
  (`OrderDecidesOther`, `OtherKeptInEveryOrder`), although membership does not
  (`OrderDoesNotMatter`).
- A response is made before its tokens are read, and a change in between leaves a stale response
  with a token that matches (`StaleAfterRendering`; exactly then, where the token guards:
  `HitIsFreshExactly`, `GetResponseForRequest`). A response can also be stale if a resource had no
  token when it was captured, because its key is too long or because one timeout or more passes
  until its token is compared (`StaleAfterRace`, `StaleAfterSlowLookup`,
  `MissingTokenGuardsExactly`).
- Setting a property of a child that was never loaded overwrites its other properties
  (`LostUpdateWithoutToken`, `WriteWithoutToken`).
- The pool's shutdown Deferred is called back a second time if requests are made after it fired
  (`ShutdownMayFireTwice`, `ShutdownFiresWhenIdle`).
- The catch-up loop of the statistics does not end exactly if the clock has gone back to an
  earlier minute (`CatchUpEnds`); "Over 10s" is never counted (`BinsSumToTimed`); with a single
  minute of data, "1m" is the current minute (`GetStats`).
- A notification UID stored under another NAME leaves its old name with every client, until the
  name is written or removed (`MoveLeavesOrphan`, `OrphansExactly`, `CatchUpReachesLive`).
- Prop-filters without children, which ask that the property exists (RFC 6352 section 10.5.1), and
  those for properties without a field are skipped. Under "anyof" the records that only they ask
  for are missed (`ChildlessIsMissed`, `UnmappedIsMissed`; exactly when: `MissesNothingExactly`,
  `CanAskExactly`), and the later match of the vCards against the filter does not bring them back.
  Under "allof" nothing is missed but too much is selected (exactly when: `FilterMeans`). If no
  prop-filter counts, all records are selected under "anyof", and none under "allof" even where
  some are asked for (`ExpressionFromABFilter`, `ChildlessOnly`).
- Of several words in one text-match only the last is searched for, which finds too much, or
  misses records if it is negated (`LastWordMatchesTooMuch`, `LastWordMissesSome`,
  `LastWordExactly`); is-not-defined on a property that not every record has selects all records,
  those with the property among them (`IsNotDefinedSelectsAll`); and of several fields that a
  negated text must not be in, one is enough (`OneFieldExactly`). A param-filter has one answer
  for all records, which is no for a parameter asked to be absent that a vCard can have, and for
  part of a value (`ParamAnswersMissSome`). When each of these happens exactly: `ChildMeans`,
  `ParamMeans`.
- A bool put into memcache comes back as an int (`StoredValueComesBack`, exactly).

## Model

| member | source | states |
|---|---|---|
| MemcachePool.MemCachePool.Command | twistedcaldav/memcachepool.py:255-290 | performRequest for a new request: the pool's next state is the `Issue` step |
| MemcachePool.MemCachePool.PerformRequest | twistedcaldav/memcachepool.py:255-290 | a free client is used; or the command is queued when busy and pending clients reach the maximum; or a connection is opened |
| MemcachePool.MemCachePool.ConnectionMade | twistedcaldav/memcachepool.py:195-209 | a connection that comes up stops being pending and takes its request: the `Connected` step |
| MemcachePool.MemCachePool.PerformRequestOnClient | twistedcaldav/memcachepool.py:211-253 | the client is busy while its request is in flight; an answer that is there at once frees it within the call |
| MemcachePool.MemCachePool.ClientBusy | twistedcaldav/memcachepool.py:316-329 | the client leaves the free set for the busy set |
| MemcachePool.MemCachePool.ClientFree | twistedcaldav/memcachepool.py:331-360 | the client is freed, a pending shutdown fires if the pool is idle, and the oldest queued command is started |
| MemcachePool.MemCachePool.ShutdownCallback | twistedcaldav/memcachepool.py:175-180 | shutdown waits on a Deferred exactly if the pool is not idle |
| MemcachePool.RunKeepsInv | twistedcaldav/memcachepool.py:182-360 | in every state of every run: busy and free are disjoint, busy + free + pending never exceed the maximum, a queue means no free client and a full pool, requests are conserved, and a pending shutdown means a busy pool |
| MemcachePool.StepKeepsInv | twistedcaldav/memcachepool.py:182-360 | each event of the reactor keeps all of that |
| MemcachePool.OnClientKeepsInv | twistedcaldav/memcachepool.py:211-253 | it also holds when answers that are there at once make one call work through the queue |
| MemcachePool.FreeClientKeepsInv | twistedcaldav/memcachepool.py:331-360 | freeing a client restores the invariant, however many queued commands are answered at once |
| MemcachePool.ExactlyOnePlace | twistedcaldav/memcachepool.py:255-290 | a request was issued exactly if it is queued, connecting, in flight or done, and it is in only one of these places |
| MemcachePool.RunIsFifo | twistedcaldav/memcachepool.py:255-360 | over a whole run requests get their connections in the order of issue; those that wait are the rest of the issued ones, in order |
| MemcachePool.StepServes | twistedcaldav/memcachepool.py:195-360 | where each event takes its request: to a free client, to the end of the queue where busy and pending clients reach the maximum, or to a new connection; from there to its client; and when it is answered, to those that are done |
| MemcachePool.FreeClientServes | twistedcaldav/memcachepool.py:331-360 | the request in flight on the freed client is done, the oldest queued command is started, and without a queue the client is free |
| MemcachePool.NoneHeldAnswered | twistedcaldav/memcachepool.py:211-253 | in no state of a run does a client still hold a request that was answered at once |
| MemcachePool.StepCalls | twistedcaldav/memcachepool.py:331-360 | a step calls the shutdown Deferred back exactly when it leaves the pool idle |
| MemcachePool.ShutdownFiresWhenIdle | twistedcaldav/memcachepool.py:168-180 | since a shutdown of a working pool the Deferred has been called back once per idle state: first in the first idle state, and a second time (AlreadyCalledError) exactly if later requests let the pool become idle again |
| MemcachePool.ShutdownMayFireTwice | twistedcaldav/memcachepool.py:331-357 | a run in which it is called back twice: a request made after the shutdown has fired is answered |
| MemcachePool.IdleShutdownNeverFires | twistedcaldav/memcachepool.py:168-180 | a pool that is idle at shutdown gives nothing to wait for and never fires |
| Recurrence.RuleStartsAreTheStarts | twistedcaldav/instance.py:359-378 | the starts of a rule below a limit, in increasing order, are all and only those of the progression with its COUNT or UNTIL |
| Recurrence.RebasedRule | twistedcaldav/ical.py:1251-1281 | a rule re-based at its k-th start, with COUNT less k, has exactly the starts from there on |
| Recurrence.RuleUntil | twistedcaldav/ical.py:1183-1195 | ending a rule just before an instant keeps exactly the earlier starts of the unbounded rule |
| Recurrence.RuleNotExhausted | twistedcaldav/ical.py:1183-1195 | a rule with a start at or after an instant has every earlier start of its progression |
| Recurrence.Starts | twistedcaldav/instance.py:343-378 | an expansion up to any limit exists: exactly the recurrence set below it |
| Instances.InstanceList.ExpandTimeRanges | twistedcaldav/instance.py:118-171 | master first, then the overrides in their order: the map, or the exception, that the specification gives |
| Instances.InstanceList.AddMasterComponent | twistedcaldav/instance.py:343-378 | the master's instances below the limit under their starts, the limit if any were cut off, or TooManyInstancesError |
| Instances.InstanceList.AddOverrideComponents | twistedcaldav/instance.py:118-171 | all overrides in turn, stopping at the first exception |
| Instances.InstanceList.FindPlace | twistedcaldav/instance.py:380-436 | where an override goes: its RECURRENCE-ID if that is a start, skipped beyond the limit, and otherwise ignored or refused |
| Instances.InstanceList.AddOverrideComponent | twistedcaldav/instance.py:380-455 | one override, with the THISANDFUTURE effect on later keys |
| Instances.InstanceList.ShiftLater | twistedcaldav/instance.py:438-455 | in numbers: later keys that are not overridden take the THISANDFUTURE component; where it moved its own instance by some seconds they move by as many and last as long as it does, otherwise their times stay; all other keys are untouched |
| Instances.AddOverridesMerges | twistedcaldav/instance.py:380-455 | adding compatible overrides one by one gives the order-free merged map, or TooManyInstancesError exactly if the final number of keys exceeds a nonzero maximum |
| Instances.ExpandMerges | twistedcaldav/instance.py:118-183 | the same for whole expansions, master included: TooManyInstancesError exactly if there is a maximum and the final number of keys exceeds it |
| Instances.MergedValues | twistedcaldav/instance.py:380-455 | what each final key holds, in numbers: the times of its override, those of the master's instance, or the latter moved by as much as the one THISANDFUTURE override before it moved, and with its length; every value's rid is its key |
| Instances.ExpandedTimes | twistedcaldav/instance.py:118-183 | the same for whole expansions: keys that are not overridden begin at their start in the master's recurrence set and last as long as the master, but for what a THISANDFUTURE override before them makes of that |
| Instances.PlacedExactly | twistedcaldav/instance.py:396-436 | where an override is placed: at its RECURRENCE-ID, or, if that is a midnight without an instance, at the instance of the same day with DTSTART's time of day |
| Instances.ConfluentExactly | twistedcaldav/instance.py:118-183 | the final map is the same for every order of the overrides if and only if no instance lies beyond two THISANDFUTURE overrides |
| Instances.TwoShiftsDisagree | twistedcaldav/instance.py:438-455 | with two such overrides two orders give different maps |
| SeriesSplit.PastSplitExactly | twistedcaldav/ical.py:1170-1228 | the past part has exactly the instances before the split if and only if DTSTART precedes it and the rule had not already ended before it (unless date lists make up for it) |
| SeriesSplit.PastSplitRevivesRule | twistedcaldav/ical.py:1183-1195 | a rule of two starts that ended before the split has ten afterwards |
| SeriesSplit.FutureSplitExactly | twistedcaldav/ical.py:1230-1331 | the future part has exactly the instances from the split on if and only if `CoversFuture` |
| SeriesSplit.FutureSplitMissesSparseRule | twistedcaldav/ical.py:1251-1276 | a rule without a start in the year after the split is not split at all |
| SeriesSplit.SplitPartitions | twistedcaldav/ical.py:1170-1331 | for a rule that begins before the split and has a start within a year after it, the two parts partition the series, and COUNT goes down by the starts before the split |
| Calendar.Component.CacheExpandedTimeRanges | twistedcaldav/ical.py:1409-1433 | a cached expansion that is complete or reaches past the limit is kept, any other is replaced by one a year further on; a faithful cache stays faithful and answers for every rid up to the limit; with valid override ids it fails exactly if the merged map exceeds the maximum |
| Calendar.Component.ValidInstance | twistedcaldav/ical.py:1687-1709 | with a faithful cache, true exactly for the current recurrence set and cancelled overrides |
| Calendar.Component.OnlyPastInstances | twistedcaldav/ical.py:1170-1228 | UNTIL, RDATEs, EXDATEs and overrides are cut at the split, valid override ids stay valid, and the cached expansion is dropped |
| Calendar.PastKeepsIds | twistedcaldav/ical.py:1198-1211 | the ids of the overrides that stay are still instances after the cut |
| Calendar.Component.OnlyFutureInstances | twistedcaldav/ical.py:1230-1331 | the master is re-based at its first start from the split on; where no instance can be derived there the component is left as it was; and exactly when it raises |
| Calendar.FutureKeepsIdsExactly | twistedcaldav/ical.py:1249-1290 | the ids of the overrides that stay are still instances if and only if the rule is kept, or nothing is cut, or they are of the split itself or of RDATEs |
| Calendar.FutureMayDropIds | twistedcaldav/ical.py:1269-1271 | a series where a cut at an RDATE drops the rule of a later override |
| Calendar.Component.RebaseMaster | twistedcaldav/ical.py:1244-1310 | the master's part of the cut, and exactly when it raises |
| Calendar.FutureStart | twistedcaldav/ical.py:1251-1271 | the first start of the rule in the year from the split on, and the rule from there with its COUNT reduced |
| Calendar.Rebase | twistedcaldav/ical.py:1278-1310 | the derived master with what is left of its rule, RDATEs and EXDATEs |
| Calendar.Component.DeriveInstance | twistedcaldav/ical.py:1534-1638 | the derived instance begins at rid, lasts as long as the master, and is cancelled if an EXDATE was taken back for it; there is one exactly if rid is an RDATE, a start of the rule or an EXDATE that may stand or be taken back; taking it back adds exactly rid to the recurrence set; and exactly when it raises |
| Calendar.Component.TakeBackExdate | twistedcaldav/ical.py:1568-1582 | the EXDATE is gone, all others stay, the recurrence set gains exactly rid if the master generates it, and the cached expansion is dropped |
| Calendar.Component.HasInstance | twistedcaldav/ical.py:1590-1606 | rid is an RDATE, or an instance of the master's rule; without a rule no expansion is made |
| Calendar.RemoveExdateExactly | twistedcaldav/ical.py:1570-1577 | removing an EXDATE leaves every other one, and leaves it too exactly if one property lists it twice |
| Calendar.TakenBack | twistedcaldav/ical.py:1570-1582 | taking back an EXDATE adds exactly that instance, if the master generates it |
| Calendar.MergedIsFaithful | twistedcaldav/instance.py:118-183 | a merged expansion has exactly the keys of the recurrence set and of cancelled overrides, below its limit, and everywhere if complete |
| Calendar.ExpansionIsFaithful | twistedcaldav/ical.py:1409-1433 | what the cache stores is faithful if all override ids are valid, or invalid ones are ignored and none is beyond the limit |
| Calendar.Split | txdav/caldav/datastore/scheduling/icalsplitter.py:150-188 | splitting a copy: the recurrence sets and the overrides of the two results partition those of the original, and both keep its length and status; it succeeds exactly if no expansion is needed or the merged map does not exceed the maximum |
| SeriesSplit.PartsKeepLength | twistedcaldav/ical.py:1170-1331 | neither part changes the length or the status of its instances |
| CacheRuns.Perform | twistedcaldav/ical.py:1409-1433 | one call from a valid series and a faithful cache: the series becomes what the call says, the cache stays faithful, and an expansion agrees with the recurrence set up to its limit |
| CacheRuns.PerformAll | twistedcaldav/ical.py:1409-1433 | transparency over any sequence of expansions, cuts and derivations: every expansion returned while the calls kept override ids valid agrees with the recurrence set of that moment, up to its limit |
| CacheRuns.KeepsIdsExactly | twistedcaldav/ical.py:1170-1331 | which calls keep override ids valid, exactly |
| Repair.ValidInstances | twistedcaldav/ical.py:1663-1685 | the given ids that are in an expansion reaching a day past the latest of them |
| Repair.CheckRecurring | twistedcaldav/ical.py:1845-1905 | EXDATEs equal to an override id or before DTSTART are removed; valid are the ids in the expansion or among the RDATEs |
| Repair.ExdatesReported | twistedcaldav/ical.py:1845-1902 | the two passes over the EXDATEs report each one at an override id and each one before DTSTART, and nothing else |
| Repair.AllReported | twistedcaldav/ical.py:1831-1924 | all that a call reports: those, and each override id that is neither an RDATE nor in the expansion |
| Repair.ValidRecurrenceIDs | twistedcaldav/ical.py:1831-1924 | the messages of a call are exactly the findings, and there are none exactly if `NothingWrong`; a repair without a cached expansion makes of the master what `Repaired` says, and the expansion it leaves is faithful exactly if `CacheSurvives` |
| Repair.RepairIsSound | twistedcaldav/ical.py:1831-1924 | after a repair every override id is valid, no EXDATE excludes one or precedes DTSTART, and apart from override ids the instances are what the master generates without the EXDATEs from DTSTART on |
| Repair.RepairKeepsSetExactly | twistedcaldav/ical.py:1879-1902 | apart from override ids the recurrence set is kept if and only if no RDATE before DTSTART was excluded |
| Repair.RepairMayAddInstance | twistedcaldav/ical.py:1879-1902 | an excluded RDATE before DTSTART is an instance after the repair |
| Repair.RecursAfterRepair | twistedcaldav/ical.py:1845-1905 | when the repaired master still has recurrence properties |
| Repair.RepairTwice | twistedcaldav/ical.py:1831-1924 | a second pass reports nothing if and only if `OnePassSuffices` |
| Repair.OnePassMayNotSuffice | twistedcaldav/ical.py:1845-1924 | a series whose only EXDATE excludes its only instance, which is overridden, needs a second pass |
| Repair.CacheSurvivesExactly | twistedcaldav/ical.py:1870-1924 | the expansion cached during a repair still holds after it if and only if no RDATE was added and no excluded RDATE before DTSTART came back |
| Repair.EarlierCacheSurvivesExactly | twistedcaldav/ical.py:1831-1924 | an expansion cached before the repair of a series with valid override ids still holds after it if and only if no excluded RDATE below its limit came back |
| Repair.StaleAfterAddedRdate | twistedcaldav/ical.py:1910-1915 | an override off the rule of its master, after which the expansion is stale |
| Repair.StaleAfterEarlyExdate | twistedcaldav/ical.py:1879-1902 | an early EXDATE, after which it is stale although every override id was valid |
| AttendeeView.Component.AttendeesView | twistedcaldav/ical.py:2718-2759 | components lacking an attendee are removed, and their instances excluded from a master that stays |
| AttendeeView.Component.FindAll | twistedcaldav/ical.py:2730-2742 | all attendees are there, each without a SCHEDULE-AGENT or with SERVER where that is asked for |
| AttendeeView.ViewShowsExactly | twistedcaldav/ical.py:2718-2759 | the view shows exactly the instances of components in which every attendee is, with no SCHEDULE-AGENT but SERVER if that is asked for, each as the same component; no instance whose override was cut away returns as the master's |
| AttendeeView.ViewKeepsParts | twistedcaldav/ical.py:2750-2759 | what stays is as it was, but for EXDATEs of the master at exactly the overrides that were cut away |
| GroupAttendees.Subcomponent.ReconcileGroupAttendee | twistedcaldav/ical.py:3449-3494 | one group on one component: missing members are added, then MEMBER of each old attendee is updated; the result says whether anything changed |
| GroupAttendees.Subcomponent.AddMembers | twistedcaldav/ical.py:3465-3476 | members who are not attendees yet are added |
| GroupAttendees.Subcomponent.UpdateAttendee | twistedcaldav/ical.py:3478-3492 | MEMBER gains or loses the group; an attendee left without groups is removed |
| GroupAttendees.Subcomponent.RemoveOrphans | twistedcaldav/ical.py:3515-3532 | MEMBER values of groups no longer used, and attendees in no group, are removed |
| GroupAttendees.Subcomponent.CleanAttendee | twistedcaldav/ical.py:3518-3532 | one attendee of that last stage |
| GroupAttendees.ReconcileGroupAttendees | twistedcaldav/ical.py:3496-3534 | every group on every component, then the last stage; true exactly if some stage changed something |
| GroupAttendees.ReconcileByAddress | twistedcaldav/ical.py:3449-3534 | a reconciliation acts on each address independently |
| GroupAttendees.FlagExactly | twistedcaldav/ical.py:3449-3534 | the flag is set exactly if some group changed what the groups before it had left, or the removal of orphans changed something |
| GroupAttendees.OneChangesExactly | twistedcaldav/ical.py:3449-3494 | reconciling one group reports a change exactly if it makes one |
| GroupAttendees.ReconcileIsRight | twistedcaldav/ical.py:3496-3534 | afterwards every member of every group is an attendee, an attendee with MEMBER lists exactly the groups that contain it, and one without is untouched |
| GroupAttendees.OrderDoesNotMatter | twistedcaldav/ical.py:3496-3534 | addresses and MEMBER sets do not depend on the order of the groups |
| GroupAttendees.SurvivesExactly | twistedcaldav/ical.py:3478-3492 | an attendee's property survives every order of the groups if and only if one of its groups is not reconciled or still contains it; otherwise some order drops it and adds it anew |
| GroupAttendees.SurvivesEveryOrder | twistedcaldav/ical.py:3478-3492 | when it survives whatever the order |
| GroupAttendees.OtherKeptExactly | twistedcaldav/ical.py:3464-3492 | an attendee who is still there has kept PARTSTAT exactly if its property was never dropped on the way |
| GroupAttendees.OtherKeptInEveryOrder | twistedcaldav/ical.py:3464-3534 | PARTSTAT is kept in every order of the groups if and only if one of the attendee's groups is not reconciled or still contains it |
| GroupAttendees.OrderDecidesOther | twistedcaldav/ical.py:3464-3534 | two orders of two groups, one of which loses PARTSTAT |
| GroupAttendees.SecondCallChangesNothing | twistedcaldav/ical.py:3496-3534 | a second call, with the groups in any order, changes nothing and returns False |
| ResponseCache.Cache.Get | twistedcaldav/memcacher.py:116-130 | a value that has not expired; of a token key, exactly the token in force |
| ResponseCache.Cache.NotifyChanged | twistedcaldav/cache.py:116-134 | a change replaces the token of its URI; a key that is too long is silently refused |
| ResponseCache.Cache.AdvanceClock | twistedcaldav/memcacher.py:183-184 | time passes and expires cells |
| ResponseCache.Cache.TokenForURI | twistedcaldav/cache.py:279-292 | the token in force now, or None |
| ResponseCache.Cache.GetTokens | twistedcaldav/cache.py:303-327 | the principal's, the resource's and each recorded child's token, and no others, each read at some moment of the call |
| ResponseCache.Cache.RenderHTTP | twistedcaldav/cache.py:492-505 | a response is made first and cached then, with the tokens of all its recorded children, read after it was made, and other requests running before, between and after |
| ResponseCache.Cache.CacheResponseForRequest | twistedcaldav/cache.py:423-469 | a response made earlier is stored with its directory token and the tokens of exactly the recorded children, all captured during this call |
| ResponseCache.Cache.GetResponseForRequest | twistedcaldav/cache.py:341-420 | a hit has compared every token of a live entry, each with the one then in force; where a token guards, its resource was changed since the response was made exactly if it was before the capture; elsewhere only unseen changes follow the capture; a live entry is missed only if a token differs |
| ResponseCache.Cache.RenderThenLookUp | twistedcaldav/cache.py:341-505 | a response is cached and looked up later, with anything happening in between: a hit is that response, and of the principal, the resource and every recorded child nothing that a guarding token can show was changed from its capture, before the storing, to the lookup |
| ResponseCache.Cache.CompareChildren | twistedcaldav/cache.py:398-408 | the recorded children's tokens are compared one after the other, up to the first that differs |
| ResponseCache.TokenMatchMeansUnchanged | twistedcaldav/cache.py:116-134 | equal tokens hide a change if and only if the token was missing at both times because its key is too long or the last change has expired |
| ResponseCache.NeverStaleWithToken | twistedcaldav/cache.py:341-420 | a token that was there when captured guards for ever |
| ResponseCache.NeverStaleWithinTimeout | twistedcaldav/cache.py:341-420 | a missing token guards too, if its key is not too long and less than one timeout passes until it is compared: a later token would still be there |
| ResponseCache.MissingTokenGuardsExactly | twistedcaldav/cache.py:341-420 | a missing token guards for so many seconds, whatever happens, if and only if its key has at most 250 characters and they are less than the timeout |
| ResponseCache.HitIsFresh | twistedcaldav/cache.py:341-469 | nothing was changed between the capture of a token and a hit on it, if it was there when captured, or was compared within one timeout of the capture |
| ResponseCache.HitIsFreshExactly | twistedcaldav/cache.py:423-503 | on such a hit the resource was changed since the response was made if and only if it was changed before the capture, which comes after the making |
| ResponseCache.StaleAfterRendering | twistedcaldav/cache.py:423-503 | a change between the making of a response and the capture gives a stale response with a token that guards it |
| ResponseCache.StaleAfterRace | twistedcaldav/cache.py:423-469 | otherwise one can be: a change between capture and store expires before the response |
| ResponseCache.StaleAfterSlowLookup | twistedcaldav/cache.py:398-408 | or a response found in the last second of its life, when the change that followed its capture expires before the comparison |
| PropertyCache.PropertyCollection.SetProperty | twistedcaldav/memcacheprops.py:254-308 | true means exactly one commit of this very call, false (the exception, after ten attempts) none, whatever other writers do in between; and every child then has a property exactly if the last committed call on its name set it so, or none was committed and it had been there |
| PropertyCache.PropertyCollection.TrySet | twistedcaldav/memcacheprops.py:270-298 | one compare-and-set followed by a reload: it commits exactly if it says so |
| PropertyCache.PropertyCollection.PrepareCopy | twistedcaldav/memcacheprops.py:254-265 | the copy to send is the call applied to the stored properties, if the token is still the stored one |
| PropertyCache.PropertyCollection.LoadChild | twistedcaldav/memcacheprops.py:118-169 | the child's stored properties and token |
| PropertyCache.Client.Set | twistedcaldav/memcacheclient.py:1107-1122 | a mismatching token is refused without effect; any other write takes a new token |
| PropertyCache.NoLostUpdates | twistedcaldav/memcacheprops.py:254-308 | in every run of every interleaving over loaded children, the stored properties are the initial ones with the committed calls applied in commit order |
| PropertyCache.StoredExactly | twistedcaldav/memcacheprops.py:254-308 | the same without the replay: a child has a value under a name if and only if the last committed call on it set that value, or there was none and it had it from the start; a name whose last call deleted it is absent |
| PropertyCache.ReplayHolds | twistedcaldav/memcacheprops.py:254-308 | what a sequence of committed calls leaves under each name |
| PropertyCache.CommitsOnceOrRaises | twistedcaldav/memcacheprops.py:254-308 | a call that has ended committed exactly once, or raised and never did |
| PropertyCache.RaisesAfterTen | twistedcaldav/memcacheprops.py:254-308 | in every run a call that raised had ten attempts, one that succeeded from one to ten, and one that runs has used up as many as it has not left |
| PropertyCache.CommitsExactly | twistedcaldav/memcacheprops.py:270-298 | an attempt that is not refused for another reason commits exactly if the stored token is the one that was read, or there is none to compare; otherwise nothing changes |
| PropertyCache.StepReplays | twistedcaldav/memcacheprops.py:254-308 | each step keeps the stored properties equal to that replay |
| PropertyCache.StepKeepsCopies | twistedcaldav/memcacheprops.py:254-308 | a copy a process is about to send is right as long as its token is the stored one |
| PropertyCache.WriteWithoutToken | twistedcaldav/memcacheprops.py:94-109 | a call on a child without a token overwrites properties it has not read, and exactly which are lost |
| PropertyCache.LostUpdateWithoutToken | twistedcaldav/memcacheprops.py:94-109 | an instance of that |
| AccessLog.Tally.UpdateStats | calendarserver/accesslog.py:501-546 | one more request in a tally: every counter, sum, bin and maximum |
| AccessLog.Tally.MergeStats | calendarserver/accesslog.py:548-589 | a tally added to another: every counter, sum, bin and maximum, per method too |
| AccessLog.TotalsMerge | calendarserver/accesslog.py:548-589 | merging the tallies of two adjacent stretches of the log gives the tally of both |
| AccessLog.RequestsCounted | calendarserver/accesslog.py:501-518 | a tally counts its requests, its server errors and its 401s |
| AccessLog.BinsSumToTimed | calendarserver/accesslog.py:520-546 | the seven bins sum to the requests that carried a time; "Over 1s" counts the slow ones again; "Over 10s" stays zero |
| AccessLog.BinsByRange | calendarserver/accesslog.py:520-537 | each bin counts the requests with a time in its range |
| AccessLog.SumsAreRight | calendarserver/accesslog.py:501-546 | the summed times and slots are sums over the requests, the maximum is the longest time |
| AccessLog.MethodsCounted | calendarserver/accesslog.py:506-508 | per method: the requests that used it and the time they took |
| AccessLog.CatchUpEnds | calendarserver/accesslog.py:451-455 | the catch-up loop ends if and only if the clock has not gone back to an earlier minute |
| AccessLog.AccessLogObserver.EnsureSequentialStats | calendarserver/accesslog.py:435-468 | minutes stay contiguous, at most 65, each with the tally of its requests, up to the current one; a new minute drops the cached aggregates |
| AccessLog.AccessLogObserver.LogStats | calendarserver/accesslog.py:364-382 | a logged request is counted in its minute, and no cached aggregate goes wrong |
| AccessLog.AccessLogObserver.GetStats | calendarserver/accesslog.py:386-433 | 5m and 1h are the tallies of the raw log over the last 5 and 60 completed minutes, cached or not; 1m likewise once there are two minutes, before that it is the current minute |
| AccessLog.AccessLogObserver.Aggregate | calendarserver/accesslog.py:412-425 | merging the kept minutes gives the tally of the raw log over the completed minutes |
| Notifications.NotificationsDatabase.AddOrUpdateRecord | twistedcaldav/notifications.py:158-171 | the row is there, other rows of its UID or NAME are not, all others stay, and the name has the next revision |
| Notifications.NotificationsDatabase.RemoveRecordForName | twistedcaldav/notifications.py:178-186 | exactly the rows of that name go, and a known name is marked deleted at the next revision |
| Notifications.NotificationsDatabase.RemoveRecordForUID | twistedcaldav/notifications.py:173-176 | removes by the UID's name; an unknown UID raises and changes nothing |
| Notifications.NotificationsDatabase.WhatChanged | twistedcaldav/notifications.py:188-205 | the names changed and deleted since a revision, once each; an entry without a name is an invalid token |
| Notifications.CatchUpIsExact | twistedcaldav/notifications.py:158-205 | in any run, a client that was right at any earlier point and applies the answer has exactly the names listed now; at revision zero the changed names alone are all of them |
| Notifications.SinceExactly | twistedcaldav/notifications.py:188-205 | the answer names exactly the entries that operations since then wrote or removed |
| Notifications.OrphansAfter | twistedcaldav/notifications.py:158-186 | exactly how names come to be listed without a notification, and cease to be: a UID stored under another name leaves its old one behind |
| Notifications.OrphansExactly | twistedcaldav/notifications.py:158-186 | over a run: a name is listed without a notification if and only if a move left it behind and nothing wrote or removed it by name since |
| Notifications.TablesAgree | twistedcaldav/notifications.py:158-186 | names are unique, every notification is listed, and without such a move nothing else is |
| Notifications.CatchUpReachesLive | twistedcaldav/notifications.py:158-205 | a client that catches up has exactly the notifications there are if and only if every name a move left behind has been written or removed since; in runs without a move, always |
| Notifications.MoveLeavesOrphan | twistedcaldav/notifications.py:158-171 | with a move the client keeps a name that is gone |
| DirectoryFilter.CombineJoins | twistedcaldav/directorybackedaddressbook.py:318-348 | combining two four-state results joins what they say, in every combination of states |
| DirectoryFilter.AndOrExpression | twistedcaldav/directorybackedaddressbook.py:388-394 | the matches of one text stay alternatives under either test of the parent |
| DirectoryFilter.MatchesOf | twistedcaldav/directorybackedaddressbook.py:474-488 | any field of the property matches the last of the texts |
| DirectoryFilter.LastWordExactly | twistedcaldav/directorybackedaddressbook.py:474-488 | searching for the last word is searching for all words if and only if there is only one |
| DirectoryFilter.ChildMeans | twistedcaldav/directorybackedaddressbook.py:375-492 | when the matches made for a child are exactly what it asks for, and when they at least miss no record: both conditions are exact |
| DirectoryFilter.LastWordMatchesTooMuch | twistedcaldav/directorybackedaddressbook.py:474-488 | a search for "John Smith" that also finds others |
| DirectoryFilter.LastWordMissesSome | twistedcaldav/directorybackedaddressbook.py:474-488 | a negated one that misses records |
| DirectoryFilter.IsNotDefinedSelectsAll | twistedcaldav/directorybackedaddressbook.py:375-379 | is-not-defined on a property that not every record has selects all records |
| DirectoryFilter.ParamFilterElement | twistedcaldav/directorybackedaddressbook.py:396-411 | the one answer a param-filter is given for all records: whether the table of parameters says so, and no wherever it has none for the property |
| DirectoryFilter.ParamMeans | twistedcaldav/directorybackedaddressbook.py:396-411 | the answer is what the param-filter asks for on every record, and at least misses none, exactly under the conditions named |
| DirectoryFilter.ParamAnswersMissSome | twistedcaldav/directorybackedaddressbook.py:396-411 | an absent parameter, and a text that is only part of a value, are answered with no although records have what is asked for |
| DirectoryFilter.OneFieldExactly | twistedcaldav/directorybackedaddressbook.py:474-488 | that a text is in none of the fields is what the matches say if and only if there is only one field |
| DirectoryFilter.CanAskExactly | txdav/carddav/datastore/query/filter.py:224-257 | whether some record has what a skipped prop-filter asks for, decided from its children alone |
| DirectoryFilter.MissesNothingExactly | twistedcaldav/directorybackedaddressbook.py:309-564 | if the children that count miss nothing, the query misses none of the records the filter asks for if and only if the test is allof, or no skipped prop-filter can ask for a record, or every record is selected already |
| DirectoryFilter.FilterMeans | twistedcaldav/directorybackedaddressbook.py:309-564 | if the children that count are exact, the query is exactly what the filter asks for if and only if the skipped prop-filters lose nothing (as above) and add nothing: the test is anyof, or they all ask for every record, or no record is selected anyway |
| DirectoryFilter.ChildlessIsMissed | twistedcaldav/directorybackedaddressbook.py:517-533 | anyof of a prop-filter without children and a text-match misses records that have the property |
| DirectoryFilter.UnmappedIsMissed | twistedcaldav/directorybackedaddressbook.py:495-503 | anyof of a prop-filter for a property without a field and a text-match misses records with that property |
| DirectoryFilter.ChildlessOnly | twistedcaldav/directorybackedaddressbook.py:546-564 | allof of prop-filters without children, or of none, asks for records and counts none, so that none is selected |
| DirectoryFilter.ElementExpression | twistedcaldav/directorybackedaddressbook.py:396-492 | the result for one child has that child's truth value on every record, and is never None |
| DirectoryFilter.ChildrenExpression | twistedcaldav/directorybackedaddressbook.py:511-526 | flattening with the early exit keeps the truth value on every record, although the exit compares the test with the last child's own result |
| DirectoryFilter.Wrapped | twistedcaldav/directorybackedaddressbook.py:528-533 | deduplicating and wrapping for a parent with the other test keeps the truth value |
| DirectoryFilter.PropFilterExpression | twistedcaldav/directorybackedaddressbook.py:350-533 | None exactly for an unmapped property or a filter without children; otherwise the truth value of the children under the filter's test |
| DirectoryFilter.PropsExpression | twistedcaldav/directorybackedaddressbook.py:536-544 | the same for the list of prop-filters, with its early exit |
| DirectoryFilter.PropFilterListQuery | twistedcaldav/directorybackedaddressbook.py:309-564 | the query has on every record the truth value of the nested filter, or the opposite of an empty join if every prop-filter is skipped |
| DirectoryFilter.ExpressionFromABFilter | twistedcaldav/directorybackedaddressbook.py:566-577 | the query has the truth value of what was made of the children if and only if some prop-filter counts, and selects all (anyof) or no (allof) records otherwise; it is exactly what the filter asks for, and misses nothing of it, under the exact conditions of `FilterMeans` and `MissesNothingExactly` |
| WireProtocol.Host.ReadLine | twistedcaldav/memcacheclient.py:1257-1274 | the line up to the first CRLF of the stream and nothing more is consumed, whatever the chunks; a closed connection marks the host dead |
| WireProtocol.Host.Recv | twistedcaldav/memcacheclient.py:1282-1293 | exactly so many bytes, or an error if the stream is shorter |
| WireProtocol.Host.Get | twistedcaldav/memcacheclient.py:783-807 | the outcome and what is left over depend on the stream alone, not on its chunks |
| WireProtocol.ReplyParses | twistedcaldav/memcacheclient.py:957-1013 | any value bytes come through, CRLF and END among them, and exactly the reply is consumed; a pickle that does not load is None |
| WireProtocol.EndParses | twistedcaldav/memcacheclient.py:957-967 | the reply for an unknown key is None and exactly it is consumed |
| WireProtocol.StoredValueComesBack | twistedcaldav/memcacheclient.py:696-740 | a value that is stored decodes to itself if and only if it is not a bool |
| WireProtocol.StoredExactly | twistedcaldav/memcacheclient.py:725-740 | a value is stored exactly if it, or its compressed form where that is tried and shorter, takes less than a megabyte |
| WireProtocol.RoundTrip | twistedcaldav/memcacheclient.py:696-740 | from the value through flags, store and reply back to the value |
| WireProtocol.HeaderSplits | twistedcaldav/memcacheclient.py:957-967 | the header line splits into its four words |
| WireProtocol.DecimalIntParses | twistedcaldav/memcacheclient.py:703-712 | decimal representations of integers are read back |
| WireProtocol.FindStable | twistedcaldav/memcacheclient.py:1257-1270 | a terminator that has been found stays the first one when more arrives |
| PeriodList.Periods.Normalize | twistedcaldav/dateops.py:179-232 | sorting, merging in place and dropping the Nones yields the normal form |
| PeriodList.NormalIsSeparated | twistedcaldav/dateops.py:179-232 | the result is sorted, each period starting after the previous one ends |
| PeriodList.NormalCovers | twistedcaldav/dateops.py:179-232 | it covers exactly the same instants |
| PeriodList.NormalIsIdempotent | twistedcaldav/dateops.py:179-232 | normalizing twice is normalizing once |
| PeriodList.NormalIsCanonical | twistedcaldav/dateops.py:179-232 | non-empty periods have the same normal form if and only if they cover the same instants |
| PeriodList.ClipPeriod | twistedcaldav/dateops.py:235-260 | the instants of both periods, or None exactly if there are none |
| PeriodList.ClippingCommutes | twistedcaldav/dateops.py:179-260 | clipping a normal list gives the normal form of the clipped list |
| MoFile.ConvertStrings | twistedcaldav/localization.py:448-498 | the file has the layout of the format; it fails exactly if some number is above 2147483647 |
| MoFile.Describe | twistedcaldav/localization.py:451-470 | each string's descriptor is its length and its offset in the data |
| MoFile.SortKeys | twistedcaldav/localization.py:448-449 | the originals in ascending order: of any two, the earlier one ends first or has the smaller byte where they first differ |
| MoFile.SmallFilesFit | twistedcaldav/localization.py:472-498 | every number fits in a file of at most two gigabytes |
| MoFile.DataAt | twistedcaldav/localization.py:469-470 | each string lies at its offset, followed by NUL and then by the next string |
| MoFile.Regions | twistedcaldav/localization.py:472-498 | originals lie behind the header and the tables, translations behind the originals, none over another, each within the file and followed by NUL |
| MoFile.EntryReads | twistedcaldav/localization.py:484-495 | each pair of descriptors slices out exactly its original and its translation |
| MoFile.ReadingUndoesWriting | twistedcaldav/localization.py:448-498 | a reader gets back exactly the strings written |
| MoFile.LookupFindsExactly | twistedcaldav/localization.py:448-449 | a reader's binary search, comparing byte by byte, finds exactly what was written, because the originals are sorted |
| MoFile.CompareIs | twistedcaldav/localization.py:448-449 | the reader's comparison is below zero exactly for strings in that order, and zero exactly for equal ones |
| MoFile.HeaderBytes | twistedcaldav/localization.py:472-481 | the file begins with the bytes DE 12 04 95 and four zeros |
| MoFile.FileHeader | twistedcaldav/localization.py:472-483 | the number of strings, the offsets 28 and 28 + 8 per string of the tables, and no hashing table |
| CalendarSync.BaseAppleClient.SetEvent | simplugin/caldavclient.py:416-422 | an event is put into both indexes |
| CalendarSync.BaseAppleClient.RemoveEvent | simplugin/caldavclient.py:424-431 | an event is removed from both indexes, and its data with it |
| CalendarSync.BaseAppleClient.EventChanged | simplugin/caldavclient.py:889-895 | etag, body and, if given, schedule tag of one event change, and it is announced |
| CalendarSync.BaseAppleClient.Compare | simplugin/caldavclient.py:832-850 | listed resources with an etag get an entry each; exactly those that are new or have another etag are changed, once each |
| CalendarSync.BaseAppleClient.FetchBatch | simplugin/caldavclient.py:872-887 | the events of the batch that are answered with status 200 take etag, body and, if given, schedule tag of the answer and are announced; all others are left |
| CalendarSync.SortHrefs | simplugin/caldavclient.py:867 | the hrefs in ascending order: of two different ones, the earlier ends first or has the smaller character where they first differ |
| CalendarSync.BaseAppleClient.UpdateChangedEvents | simplugin/caldavclient.py:860-887 | the batches are exactly the changed hrefs, sorted, none empty or above the limit |
| CalendarSync.BaseAppleClient.UpdateApplyChanges | simplugin/caldavclient.py:825-857 | entries are made, fetched and removed as the listing says, each changed href in exactly one batch |
| CalendarSync.BaseAppleClient.UpdateCalendarPropfind | simplugin/caldavclient.py:725-746 | a sync: the calendar as listed and answered, its new change token, both indexes in agreement, other calendars' tokens untouched |
| CalendarSync.AppliedAt | simplugin/caldavclient.py:825-895 | what a listing and the answers do to one entry: a new or stale one takes the answer of status 200, any other stays, and entries that are not listed any more go |
| CalendarSync.SyncExactly | simplugin/caldavclient.py:725-746 | after a sync the calendar has exactly the server's resources and etags; a body is the server's exactly if it was before or the etag had changed; other calendars are as before |
| CalendarSync.RunsStayTruthful | simplugin/caldavclient.py:725-746 | if etags change with bodies, cached bodies are those of their etags throughout |
| CalendarSync.RunsConverge | simplugin/caldavclient.py:725-746 | after any sequence of syncs of any calendars each calendar is what the server had when it was last synced |

## Left out

- Time zones, floating and date-only values, BY* rule parts, several RRULEs of one component, VTODO, VPOLL and per-user data components: the recurrence claims are about one progression of UTC instants.
- Lower limits of an expansion: an override that ends before the window can be dropped while its effects remain relevant, so no agreement within a window is claimed.
- The library's expansion starts in 1900, and `deriveInstance` copies properties; instances are modelled by their times only.
- Instances.InstanceList.AddOverrideComponent: a RECURRENCE-ID repaired to the master's time of day is used but not stored back into the component.
- Calendar.Split: the new UID of the earlier part and the RELATED-TO properties are not modelled.
- CacheRuns.PerformAll: `validRecurrenceIDs` and `attendeesView` also change the series without dropping the cache, and are not calls of a run; what a repair does to it is stated in `Repair`, what a view does is not modelled.
- Repair.ValidRecurrenceIDs: EXDATE properties with a list of no values, which no iCalendar text has, are not told apart from removed ones.
- GroupAttendees.Subcomponent.AddMembers: each component gets its own copy of a member's property, while the source adds one object to every component.
- The other callers of the response cache: the building of URIs and request keys, directory records beyond their token, and other requests replacing the entry that one call has just read.
- `_split_gets_multi` and `_split_set_multi`, which cut requests into chunks, and `_buildCache`, which stores entries for children that have none without a token; expiry and loss of property cache entries.
- Pool clients that lose their connection or reconnect, and changes of the maximum.
- Rounding of times in the statistics, CPU figures, the largest number of slots, log lines and their rotation.
- AccessLog.AccessLogObserver.GetStats: the two aggregation loops, which are alike, are one method here.
- The order in which SQL, dictionaries and sets yield their rows, and the sort of the changed names before they are taken apart by kind.
- Match types, collations and record kinds of a directory match are one opaque value; splitting a text into words is an input, and what a text-match asks for is taken word by word.
- What a childless prop-filter asks for follows RFC 6352 section 10.5.1; `PropertyFilter` (txdav/carddav/datastore/query/filter.py:224-257) agrees under "anyof" and never matches under "allof". Whether a constant matches is an input.
- Param-filters with both an is-not-defined and a text-match, which RFC 6352 section 10.5.2 does not allow; the source reads them as the text-match.
- Filtering the vCards of the selected records by the filter itself, and the conversion of a query into the fields that a directory is asked for.
- WireProtocol.Host.Get: a reply whose header gives a negative length, and keys with white space, which nothing rejects because the key check returns at once.
- `gets` and `get_multi`, which parse the same lines in a loop, and the commands sent.
- Periods that are kept as a start and a duration, and which of two equal periods a sort puts first.
- Reading the strings file, UTF-8 encoding, and machines that are not little-endian. Sorting is by bytes, which for UTF-8 is the order of code points.
- The sync-collection path of the simulated client, whose full sync subtracts only the changed hrefs when it purges, and changes made while a sync is under way.
- `memoryCacher` identifiers, memcache locks, configuration merging, iTIP comparison, XML elements, HTTP resources, authentication and command-line tools, which would add easy members only.
