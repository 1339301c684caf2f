/** The notification index of twistedcaldav/notifications.py: a table of notifications, and a
    revision log from which a client at any older revision can catch up. */
module Notifications {

  import opened Collections

  datatype Result<+T> = Ok(value: T) | SyncTokenInvalid

  type Uid = string
  type Name = string

  datatype Row = Row(name: Name, kind: string)
  datatype Entry = Entry(revision: nat, deleted: bool)

  /** The three tables: NOTIFICATIONS by UID, REVISIONS by NAME, and REVISION_SEQUENCE. */
  datatype Tables = Tables(notifications: map<Uid, Row>, revisions: map<Name, Entry>, revision: nat)

  const EMPTY := Tables(map[], map[], 0)

  datatype Op = Write(uid: Uid, row: Row) | RemoveName(name: Name) | RemoveUid(uid: Uid)

  // ----- The statements -----

  /** UID and NAME are both unique: a row replaces the rows that agree with it on either. */
  function InsertOrReplace(rows: map<Uid, Row>, uid: Uid, row: Row): map<Uid, Row> {
    (map u | u in rows && rows[u].name != row.name :: rows[u])[uid := row]
  }

  function DeleteName(rows: map<Uid, Row>, name: Name): map<Uid, Row> {
    map u | u in rows && rows[u].name != name :: rows[u]
  }

  /** An update changes a row of the log only if there is one. */
  function MarkDeleted(log: map<Name, Entry>, name: Name, revision: nat): map<Name, Entry> {
    if name in log then log[name := Entry(revision, true)] else log
  }

  function Removed(t: Tables, name: Name): Tables {
    Tables(DeleteName(t.notifications, name), MarkDeleted(t.revisions, name, t.revision + 1), t.revision + 1)
  }

  /** What each operation does to the tables. Removing by an unknown UID raises. */
  function Apply(t: Tables, op: Op): Tables {
    match op
    case Write(uid, row) =>
      Tables(InsertOrReplace(t.notifications, uid, row), t.revisions[row.name := Entry(t.revision + 1, false)],
             t.revision + 1)
    case RemoveName(name) => Removed(t, name)
    case RemoveUid(uid) => if uid in t.notifications then Removed(t, t.notifications[uid].name) else t
  }

  function After(ops: seq<Op>): Tables {
    if ops == [] then EMPTY else Apply(After(ops[..|ops| - 1]), ops[|ops| - 1])
  }

  // ----- What clients see -----

  /** The names of the notifications there are. */
  function Live(t: Tables): (s: set<Name>)
    ensures forall n :: n in s <==> exists u :: u in t.notifications && t.notifications[u].name == n
  {
    set u | u in t.notifications :: t.notifications[u].name
  }

  /** The names that the revision log does not call deleted. */
  function Listed(t: Tables): set<Name> {
    set n | n in t.revisions && !t.revisions[n].deleted
  }

  function Since(t: Tables, r: nat): set<Name> {
    set n | n in t.revisions && t.revisions[n].revision > r
  }

  function Changed(t: Tables, r: nat): set<Name> {
    set n | n in Since(t, r) && !t.revisions[n].deleted
  }

  function Deleted(t: Tables, r: nat): set<Name> {
    set n | n in Since(t, r) && t.revisions[n].deleted && r != 0
  }

  /** A client that held `names` and asks what changed since revision `r`; at revision zero it
      starts from nothing. */
  function CatchUp(names: set<Name>, t: Tables, r: nat): set<Name> {
    if r == 0 then Changed(t, 0) else names - Deleted(t, r) + Changed(t, r)
  }

  // ----- The revision log -----

  /** `b` is `a` after some more operations: entries `b` dates at or before the revision of
      `a` are those of `a`. */
  ghost predicate Later(a: Tables, b: Tables) {
    && a.revision <= b.revision
    && a.revisions.Keys <= b.revisions.Keys
    && (forall n :: n in b.revisions ==> 0 < b.revisions[n].revision <= b.revision)
    && (forall n :: n in a.revisions ==> 0 < a.revisions[n].revision <= a.revision)
    && (forall n :: n in b.revisions && b.revisions[n].revision <= a.revision ==>
          n in a.revisions && a.revisions[n] == b.revisions[n])
  }

  lemma LaterStill(a: Tables, t: Tables, op: Op)
    requires Later(a, t)
    ensures Later(a, Apply(t, op))
  {
  }

  lemma LaterThanItself(a: Tables, t: Tables)
    requires Later(a, t)
    ensures Later(t, t)
  {
  }

  lemma {:induction false} RunsAreLater(ops: seq<Op>, k: nat)
    requires k <= |ops|
    ensures Later(After(ops[..k]), After(ops))
  {
    hide Later, Apply;
    if ops == [] {
      assert Later(EMPTY, EMPTY) by { EmptyIsLater(); }
    } else {
      var front := ops[..|ops| - 1];
      if k < |ops| {
        RunsAreLater(front, k);
        assert front[..k] == ops[..k];
        LaterStill(After(ops[..k]), After(front), ops[|ops| - 1]);
      } else {
        assert ops[..k] == ops;
        RunsAreLater(front, 0);
        LaterStill(After(front[..0]), After(front), ops[|ops| - 1]);
        LaterThanItself(After(front[..0]), After(ops));
      }
    }
  }

  lemma EmptyIsLater()
    ensures Later(EMPTY, EMPTY)
  {
  }

  /** Catching up is exact: whatever the run, a client whose names were those listed when it
      last asked, at any point of the run, has those listed now once it has applied the
      answer. */
  lemma CatchUpIsExact(ops: seq<Op>, k: nat)
    requires k <= |ops|
    ensures CatchUp(Listed(After(ops[..k])), After(ops), After(ops[..k]).revision) == Listed(After(ops))
    ensures Changed(After(ops), 0) == Listed(After(ops)) && Deleted(After(ops), 0) == {}
  {
    hide After;
    RunsAreLater(ops, k);
  }

  /** The operation writes or removes the name. */
  predicate Touches(t: Tables, op: Op, n: Name) {
    match op
    case Write(_, row) => row.name == n
    case RemoveName(name) => name == n
    case RemoveUid(uid) => uid in t.notifications && t.notifications[uid].name == n
  }

  /** An operation dates exactly the entries of the names it touches. */
  lemma StepDates(t: Tables, op: Op, n: Name)
    requires Later(t, t)
    ensures n in Apply(t, op).revisions && Touches(t, op, n) ==>
              Apply(t, op).revisions[n] == Entry(t.revision + 1, !op.Write?)
    ensures !Touches(t, op, n) ==> (n in Apply(t, op).revisions <==> n in t.revisions)
    ensures n in t.revisions && !Touches(t, op, n) ==> Apply(t, op).revisions[n] == t.revisions[n]
  {
  }

  ghost predicate TouchedSince(ops: seq<Op>, k: nat, n: Name) {
    exists j :: k <= j < |ops| && Touches(After(ops[..j]), ops[j], n)
  }

  lemma TouchedFront(ops: seq<Op>, k: nat, n: Name)
    requires k < |ops|
    ensures TouchedSince(ops, k, n) <==>
      TouchedSince(ops[..|ops| - 1], k, n) || Touches(After(ops[..|ops| - 1]), ops[|ops| - 1], n)
  {
    hide After, Touches;
    var front := ops[..|ops| - 1];
    assert forall j :: 0 <= j < |front| ==> front[..j] == ops[..j] && front[j] == ops[j];
    if TouchedSince(ops, k, n) {
      var j :| k <= j < |ops| && Touches(After(ops[..j]), ops[j], n);
      assert j < |front| ==> Touches(After(front[..j]), front[j], n);
    }
    if TouchedSince(front, k, n) {
      var j :| k <= j < |front| && Touches(After(front[..j]), front[j], n);
      assert Touches(After(ops[..j]), ops[j], n);
    }
  }

  /** The answer names exactly the entries that operations since then touched. */
  lemma {:induction false} SinceExactly(ops: seq<Op>, k: nat, n: Name)
    requires k <= |ops| && n in After(ops).revisions
    ensures n in Since(After(ops), After(ops[..k]).revision) <==> TouchedSince(ops, k, n)
  {
    hide Touches, Apply;
    RunsAreLater(ops, k);
    if k == |ops| {
      assert ops[..k] == ops;
    } else {
      hide TouchedSince;
      var front := ops[..|ops| - 1];
      assert front[..k] == ops[..k];
      RunsAreLater(front, k);
      LaterThanItself(After(front[..k]), After(front));
      TouchedFront(ops, k, n);
      StepDates(After(front), ops[|ops| - 1], n);
      if !Touches(After(front), ops[|ops| - 1], n) {
        SinceExactly(front, k, n);
      }
    }
  }

  // ----- The log and the table -----

  ghost predicate UniqueNames(t: Tables) {
    forall u, v :: u in t.notifications && v in t.notifications && u != v ==>
      t.notifications[u].name != t.notifications[v].name
  }

  /** Listed although there is no such notification. */
  function Orphans(t: Tables): set<Name> {
    Listed(t) - Live(t)
  }

  /** The operation stores a known UID under another name. */
  predicate Moves(t: Tables, op: Op) {
    op.Write? && op.uid in t.notifications && t.notifications[op.uid].name != op.row.name
  }

  lemma LiveAfterWrite(t: Tables, uid: Uid, row: Row)
    requires UniqueNames(t)
    ensures UniqueNames(Apply(t, Write(uid, row)))
    ensures Live(Apply(t, Write(uid, row))) ==
      (if uid in t.notifications then Live(t) - {t.notifications[uid].name} else Live(t)) + {row.name}
  {
    var rows := InsertOrReplace(t.notifications, uid, row);
    assert rows[uid] == row;
    forall n | n in Live(t) && n != row.name && !(uid in t.notifications && t.notifications[uid].name == n)
      ensures n in Live(Apply(t, Write(uid, row)))
    {
      var u :| u in t.notifications && t.notifications[u].name == n;
      assert u in rows && rows[u].name == n;
    }
  }

  lemma LiveAfterRemove(t: Tables, name: Name)
    requires UniqueNames(t)
    ensures UniqueNames(Apply(t, RemoveName(name)))
    ensures Live(Apply(t, RemoveName(name))) == Live(t) - {name}
  {
    var rows := DeleteName(t.notifications, name);
    forall n | n in Live(t) && n != name
      ensures n in Live(Apply(t, RemoveName(name)))
    {
      var u :| u in t.notifications && t.notifications[u].name == n;
      assert u in rows && rows[u].name == n;
    }
  }

  /** Exactly how orphans come and go: a move leaves one behind under the old name; writing or
      removing a name ends its being one. */
  lemma OrphansAfter(t: Tables, op: Op)
    requires UniqueNames(t) && Live(t) <= Listed(t)
    ensures UniqueNames(Apply(t, op)) && Live(Apply(t, op)) <= Listed(Apply(t, op))
    ensures Orphans(Apply(t, op)) == match op
      case Write(uid, row) => Orphans(t) + (if Moves(t, op) then {t.notifications[uid].name} else {}) - {row.name}
      case RemoveName(name) => Orphans(t) - {name}
      case RemoveUid(uid) => Orphans(t)
  {
    hide Live;
    match op
    case Write(uid, row) =>
      LiveAfterWrite(t, uid, row);
      if uid in t.notifications {
        assert t.notifications[uid].name in Live(t);
      }
    case RemoveName(name) =>
      LiveAfterRemove(t, name);
    case RemoveUid(uid) =>
      if uid in t.notifications {
        LiveAfterRemove(t, t.notifications[uid].name);
        assert t.notifications[uid].name in Live(t);
      }
  }

  ghost predicate NeverMoves(ops: seq<Op>) {
    forall i :: 0 <= i < |ops| ==> !Moves(After(ops[..i]), ops[i])
  }

  lemma {:induction false} TablesAgree(ops: seq<Op>)
    ensures UniqueNames(After(ops)) && Live(After(ops)) <= Listed(After(ops))
    ensures NeverMoves(ops) ==> Orphans(After(ops)) == {}
  {
    hide Apply, Moves, Live, Listed;
    if ops == [] {
      NothingYet();
    } else {
      var front := ops[..|ops| - 1];
      TablesAgree(front);
      if NeverMoves(ops) {
        FrontNeverMoves(ops, |front|);
        assert !Moves(After(front), ops[|ops| - 1]);
      }
      OrphansAfter(After(front), ops[|ops| - 1]);
    }
  }

  /** The operation stores or removes a record under this name. */
  predicate Names(op: Op, n: Name) {
    (op.Write? && op.row.name == n) || (op.RemoveName? && op.name == n)
  }

  /** Operation `j` moves a UID away from the name, and no later one names it. */
  ghost predicate LeftAt(ops: seq<Op>, j: nat, n: Name)
    requires j < |ops|
  {
    var t := After(ops[..j]);
    && Moves(t, ops[j]) && t.notifications[ops[j].uid].name == n
    && forall i :: j < i < |ops| ==> !Names(ops[i], n)
  }

  ghost predicate LeftBehind(ops: seq<Op>, n: Name) {
    exists j :: 0 <= j < |ops| && LeftAt(ops, j, n)
  }

  lemma LeftAtLonger(ops: seq<Op>, op: Op, j: nat, n: Name)
    requires j < |ops|
    ensures LeftAt(ops + [op], j, n) <==> LeftAt(ops, j, n) && !Names(op, n)
  {
    hide After, Moves, Names;
    var more := ops + [op];
    assert more[..j] == ops[..j] && more[j] == ops[j] && more[|ops|] == op;
    assert forall i :: j < i < |ops| ==> more[i] == ops[i];
  }

  lemma LeftBehindLonger(ops: seq<Op>, op: Op, n: Name)
    ensures LeftBehind(ops + [op], n) <==>
      (LeftBehind(ops, n) && !Names(op, n)) ||
      (Moves(After(ops), op) && After(ops).notifications[op.uid].name == n)
  {
    hide After, Moves, Names, LeftAt;
    var more := ops + [op];
    LeftAtLast(ops, op, n);
    forall j | 0 <= j < |ops|
      ensures LeftAt(more, j, n) <==> LeftAt(ops, j, n) && !Names(op, n)
    {
      LeftAtLonger(ops, op, j, n);
    }
    if LeftBehind(ops, n) && !Names(op, n) {
      var j :| 0 <= j < |ops| && LeftAt(ops, j, n);
      assert LeftAt(more, j, n);
    }
  }

  lemma LeftAtLast(ops: seq<Op>, op: Op, n: Name)
    ensures LeftAt(ops + [op], |ops|, n) <==> Moves(After(ops), op) && After(ops).notifications[op.uid].name == n
  {
    assert (ops + [op])[..|ops|] == ops;
  }

  /** The orphans of a run are exactly the names that a move left behind and that nothing has
      named since. */
  lemma {:induction false} OrphansExactly(ops: seq<Op>, n: Name)
    ensures n in Orphans(After(ops)) <==> LeftBehind(ops, n)
  {
    hide Apply, Live, Listed, Moves;
    if ops == [] {
      NothingYet();
    } else {
      hide LeftBehind;
      var front, op := ops[..|ops| - 1], ops[|ops| - 1];
      assert ops == front + [op];
      OrphansExactly(front, n);
      TablesAgree(front);
      OrphansAfter(After(front), op);
      LeftBehindLonger(front, op, n);
      MoveNamesAnother(After(front), op);
    }
  }

  lemma MoveNamesAnother(t: Tables, op: Op)
    ensures Moves(t, op) ==> op.Write? && op.uid in t.notifications && !Names(op, t.notifications[op.uid].name)
  {
  }

  lemma NoOrphans(t: Tables)
    requires Live(t) <= Listed(t)
    ensures Orphans(t) == {} <==> Live(t) == Listed(t)
  {
    assert Live(t) + Orphans(t) == Listed(t);
  }

  lemma FrontNeverMoves(ops: seq<Op>, k: nat)
    requires k <= |ops| && NeverMoves(ops)
    ensures NeverMoves(ops[..k])
  {
    hide Moves, After;
    assert forall i :: 0 <= i < k ==> ops[..k][..i] == ops[..i] && ops[..k][i] == ops[i];
  }

  lemma NothingYet()
    ensures Live(EMPTY) == {} == Listed(EMPTY)
  {
  }

  /** A client that catches up has exactly the notifications there are, if and only if every name
      that a move left behind has been written or removed since; in a run in which no UID moves
      to another name, it always has. */
  lemma CatchUpReachesLive(ops: seq<Op>, k: nat)
    requires k <= |ops|
    ensures CatchUp(Listed(After(ops[..k])), After(ops), After(ops[..k]).revision) == Live(After(ops)) <==>
      forall n :: !LeftBehind(ops, n)
    ensures NeverMoves(ops) ==>
      CatchUp(Live(After(ops[..k])), After(ops), After(ops[..k]).revision) == Live(After(ops))
  {
    hide After, Live, Listed, CatchUp, NeverMoves, UniqueNames, Orphans, LeftBehind;
    forall n ensures n in Orphans(After(ops)) <==> LeftBehind(ops, n) { OrphansExactly(ops, n); }
    CatchUpIsExact(ops, k);
    TablesAgree(ops);
    TablesAgree(ops[..k]);
    NoOrphans(After(ops));
    NoOrphans(After(ops[..k]));
    if NeverMoves(ops) {
      FrontNeverMoves(ops, k);
    }
  }

  ghost predicate KeepsTooMuch(ops: seq<Op>, k: nat)
    requires k <= |ops|
  {
    CatchUp(Live(After(ops[..k])), After(ops), After(ops[..k]).revision) > Live(After(ops))
  }

  /** With a move the client keeps a name that is gone. */
  lemma MoveLeavesOrphan()
    ensures exists ops: seq<Op> :: |ops| == 2 && KeepsTooMuch(ops, 1)
  {
    var a, b := Write("uid", Row("a.xml", "invite")), Write("uid", Row("b.xml", "invite"));
    var ops := [a, b];
    assert ops[..1] == [a] && [a][..0] == [];
    var t1 := Apply(EMPTY, a);
    assert After([a]) == t1;
    var t2 := Apply(t1, b);
    assert After(ops) == t2;
    assert "a.xml" != "b.xml";
    assert t1.notifications["uid"].name == "a.xml";
    assert "a.xml" in Live(t1);
    assert "a.xml" !in Live(t2);
    assert t2.revisions["a.xml"].revision == 1;
    assert "a.xml" in CatchUp(Live(t1), t2, 1);
    assert t2.notifications["uid"].name == "b.xml";
    assert KeepsTooMuch(ops, 1);
  }

  // ----- The database -----

  lemma ListedOnce(s: seq<Name>, all: set<Name>)
    requires multiset(s) == multiset(all)
    ensures forall n :: n in s <==> n in all
  {
    assert forall n :: n in s <==> n in multiset(s);
  }

  class NotificationsDatabase {
    var notifications: map<Uid, Row>
    var revisions: map<Name, Entry>
    var revision: nat

    ghost function Contents(): Tables
      reads this
    {
      Tables(notifications, revisions, revision)
    }

    constructor ()
      ensures Contents() == EMPTY
    {
      notifications, revisions, revision := map[], map[], 0;
    }

    method RecordForUID(uid: Uid) returns (row: Option<Row>)
      ensures row == if uid in notifications then Some(notifications[uid]) else None
    {
      if uid in notifications {
        return Some(notifications[uid]);
      }
      return None;
    }

    method BumpRevision() returns (r: nat)
      modifies this`revision
      ensures revision == old(revision) + 1 == r
    {
      revision := revision + 1;
      r := revision;
    }

    method AddOrUpdateRecord(uid: Uid, row: Row)
      modifies this
      ensures Contents() == Apply(old(Contents()), Write(uid, row))
      ensures forall u :: u in notifications <==>
                u == uid || (u in old(notifications) && old(notifications)[u].name != row.name)
      ensures notifications[uid] == row
      ensures forall u :: u in notifications && u != uid ==> notifications[u] == old(notifications)[u]
      ensures revisions == old(revisions)[row.name := Entry(old(Contents()).revision + 1, false)]
      ensures Contents().revision == old(Contents()).revision + 1
    {
      notifications := InsertOrReplace(notifications, uid, row);
      var r := BumpRevision();
      revisions := revisions[row.name := Entry(r, false)];
    }

    method RemoveRecordForName(name: Name)
      modifies this
      ensures Contents() == Apply(old(Contents()), RemoveName(name))
      ensures forall u :: u in notifications <==> u in old(notifications) && old(notifications)[u].name != name
      ensures forall u :: u in notifications ==> notifications[u] == old(notifications)[u]
      ensures forall n :: n in revisions <==> n in old(revisions)
      ensures forall n :: n in revisions ==>
                revisions[n] == if n == name then Entry(old(Contents()).revision + 1, true) else old(revisions)[n]
      ensures Contents().revision == old(Contents()).revision + 1
    {
      notifications := DeleteName(notifications, name);
      var r := BumpRevision();
      revisions := MarkDeleted(revisions, name, r);
    }

    /** Raises if there is no such record, having changed nothing. */
    method RemoveRecordForUID(uid: Uid) returns (raised: bool)
      modifies this
      ensures Contents() == Apply(old(Contents()), RemoveUid(uid))
      ensures raised == (uid !in old(notifications))
    {
      var record := RecordForUID(uid);
      if record.None? {
        return true;
      }
      RemoveRecordForName(record.value.name);
      return false;
    }

    /** Both lists are without repetitions. An entry without a name is an invalid token. */
    method WhatChanged(r: nat) returns (answer: Result<(seq<Name>, seq<Name>)>)
      ensures answer.SyncTokenInvalid? <==> "" in Since(Contents(), r)
      ensures answer.Ok? ==>
        && multiset(answer.value.0) == multiset(Changed(Contents(), r))
        && multiset(answer.value.1) == multiset(Deleted(Contents(), r))
        && (forall n :: n in answer.value.0 <==> n in revisions && revisions[n].revision > r && !revisions[n].deleted)
        && (forall n :: n in answer.value.1 <==>
              n in revisions && revisions[n].revision > r && revisions[n].deleted && r != 0)
    {
      var results := set n | n in revisions && revisions[n].revision > r;
      var changed, deleted := [], [];
      assert results == Since(Contents(), r);
      ghost var allChanged, allDeleted := Changed(Contents(), r), Deleted(Contents(), r);
      while results != {}
        invariant results <= Since(Contents(), r)
        invariant "" in Since(Contents(), r) ==> "" in results
        invariant multiset(changed) == multiset(allChanged - results)
        invariant multiset(deleted) == multiset(allDeleted - results)
        decreases |results|
      {
        var name :| name in results;
        TakeOne(allChanged, results, name);
        TakeOne(allDeleted, results, name);
        if name == "" {
          return SyncTokenInvalid;
        }
        if revisions[name].deleted {
          if r != 0 {
            deleted := deleted + [name];
          }
        } else {
          changed := changed + [name];
        }
        results := results - {name};
      }
      assert allChanged - results == allChanged;
      assert allDeleted - results == allDeleted;
      ListedOnce(changed, allChanged);
      ListedOnce(deleted, allDeleted);
      answer := Ok((changed, deleted));
    }
  }
}
