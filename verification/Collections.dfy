/** What several of the models need of options, sequences and sets. */
module Collections {

  datatype Option<+T> = None | Some(value: T)

  ghost predicate NoDuplicates<T>(s: seq<T>) {
    forall i, j :: 0 <= i < j < |s| ==> s[i] != s[j]
  }

  /** A list without the first of its elements that is equal to `x`. */
  function RemoveFirst<T(==)>(s: seq<T>, x: T): seq<T> {
    if s == [] then [] else if s[0] == x then s[1..] else [s[0]] + RemoveFirst(s[1..], x)
  }

  lemma {:induction false} RemoveFirstOnlyRemoves<T>(s: seq<T>, x: T, y: T)
    ensures y in RemoveFirst(s, x) ==> y in s
    ensures y != x ==> (y in RemoveFirst(s, x) <==> y in s)
  {
    if s != [] && s[0] != x {
      RemoveFirstOnlyRemoves(s[1..], x, y);
    }
  }

  lemma {:induction false} RemoveFirstAbsent<T>(s: seq<T>, x: T)
    requires x !in s
    ensures RemoveFirst(s, x) == s
  {
    if s != [] {
      RemoveFirstAbsent(s[1..], x);
    }
  }

  ghost predicate Twice<T>(s: seq<T>, x: T) {
    exists i, j :: 0 <= i < j < |s| && s[i] == x == s[j]
  }

  /** `x` is still there if and only if it had been there more than once. */
  lemma {:induction false} RemoveFirstLeaves<T>(s: seq<T>, x: T)
    ensures x in RemoveFirst(s, x) <==> Twice(s, x)
  {
    if s != [] {
      var tail := s[1..];
      if s[0] == x {
        if x in tail {
          var i :| 0 <= i < |tail| && tail[i] == x;
          assert s[0] == x == s[i + 1];
        }
        assert forall j :: 0 < j < |s| ==> s[j] == tail[j - 1];
      } else {
        RemoveFirstLeaves(tail, x);
        if Twice(tail, x) {
          var i, j :| 0 <= i < j < |tail| && tail[i] == x == tail[j];
          assert s[i + 1] == x == s[j + 1];
        }
        if Twice(s, x) {
          var i, j :| 0 <= i < j < |s| && s[i] == x == s[j];
          assert tail[i - 1] == x == tail[j - 1];
        }
      }
    }
  }

  /** Of a list without duplicates, exactly `x` is removed. */
  lemma {:induction false} RemoveFirstOfDistinct<T>(s: seq<T>, x: T)
    requires NoDuplicates(s)
    ensures NoDuplicates(RemoveFirst(s, x))
    ensures forall y :: y in RemoveFirst(s, x) <==> y in s && y != x
  {
    if s != [] {
      RemoveFirstOfDistinct(s[1..], x);
      assert forall i :: 0 < i < |s| ==> s[i] != s[0];
      assert s[0] !in s[1..];
      assert forall y :: y in s <==> y == s[0] || y in s[1..];
      if s[0] != x {
        var rest := RemoveFirst(s[1..], x);
        assert forall y :: y in [s[0]] + rest <==> y == s[0] || y in rest;
      }
    }
  }

  lemma Pick<T>(s: set<T>) returns (x: T)
    requires s != {}
    ensures x in s
  {
    x :| x in s;
  }

  /** What a loop over `todo` has collected from `all` once it has come to `x`. */
  lemma TakeOne<T>(all: set<T>, todo: set<T>, x: T)
    requires x in todo
    ensures x in all ==> multiset(all - (todo - {x})) == multiset(all - todo) + multiset{x}
    ensures x !in all ==> all - (todo - {x}) == all - todo
  {
    if x in all {
      assert all - (todo - {x}) == (all - todo) + {x};
    }
  }

  /** `a` and `b` agree up to `i`, where `a` ends and `b` goes on, or has the smaller element. */
  predicate DecidedAt(a: seq<int>, b: seq<int>, i: nat) {
    i <= |a| && i < |b| && a[..i] == b[..i] && (i < |a| ==> a[i] < b[i])
  }

  /** The order of strings: the first difference decides, and a prefix comes first. */
  ghost predicate Less(a: seq<int>, b: seq<int>) {
    exists i: nat :: DecidedAt(a, b, i)
  }

  /** The same, one element after the other. */
  predicate Before(a: seq<int>, b: seq<int>) {
    b != [] && (a == [] || a[0] < b[0] || (a[0] == b[0] && Before(a[1..], b[1..])))
  }

  lemma {:induction false} BeforeIsLess(a: seq<int>, b: seq<int>)
    ensures Before(a, b) <==> Less(a, b)
  {
    forall i: nat | DecidedAt(a, b, i) && i > 0 ensures a[0] == b[0] {
      assert a[..i][0] == b[..i][0];
    }
    if b != [] && a != [] && a[0] == b[0] {
      BeforeIsLess(a[1..], b[1..]);
      assert a == [a[0]] + a[1..] && b == [b[0]] + b[1..];
      if i: nat :| DecidedAt(a[1..], b[1..], i) {
        assert DecidedAt(a, b, i + 1);
      }
      if i: nat :| DecidedAt(a, b, i) {
        assert a[..i][1..] == a[1..][..i - 1] && b[..i][1..] == b[1..][..i - 1];
        assert DecidedAt(a[1..], b[1..], i - 1);
      }
    } else if b != [] && (a == [] || a[0] < b[0]) {
      assert DecidedAt(a, b, 0);
    }
  }

  lemma {:induction false} BeforeIsTotal(a: seq<int>, b: seq<int>)
    ensures a != b ==> Before(a, b) || Before(b, a)
    ensures !(Before(a, b) && Before(b, a)) && !Before(a, a)
  {
    if a != [] {
      BeforeIsTotal(a[1..], a[1..]);
      if b != [] {
        BeforeIsTotal(a[1..], b[1..]);
        assert a == [a[0]] + a[1..] && b == [b[0]] + b[1..];
      }
    }
  }

  lemma LessIsTotal(a: seq<int>, b: seq<int>)
    ensures a != b ==> Less(a, b) || Less(b, a)
    ensures !(Less(a, b) && Less(b, a)) && !Less(a, a)
  {
    hide Less, Before;
    BeforeIsTotal(a, b);
    BeforeIsLess(a, b);
    BeforeIsLess(b, a);
    BeforeIsLess(a, a);
  }

  lemma LessIsTransitive(a: seq<int>, b: seq<int>, c: seq<int>)
    requires Less(a, b) && Less(b, c)
    ensures Less(a, c)
  {
    hide Less, Before;
    BeforeIsLess(a, b);
    BeforeIsLess(b, c);
    BeforeIsLess(a, c);
    BeforeIsTransitive(a, b, c);
  }

  lemma {:induction false} BeforeIsTransitive(a: seq<int>, b: seq<int>, c: seq<int>)
    requires Before(a, b) && Before(b, c)
    ensures Before(a, c)
  {
    if a != [] && a[0] == b[0] == c[0] {
      BeforeIsTransitive(a[1..], b[1..], c[1..]);
    }
  }
}
