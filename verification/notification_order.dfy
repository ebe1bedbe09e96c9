/** The display order of notifications: every unread notification comes
    before every read one, and among notifications with the same read flag
    the newer date comes first. Equal flag and equal date is a tie. */
module NotificationOrder {
  import opened Entities

  /** `a` sorts strictly before `b`. */
  predicate Before(a: Notification, b: Notification) {
    (!a.read && b.read) || (a.read == b.read && a.date > b.date)
  }

  /** `a` may be listed ahead of `b`: `b` does not sort strictly before `a`. */
  predicate InOrder(a: Notification, b: Notification) {
    !Before(b, a)
  }

  predicate Sorted(s: seq<Notification>) {
    forall i, j :: 0 <= i < j < |s| ==> InOrder(s[i], s[j])
  }

  /** The two rules of the display order, stated separately. */
  predicate UnreadFirst(s: seq<Notification>) {
    forall i, j :: 0 <= i < j < |s| && s[i].read ==> s[j].read
  }

  predicate NewestFirstWithinFlag(s: seq<Notification>) {
    forall i, j :: 0 <= i < j < |s| && s[i].read == s[j].read ==> s[i].date >= s[j].date
  }

  /** `Before` is a strict weak order: irreflexive and transitive, and being
      tied (neither before the other) is transitive too. */
  lemma BeforeIsStrictWeakOrder(a: Notification, b: Notification, c: Notification)
    ensures !Before(a, a)
    ensures Before(a, b) ==> !Before(b, a)
    ensures Before(a, b) && Before(b, c) ==> Before(a, c)
    ensures InOrder(a, b) && InOrder(b, c) ==> InOrder(a, c)
    ensures InOrder(a, b) || InOrder(b, a)
  {
  }

  /** A list is in display order exactly when unread notifications come first
      and dates never increase within one read flag. */
  lemma SortedCharacterization(s: seq<Notification>)
    ensures Sorted(s) <==> UnreadFirst(s) && NewestFirstWithinFlag(s)
  {
    if UnreadFirst(s) && NewestFirstWithinFlag(s) {
      forall i, j | 0 <= i < j < |s|
        ensures InOrder(s[i], s[j])
      {
        if s[i].read {
          assert s[j].read;
        }
      }
    }
  }

  /** A notification that may precede the head of a sorted list may precede
      all of it. */
  lemma PrecedesSorted(x: Notification, s: seq<Notification>)
    requires Sorted(s) && |s| > 0 && InOrder(x, s[0])
    ensures Sorted([x] + s)
  {
    forall k | 0 <= k < |s|
      ensures InOrder(x, s[k])
    {
      BeforeIsStrictWeakOrder(x, s[0], s[k]);
    }
  }

  /** The head of a sorted list may precede the tail with `x` inserted, when
      it may precede `x`. */
  lemma HeadPrecedesInserted(s: seq<Notification>, x: Notification, rest: seq<Notification>)
    requires Sorted(s) && |s| > 0 && InOrder(s[0], x)
    requires Sorted(rest) && multiset(rest) == multiset(s[1..]) + multiset{x}
    ensures Sorted([s[0]] + rest)
  {
    forall k | 0 <= k < |rest|
      ensures InOrder(s[0], rest[k])
    {
      var y := rest[k];
      assert y in multiset(rest);
      if y != x {
        assert y in multiset(s[1..]);
        var m :| 0 <= m < |s[1..]| && s[1..][m] == y;
        assert s[m + 1] == y;
      }
    }
  }

  /** Inserts `x` ahead of the first element it may precede, and so ahead
      of everything it ties with. The sort inserts an element into the
      already sorted rest of its input, so tied notifications keep their
      input order. */
  function Insert(x: Notification, s: seq<Notification>): (r: seq<Notification>)
    requires Sorted(s)
    ensures Sorted(r)
    ensures multiset(r) == multiset(s) + multiset{x}
    decreases |s|
  {
    if |s| == 0 then [x]
    else if InOrder(x, s[0]) then
      PrecedesSorted(x, s);
      [x] + s
    else
      assert s == [s[0]] + s[1..];
      var rest := Insert(x, s[1..]);
      HeadPrecedesInserted(s, x, rest);
      [s[0]] + rest
  }

  /** The sort `fetchNotifications` applies: a stable insertion sort by the
      display order. */
  function SortNotifications(s: seq<Notification>): (r: seq<Notification>)
    ensures Sorted(r)
    ensures multiset(r) == multiset(s)
    decreases |s|
  {
    if |s| == 0 then []
    else
      assert s == [s[0]] + s[1..];
      Insert(s[0], SortNotifications(s[1..]))
  }

  /** No two different notifications in `s` tie in the display order. */
  predicate TieFree(s: seq<Notification>) {
    forall i, j :: 0 <= i < |s| && 0 <= j < |s| && s[i] != s[j] ==> Before(s[i], s[j]) || Before(s[j], s[i])
  }

  /** Without ties the display order leaves no freedom: two sorted
      arrangements of the same notifications are the same list. */
  lemma {:induction false} SortedArrangementUnique(x: seq<Notification>, y: seq<Notification>)
    requires Sorted(x) && Sorted(y) && TieFree(x)
    requires multiset(x) == multiset(y)
    ensures x == y
    decreases |x|
  {
    assert |x| == |multiset(x)| == |multiset(y)| == |y|;
    if |x| > 0 {
      SortedHeadsAgree(x, y);
      TailsArePermutations(x, y);
      SortedArrangementUnique(x[1..], y[1..]);
      assert x == [x[0]] + x[1..];
      assert y == [y[0]] + y[1..];
    }
  }

  /** Two non-empty sorted arrangements of the same tie-free notifications
      start with the same notification. */
  lemma SortedHeadsAgree(x: seq<Notification>, y: seq<Notification>)
    requires Sorted(x) && Sorted(y) && TieFree(x)
    requires multiset(x) == multiset(y) && |x| > 0 && |y| > 0
    ensures x[0] == y[0]
  {
    assert x[0] in multiset(y);
    assert y[0] in multiset(x);
    var i :| 0 <= i < |y| && y[i] == x[0];
    var j :| 0 <= j < |x| && x[j] == y[0];
    assert InOrder(y[0], x[0]);
    assert InOrder(x[0], y[0]);
  }

  lemma TailsArePermutations(x: seq<Notification>, y: seq<Notification>)
    requires multiset(x) == multiset(y) && |x| > 0 && |y| > 0 && x[0] == y[0]
    requires TieFree(x)
    ensures multiset(x[1..]) == multiset(y[1..])
    ensures TieFree(x[1..])
  {
    assert x == [x[0]] + x[1..];
    assert y == [y[0]] + y[1..];
    assert multiset(x[1..]) == multiset(x) - multiset{x[0]};
    assert multiset(y[1..]) == multiset(y) - multiset{y[0]};
  }

  /** Notifications with pairwise different dates never tie. */
  lemma DistinctDatesTieFree(s: seq<Notification>)
    requires forall i, j :: 0 <= i < j < |s| ==> s[i].date != s[j].date
    ensures TieFree(s)
  {
    forall i, j | 0 <= i < |s| && 0 <= j < |s| && s[i] != s[j]
      ensures Before(s[i], s[j]) || Before(s[j], s[i])
    {
      if i < j {
        assert s[i].date != s[j].date;
      } else {
        assert j < i && s[j].date != s[i].date;
      }
    }
  }

  /** Without ties, the sort's result is the one sorted arrangement of its input. */
  lemma SortIsDetermined(s: seq<Notification>, expected: seq<Notification>)
    requires Sorted(expected) && TieFree(expected)
    requires multiset(s) == multiset(expected)
    ensures SortNotifications(s) == expected
  {
    SortedArrangementUnique(expected, SortNotifications(s));
  }

  /** The first order the sorting test checks: an unread notification comes
      before a read one with the same date, whatever order they arrive in. */
  lemma SortingTestReadPriority(a: Notification, b: Notification)
    requires !a.read && b.read && b.date == a.date
    ensures SortNotifications([b, a]) == [a, b]
  {
    var input := [b, a];
    var expected := [a, b];
    assert multiset(input) == multiset(expected) by {
      assert input == [b] + [a];
      assert expected == [a] + [b];
    }
    assert Sorted(expected);
    assert TieFree(expected);
    SortIsDetermined(input, expected);
  }

  /** The second order the sorting test checks: of two unread notifications
      dated 400 and 600, the one dated 600 comes first. */
  lemma SortingTestNewestFirst(c: Notification, d: Notification)
    requires !c.read && !d.read && c.date == 400 && d.date == 600
    ensures SortNotifications([c, d]) == [d, c]
  {
    var input := [c, d];
    var expected := [d, c];
    assert multiset(input) == multiset(expected) by {
      assert input == [c] + [d];
      assert expected == [d] + [c];
    }
    assert Sorted(expected);
    assert TieFree(expected);
    SortIsDetermined(input, expected);
  }

  /** The orders the sorting test checks: an unread notification dated 500,
      a read one dated 1000, an unread one dated 400 and a read one dated
      600, supplied in the order 400, 600, 500, 1000, are displayed as 500,
      400, 1000, 600: the newest read notification does not rise above an
      older unread one. */
  lemma SortingTestOrder(a: Notification, b: Notification, c: Notification, d: Notification)
    requires !a.read && a.date == 500
    requires b.read && b.date == 1000
    requires !c.read && c.date == 400
    requires d.read && d.date == 600
    ensures SortNotifications([c, d, a, b]) == [a, c, b, d]
  {
    TestOrderIsPermutation(a, b, c, d);
    TestOrderIsSorted(a, b, c, d);
    SortIsDetermined([c, d, a, b], [a, c, b, d]);
  }

  lemma TestOrderIsPermutation(a: Notification, b: Notification, c: Notification, d: Notification)
    ensures multiset([c, d, a, b]) == multiset([a, c, b, d])
  {
    MultisetOfFour(c, d, a, b);
    MultisetOfFour(a, c, b, d);
  }

  lemma MultisetOfFour(w: Notification, x: Notification, y: Notification, z: Notification)
    ensures multiset([w, x, y, z]) == multiset{w} + multiset{x} + multiset{y} + multiset{z}
  {
    assert [w, x, y, z] == [w, x, y] + [z];
    assert [w, x, y] == [w, x] + [y];
    assert [w, x] == [w] + [x];
  }

  lemma TestOrderIsSorted(a: Notification, b: Notification, c: Notification, d: Notification)
    requires !a.read && a.date == 500
    requires b.read && b.date == 1000
    requires !c.read && c.date == 400
    requires d.read && d.date == 600
    ensures Sorted([a, c, b, d]) && TieFree([a, c, b, d])
  {
    DistinctDatesTieFree([a, c, b, d]);
  }
}
