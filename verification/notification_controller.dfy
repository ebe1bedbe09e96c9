/** The notification controller: fetching a user's notifications in display
    order into the one shared list, creating a notification when a lifecycle
    event happens, marking notifications read and clearing a user's
    notifications. The shared list is passed in and returned; the store
    writes each operation issues are returned as a log. */
module NotificationController {
  import opened Entities
  import opened DocumentStore
  import opened NotificationOrder

  /** The shared list after a fetch, and the list the fetch hands back. */
  datatype Fetch = Fetch(shared: seq<Notification>, returned: seq<Notification>)

  /** `getNotificationListInstance`: the one list every caller sees. */
  function NotificationListInstance(shared: seq<Notification>): (r: seq<Notification>)
    ensures r == shared
  {
    shared
  }

  /** `fetchNotifications(user)`: the shared list is emptied, refilled from
      the store's answer for `user` and sorted in display order; when the
      query fails (`queryOk` false) it stays empty. Either way the caller is
      handed the shared list itself. */
  function FetchNotifications(shared: seq<Notification>, user: User, store: Store, queryOk: bool): (r: Fetch)
    ensures r.returned == r.shared
    ensures !queryOk ==> r.shared == []
    ensures queryOk ==> multiset(r.shared) == multiset(Records(store, user.username))
    ensures Sorted(r.shared)
  {
    var fetched := if queryOk then SortNotifications(Records(store, user.username)) else [];
    Fetch(fetched, fetched)
  }

  /** A created notification and the writes its creation issued. */
  datatype Added = Added(notification: Notification, writes: seq<Write>)

  /** `addNotification(userToAlert, relatedRequest)`: a new unread
      notification for `userToAlert` about `relatedRequest`, dated `now` and
      carrying the identity `id` the store will know it by. It is written to
      the store only when there is connectivity, and returned either way. */
  function AddNotification(userToAlert: User, relatedRequest: Request, connected: bool, now: int, id: string): (r: Added)
    ensures r.notification.recipient == userToAlert
    ensures r.notification.requestId == relatedRequest.id
    ensures !r.notification.read && r.notification.date == now && r.notification.id == id
    ensures |r.writes| <= 1
    ensures connected <==> r.writes != []
    ensures forall w :: w in r.writes ==> w == InsertNotification(r.notification)
  {
    var n := Notification(id, userToAlert, relatedRequest.id, now, false);
    Added(n, if connected then [InsertNotification(n)] else [])
  }

  /** A notification after it was marked read, and the write that issued. */
  datatype Marked = Marked(notification: Notification, writes: seq<Write>)

  /** `markNotificationAsRead(notification)`: the store update is issued and
      its failure is swallowed, so the notification is read afterwards
      whatever the store answered. */
  function MarkNotificationAsRead(notification: Notification): (r: Marked)
    ensures r.notification.read
    ensures r.notification.(read := notification.read) == notification
    ensures r.writes == [MarkNotificationRead(notification.id)]
  {
    Marked(notification.(read := true), [MarkNotificationRead(notification.id)])
  }

  /** The shared list after clearing, and the write that issued. */
  datatype Cleared = Cleared(shared: seq<Notification>, writes: seq<Write>)

  /** `clearAllNotifications(user)`: a delete of all of `user`'s records is
      issued, and the shared list is emptied. */
  function ClearAllNotifications(shared: seq<Notification>, user: User): (r: Cleared)
    ensures r.shared == []
    ensures r.writes == [ClearNotifications(user.username)]
  {
    Cleared([], [ClearNotifications(user.username)])
  }

  /** The mark-read writes for the unread notifications of `s`, in order. */
  function UnreadMarks(s: seq<Notification>): (ws: seq<Write>)
    ensures |ws| <= |s|
    ensures forall w :: w in ws ==> w.MarkNotificationRead?
    decreases |s|
  {
    if |s| == 0 then []
    else UnreadMarks(s[..|s| - 1]) + UnreadMark(s[|s| - 1])
  }

  /** The write `markAllAsRead` issues for one notification. */
  function UnreadMark(n: Notification): seq<Write>
  {
    if n.read then [] else [MarkNotificationRead(n.id)]
  }

  /** An identity is marked exactly when some unread notification of `s`
      carries it. */
  lemma {:induction false} UnreadMarksExactly(s: seq<Notification>, id: string)
    ensures MarkNotificationRead(id) in UnreadMarks(s) <==> exists n :: n in s && !n.read && n.id == id
    decreases |s|
  {
    if |s| > 0 {
      var init := s[..|s| - 1];
      UnreadMarksExactly(init, id);
      assert s == init + [s[|s| - 1]];
      assert forall n :: n in s <==> n in init || n == s[|s| - 1];
    }
  }

  lemma UnreadMarksStep(s: seq<Notification>, i: nat)
    requires i < |s|
    ensures UnreadMarks(s[..i + 1]) == UnreadMarks(s[..i]) + UnreadMark(s[i])
  {
    assert s[..i + 1][..i] == s[..i];
  }

  /** `markAllAsRead(user)`: fetches `user`'s notifications into the shared
      list, then marks read each one that is still unread. The marking
      happens in place, so `marked` is the shared list afterwards. It keeps
      the fetched order, which is in general no longer the display order
      once read flags have changed. */
  method MarkAllAsRead(shared: seq<Notification>, user: User, store: Store, queryOk: bool)
    returns (marked: seq<Notification>, writes: seq<Write>)
    ensures var fetched := FetchNotifications(shared, user, store, queryOk).shared;
            && |marked| == |fetched|
            && (forall k :: 0 <= k < |marked| ==> marked[k] == fetched[k].(read := true))
            && writes == UnreadMarks(fetched)
    ensures forall k :: 0 <= k < |marked| ==> marked[k].read
  {
    var fetched := FetchNotifications(shared, user, store, queryOk).shared;
    marked := fetched;
    writes := [];
    var i := 0;
    while i < |marked|
      invariant 0 <= i <= |marked| == |fetched|
      invariant forall k :: 0 <= k < i ==> marked[k] == fetched[k].(read := true)
      invariant forall k :: i <= k < |marked| ==> marked[k] == fetched[k]
      invariant writes == UnreadMarks(fetched[..i])
    {
      UnreadMarksStep(fetched, i);
      if !marked[i].read {
        var m := MarkNotificationAsRead(marked[i]);
        marked := marked[i := m.notification];
        writes := writes + m.writes;
      }
      i := i + 1;
    }
    assert fetched[..i] == fetched;
  }

  /** With connectivity a created notification lands in its recipient's
      records, and only there; without it the store is untouched. */
  lemma AddNotificationReachesStore(store: Store, userToAlert: User, relatedRequest: Request,
                                    connected: bool, now: int, id: string)
    ensures var r := AddNotification(userToAlert, relatedRequest, connected, now, id);
            var after := ApplyWrites(store, r.writes);
            && (connected ==> Records(after, userToAlert.username) == Records(store, userToAlert.username) + [r.notification])
            && (!connected ==> after == store)
            && forall u :: u != userToAlert.username ==> Records(after, u) == Records(store, u)
  {
    var r := AddNotification(userToAlert, relatedRequest, connected, now, id);
    if connected {
      assert ApplyWrites(store, r.writes) == ApplyWrite(store, r.writes[0]);
    }
  }

  /** After `n` notifications for one user reach a store in which that user
      had none, a fetch hands back exactly those `n`, in display order:
      nothing is lost to paging. */
  lemma {:induction false} FetchAfterAdds(shared: seq<Notification>, store: Store, user: User, added: seq<Notification>)
    requires Records(store, user.username) == []
    requires forall k :: 0 <= k < |added| ==> added[k].recipient == user
    ensures var after := ApplyWrites(store, InsertAll(added));
            var f := FetchNotifications(shared, user, after, true).returned;
            && multiset(f) == multiset(added)
            && |f| == |added|
  {
    InsertAllRecords(store, user.username, added);
    var f := FetchNotifications(shared, user, ApplyWrites(store, InsertAll(added)), true).returned;
    assert |f| == |multiset(f)| == |multiset(added)| == |added|;
  }

  /** The insert writes for `added`, in order. */
  function InsertAll(added: seq<Notification>): (ws: seq<Write>)
    ensures |ws| == |added|
    ensures forall k :: 0 <= k < |added| ==> ws[k] == InsertNotification(added[k])
    decreases |added|
  {
    if |added| == 0 then [] else [InsertNotification(added[0])] + InsertAll(added[1..])
  }

  lemma {:induction false} InsertAllRecords(store: Store, username: string, added: seq<Notification>)
    requires forall k :: 0 <= k < |added| ==> added[k].recipient.username == username
    ensures Records(ApplyWrites(store, InsertAll(added)), username) == Records(store, username) + added
    decreases |added|
  {
    if |added| > 0 {
      var next := InsertFirst(store, username, added);
      var tail := added[1..];
      assert forall k :: 0 <= k < |tail| ==> tail[k].recipient.username == username by {
        forall k | 0 <= k < |tail| ensures tail[k] == added[k + 1] { }
      }
      InsertAllRecords(next, username, tail);
      AppendCons(Records(store, username), added);
    }
  }

  lemma AppendCons(prefix: seq<Notification>, s: seq<Notification>)
    requires |s| > 0
    ensures prefix + [s[0]] + s[1..] == prefix + s
  {
    assert s == [s[0]] + s[1..];
  }

  /** One step of `InsertAllRecords`: the first insert, applied on its own. */
  lemma InsertFirst(store: Store, username: string, added: seq<Notification>) returns (next: Store)
    requires |added| > 0 && added[0].recipient.username == username
    ensures ApplyWrites(store, InsertAll(added)) == ApplyWrites(next, InsertAll(added[1..]))
    ensures Records(next, username) == Records(store, username) + [added[0]]
  {
    next := ApplyWrite(store, InsertNotification(added[0]));
  }

  /** After clearing, a fetch for that user hands back nothing, however many
      records there were, and every other user's records are untouched. */
  lemma FetchAfterClear(shared: seq<Notification>, store: Store, user: User, queryOk: bool)
    ensures var c := ClearAllNotifications(shared, user);
            var after := ApplyWrites(store, c.writes);
            && FetchNotifications(c.shared, user, after, queryOk).returned == []
            && forall u :: u != user.username ==> Records(after, u) == Records(store, u)
  {
    var c := ClearAllNotifications(shared, user);
    assert ApplyWrites(store, c.writes) == ApplyWrite(store, c.writes[0]);
    var f := FetchNotifications(c.shared, user, ApplyWrites(store, c.writes), queryOk).returned;
    assert |f| == |multiset(f)| == 0;
  }

  /** Clearing a user who has no notifications changes nothing in the store. */
  lemma ClearEmptyUser(shared: seq<Notification>, store: Store, user: User)
    requires Records(store, user.username) == []
    ensures forall u :: Records(ApplyWrites(store, ClearAllNotifications(shared, user).writes), u) == Records(store, u)
  {
    var c := ClearAllNotifications(shared, user);
    assert ApplyWrites(store, c.writes) == ApplyWrite(store, c.writes[0]);
  }

  /** Marking a notification read in the store flips exactly the records that
      carry its identity to read; every other record keeps its flag, and no
      record changes in any other way. */
  lemma MarkReadInStore(store: Store, notification: Notification)
    ensures var after := ApplyWrites(store, MarkNotificationAsRead(notification).writes);
            forall u :: && |Records(after, u)| == |Records(store, u)|
                        && forall k :: 0 <= k < |Records(store, u)| ==>
                             && Records(after, u)[k].read == (Records(store, u)[k].read || Records(store, u)[k].id == notification.id)
                             && Records(after, u)[k].(read := false) == Records(store, u)[k].(read := false)
  {
    var ws := MarkNotificationAsRead(notification).writes;
    assert ApplyWrites(store, ws) == ApplyWrite(store, ws[0]);
  }

  /** Marking read twice is marking read once. */
  lemma MarkNotificationAsReadIdempotent(notification: Notification)
    ensures var once := MarkNotificationAsRead(notification).notification;
            MarkNotificationAsRead(once).notification == once
  {
  }

  /** In the store, the second update of a repeated mark changes nobody's
      records. */
  lemma MarkNotificationAsReadTwiceInStore(store: Store, notification: Notification)
    ensures var ws := MarkNotificationAsRead(notification).writes;
            forall u :: Records(ApplyWrites(store, ws + ws), u) == Records(ApplyWrites(store, ws), u)
  {
    var ws := MarkNotificationAsRead(notification).writes;
    var once := ApplyWrites(store, ws);
    ApplyWritesAppend(store, ws, ws);
    assert ApplyWrites(once, ws) == ApplyWrite(once, ws[0]);
    forall u
      ensures Records(ApplyWrite(once, ws[0]), u) == Records(once, u)
    {
      assert ApplyWrites(store, ws) == ApplyWrite(store, ws[0]);
    }
  }

  /** Applying only mark-read writes flips to read exactly the records whose
      identity one of them names. */
  lemma {:induction false} ApplyMarks(store: Store, ws: seq<Write>, username: string)
    requires forall w :: w in ws ==> w.MarkNotificationRead?
    ensures var before := Records(store, username);
            var after := Records(ApplyWrites(store, ws), username);
            && |after| == |before|
            && forall k :: 0 <= k < |before| ==>
                 after[k] == before[k].(read := before[k].read || MarkNotificationRead(before[k].id) in ws)
    decreases |ws|
  {
    if |ws| > 0 {
      var next := ApplyWrite(store, ws[0]);
      assert forall w :: w in ws[1..] ==> w in ws;
      ApplyMarks(next, ws[1..], username);
      assert ws == [ws[0]] + ws[1..];
      forall k | 0 <= k < |Records(store, username)|
        ensures MarkNotificationRead(Records(store, username)[k].id) in ws
                <==> (Records(store, username)[k].id == ws[0].notificationId
                      || MarkNotificationRead(Records(store, username)[k].id) in ws[1..])
      {
      }
    }
  }

  /** Once the writes `markAllAsRead` issued after a successful fetch have
      reached the store, every one of the user's records is read. */
  lemma MarkAllReachesStore(shared: seq<Notification>, user: User, store: Store)
    ensures var fetched := FetchNotifications(shared, user, store, true).shared;
            var after := ApplyWrites(store, UnreadMarks(fetched));
            forall n :: n in Records(after, user.username) ==> n.read
  {
    var fetched := FetchNotifications(shared, user, store, true).shared;
    var ws := UnreadMarks(fetched);
    var before := Records(store, user.username);
    ApplyMarks(store, ws, user.username);
    forall k | 0 <= k < |before| && !before[k].read
      ensures MarkNotificationRead(before[k].id) in ws
    {
      assert before[k] in multiset(before);
      assert before[k] in fetched;
      UnreadMarksExactly(fetched, before[k].id);
    }
  }
}
