/** The document store the controllers talk to, abstracted to its converged
    state: what every query eventually reports once all issued writes are
    visible. Paging, indexing lag and transport are not part of this model. */
module DocumentStore {
  import opened Entities

  datatype Store = Store(
    requests: seq<Request>,
    offers: seq<Offer>,
    notifications: map<string, seq<Notification>>)

  /** The notification records a query for `username` reports. */
  function Records(store: Store, username: string): seq<Notification>
  {
    if username in store.notifications then store.notifications[username] else []
  }

  /** `s` with every record carrying identity `id` flipped to read. */
  function MarkReadIn(s: seq<Notification>, id: string): (r: seq<Notification>)
    ensures |r| == |s|
    ensures forall k :: 0 <= k < |s| ==>
      r[k] == s[k].(read := s[k].read || s[k].id == id)
  {
    seq(|s|, k requires 0 <= k < |s| => s[k].(read := s[k].read || s[k].id == id))
  }

  /** The store once `w` has been applied. */
  function ApplyWrite(store: Store, w: Write): (r: Store)
    // a request or an offer is appended to its collection
    ensures w.InsertRequest? ==> r == store.(requests := store.requests + [w.request])
    ensures w.InsertOffer? ==> r == store.(offers := store.offers + [w.offer])
    // a notification lands in its recipient's records and nobody else's
    ensures w.InsertNotification? ==>
      && r.requests == store.requests && r.offers == store.offers
      && Records(r, w.notification.recipient.username)
         == Records(store, w.notification.recipient.username) + [w.notification]
      && forall u :: u != w.notification.recipient.username ==> Records(r, u) == Records(store, u)
    // marking read touches only the read flag of the records with that identity
    ensures w.MarkNotificationRead? ==>
      && r.requests == store.requests && r.offers == store.offers
      && forall u :: Records(r, u) == MarkReadIn(Records(store, u), w.notificationId)
    // clearing empties that user's records and leaves everyone else's alone
    ensures w.ClearNotifications? ==>
      && r.requests == store.requests && r.offers == store.offers
      && Records(r, w.username) == []
      && forall u :: u != w.username ==> Records(r, u) == Records(store, u)
  {
    match w
    case InsertRequest(req) => store.(requests := store.requests + [req])
    case InsertOffer(o) => store.(offers := store.offers + [o])
    case InsertNotification(n) =>
      var u := n.recipient.username;
      store.(notifications := store.notifications[u := Records(store, u) + [n]])
    case MarkNotificationRead(id) =>
      store.(notifications := map u | u in store.notifications :: MarkReadIn(store.notifications[u], id))
    case ClearNotifications(u) =>
      store.(notifications := store.notifications - {u})
  }

  /** The store once every write of `ws` has been applied, in order. */
  function ApplyWrites(store: Store, ws: seq<Write>): Store
    decreases |ws|
  {
    if |ws| == 0 then store else ApplyWrites(ApplyWrite(store, ws[0]), ws[1..])
  }

  lemma {:induction false} ApplyWritesAppend(store: Store, ws: seq<Write>, vs: seq<Write>)
    ensures ApplyWrites(store, ws + vs) == ApplyWrites(ApplyWrites(store, ws), vs)
    decreases |ws|
  {
    if |ws| == 0 {
      assert ws + vs == vs;
    } else {
      assert (ws + vs)[1..] == ws[1..] + vs;
      ApplyWritesAppend(ApplyWrite(store, ws[0]), ws[1..], vs);
    }
  }
}
