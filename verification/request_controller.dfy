/** The request controller: validating and submitting a new request, a
    driver's offer, the rider's confirmation of a driver, cancellation, the
    cached request list and the parameters of a rider's request query.
    The cached list is passed in and returned; the store writes and the
    notifications each operation produces are returned as a log. */
module RequestController {
  import opened Entities
  import opened DocumentStore
  import Decimal
  import NotificationController

  const MissingLocationMessage: string := "You must first select a start and end location"
  const MissingFareMessage: string := "You must first estimate the fare"

  /** The constructor: the cached list is created when there is none, and an
      existing one is kept. */
  function NewRequestController(cache: Option<seq<Request>>): (r: Option<seq<Request>>)
    ensures r.Some?
    ensures cache.Some? ==> r == cache
    ensures cache.None? ==> r.value == []
  {
    if cache.None? then Some([]) else cache
  }

  /** `clear()`: the cache is replaced by an empty list. */
  function Clear(cache: seq<Request>): (r: seq<Request>)
    ensures |r| == 0
  {
    []
  }

  /** After `clear()` no rider has any cached request. */
  lemma ClearLeavesNoRequests(cache: seq<Request>, rider: User)
    ensures RequestsOf(Clear(cache), rider) == []
  {
  }

  /** The answer of `addRequest` and the writes it issued. `error` is `None`
      where the source returns `null`. */
  datatype Submission = Submission(error: Option<string>, writes: seq<Write>)

  /** `addRequest(request)`: a request without both locations is refused
      first, then one whose fare is still the unestimated sentinel; only an
      accepted request is inserted into the store. */
  function AddRequest(request: Request): (r: Submission)
    ensures (request.start.None? || request.end.None?) ==> r == Submission(Some(MissingLocationMessage), [])
    ensures (request.start.Some? && request.end.Some? && request.fare == UnestimatedFare)
            ==> r == Submission(Some(MissingFareMessage), [])
    ensures r.error.None? <==> request.start.Some? && request.end.Some? && request.fare != UnestimatedFare
    ensures r.error.None? ==> r.writes == [InsertRequest(request)]
  {
    if request.start.None? || request.end.None? then
      Submission(Some(MissingLocationMessage), [])
    else if request.fare == UnestimatedFare then
      Submission(Some(MissingFareMessage), [])
    else
      Submission(None, [InsertRequest(request)])
  }

  /** The requests of `cache` whose rider is `rider`, in cache order. */
  function RequestsOf(cache: seq<Request>, rider: User): (found: seq<Request>)
    ensures |found| <= |cache|
    ensures forall x :: x in found <==> x in cache && x.rider == rider
    decreases |cache|
  {
    if |cache| == 0 then []
    else
      var last := cache[|cache| - 1];
      assert cache == cache[..|cache| - 1] + [last];
      RequestsOf(cache[..|cache| - 1], rider) + (if last.rider == rider then [last] else [])
  }

  /** `getRequests(rider)`: walks the cache and keeps the requests whose rider
      is `rider`. */
  method GetRequests(cache: seq<Request>, rider: User) returns (found: seq<Request>)
    ensures found == RequestsOf(cache, rider)
    ensures forall x :: x in found <==> x in cache && x.rider == rider
  {
    found := [];
    var i := 0;
    while i < |cache|
      invariant 0 <= i <= |cache|
      invariant found == RequestsOf(cache[..i], rider)
    {
      assert cache[..i + 1][..i] == cache[..i];
      if cache[i].rider == rider {
        found := found + [cache[i]];
      }
      i := i + 1;
    }
    assert cache[..i] == cache;
  }

  /** Filtering keeps cache order: the requests found in a concatenation are
      those found in the first part followed by those found in the second. */
  lemma {:induction false} RequestsOfAppend(a: seq<Request>, b: seq<Request>, rider: User)
    ensures RequestsOf(a + b, rider) == RequestsOf(a, rider) + RequestsOf(b, rider)
    decreases |b|
  {
    if |b| > 0 {
      var b' := b[..|b| - 1];
      assert (a + b)[..|a + b| - 1] == a + b';
      assert b[..|b| - 1] == b';
      RequestsOfAppend(a, b', rider);
    } else {
      assert a + b == a;
    }
  }

  /** The cached-request test: a rider with no requests gets an empty list;
      another rider's request does not show up; once the rider's own request
      is cached, it is the one and only request found. */
  lemma GetRequestsTest(rider1: User, rider2: User, request1: Request, request2: Request)
    requires rider1 != rider2
    requires request1.rider == rider1 && request2.rider == rider2
    ensures RequestsOf([], rider1) == []
    ensures RequestsOf([request2], rider1) == []
    ensures RequestsOf([request2, request1], rider1) == [request1]
  {
    RequestsOfAppend([request2], [request1], rider1);
    assert [request2] + [request1] == [request2, request1];
  }

  /** `cancelRequest(rider, request)`: the request becomes CANCELLED from any
      status; nothing else about it changes. The rider is not consulted. */
  function CancelRequest(rider: User, request: Request): (r: Request)
    ensures r.status == Cancelled
    ensures r.(status := request.status) == request
  {
    request.(status := Cancelled)
  }

  /** Cancelling does not depend on who asks, and cancelling twice is
      cancelling once. */
  lemma CancelIgnoresRider(rider: User, other: User, request: Request)
    ensures CancelRequest(rider, request) == CancelRequest(other, request)
    ensures CancelRequest(rider, CancelRequest(rider, request)) == CancelRequest(rider, request)
  {
  }

  /** The request after an offer, the notification the offer produced, and
      the writes it issued. */
  datatype OfferOutcome = OfferOutcome(request: Request, notification: Notification, writes: seq<Write>)

  /** `addDriver(request, driver)`: the offer is written to the store, the
      request's rider is notified, and the driver joins the request's
      offering drivers. */
  function AddDriver(request: Request, driver: User, connected: bool, now: int, notificationId: string): (r: OfferOutcome)
    ensures driver in r.request.offeringDrivers
    ensures r.request.offeringDrivers - {driver} == request.offeringDrivers - {driver}
    ensures r.request.status == Offered
    ensures r.request.rider == request.rider && r.request.id == request.id
    ensures r.request.start == request.start && r.request.end == request.end
    ensures r.request.description == request.description && r.request.fare == request.fare
    ensures r.notification.recipient == request.rider && r.notification.requestId == request.id
    ensures !r.notification.read
    ensures |r.writes| == (if connected then 2 else 1)
    ensures r.writes[0] == InsertOffer(Offer(request.id, driver))
    ensures forall k :: 1 <= k < |r.writes| ==> r.writes[k] == InsertNotification(r.notification)
  {
    var offer := Offer(request.id, driver);
    var added := NotificationController.AddNotification(request.rider, request, connected, now, notificationId);
    OfferOutcome(AddOfferingDriver(request, driver), added.notification, [InsertOffer(offer)] + added.writes)
  }

  /** `confirmDriver(request, driver)`: the confirmed driver is notified. The
      request itself is not touched. */
  function ConfirmDriver(request: Request, driver: User, connected: bool, now: int, notificationId: string)
    : (r: NotificationController.Added)
    ensures r.notification.recipient == driver && r.notification.requestId == request.id
    ensures !r.notification.read
    ensures |r.writes| == (if connected then 1 else 0)
    ensures forall w :: w in r.writes ==> w == InsertNotification(r.notification)
  {
    NotificationController.AddNotification(driver, request, connected, now, notificationId)
  }

  /** `completeRequest` and `payForRequest` have empty bodies: the request
      comes out as it went in. */
  function CompleteRequest(request: Request): (r: Request)
    ensures r == request
  {
    request
  }

  function PayForRequest(request: Request): (r: Request)
    ensures r == request
  {
    request
  }

  /** `fetchRequestsWhereRider(rider, statuses...)` hands the store query a
      string array: the rider's user name, then the decimal text of each
      status, in order. */
  method QueryParameters(username: string, statuses: seq<Int32>) returns (vars: seq<string>)
    ensures |vars| == 1 + |statuses|
    ensures vars[0] == username
    ensures forall i :: 1 <= i < |vars| ==> vars[i] == Decimal.Text(statuses[i - 1] as int)
    ensures forall i :: 1 <= i < |vars| ==> Decimal.Parse(vars[i]) == Decimal.Value(statuses[i - 1] as int)
  {
    vars := [username];
    var i := 1;
    while i <= |statuses|
      invariant 1 <= i <= |statuses| + 1
      invariant |vars| == i
      invariant vars[0] == username
      invariant forall k :: 1 <= k < i ==> vars[k] == Decimal.Text(statuses[k - 1] as int)
    {
      vars := vars + [Decimal.Text(statuses[i - 1] as int)];
      i := i + 1;
    }
    forall k | 1 <= k < |vars|
      ensures Decimal.Parse(vars[k]) == Decimal.Value(statuses[k - 1] as int)
    {
      Decimal.TextRoundTrip(statuses[k - 1] as int);
    }
  }

  /** An accepted request reaches the store exactly as the caller holds it,
      status included; a refused one leaves the store as it was. */
  lemma AddRequestReachesStore(store: Store, request: Request)
    ensures var after := ApplyWrites(store, AddRequest(request).writes);
            && (AddRequest(request).error.None? ==> after == store.(requests := store.requests + [request]))
            && (AddRequest(request).error.Some? ==> after == store)
  {
    var ws := AddRequest(request).writes;
    if ws != [] {
      assert ws[1..] == [];
    }
  }

  /** Once the writes of `addDriver` land, the store holds the new offer, and
      the request's rider, and nobody else, holds the new notification when
      there was connectivity. */
  lemma AddDriverReachesStore(store: Store, request: Request, driver: User, connected: bool, now: int, notificationId: string)
    ensures var o := AddDriver(request, driver, connected, now, notificationId);
            var after := ApplyWrites(store, o.writes);
            var u := request.rider.username;
            && after.offers == store.offers + [Offer(request.id, driver)]
            && after.requests == store.requests
            && Records(after, u) == Records(store, u) + (if connected then [o.notification] else [])
            && forall v :: v != u ==> Records(after, v) == Records(store, v)
  {
    var o := AddDriver(request, driver, connected, now, notificationId);
    var offered := ApplyWrite(store, o.writes[0]);
    assert ApplyWrites(store, o.writes) == ApplyWrites(offered, o.writes[1..]);
    if connected {
      assert o.writes[1..][1..] == [];
      assert ApplyWrites(offered, o.writes[1..]) == ApplyWrite(offered, InsertNotification(o.notification));
    } else {
      assert o.writes[1..] == [];
    }
  }

  /** Once the write of `confirmDriver` lands, the driver, and nobody else,
      holds the confirmation when there was connectivity. */
  lemma ConfirmDriverReachesStore(store: Store, request: Request, driver: User, connected: bool, now: int, notificationId: string)
    ensures var c := ConfirmDriver(request, driver, connected, now, notificationId);
            var after := ApplyWrites(store, c.writes);
            && after.requests == store.requests && after.offers == store.offers
            && Records(after, driver.username) == Records(store, driver.username) + (if connected then [c.notification] else [])
            && forall v :: v != driver.username ==> Records(after, v) == Records(store, v)
  {
    var c := ConfirmDriver(request, driver, connected, now, notificationId);
    if connected {
      assert c.writes == [InsertNotification(c.notification)];
      assert c.writes[1..] == [];
    }
  }

  /** A driver without notifications offers on another user's request and
      is then confirmed: the driver holds exactly the confirmation, or
      nothing when the confirmation was created offline. */
  lemma {:induction false} OfferThenConfirmNotifiesDriverOnce(
    store: Store, request: Request, driver: User,
    connected1: bool, now1: int, id1: string, connected2: bool, now2: int, id2: string)
    requires Records(store, driver.username) == []
    requires request.rider.username != driver.username
    ensures var o := AddDriver(request, driver, connected1, now1, id1);
            var c := ConfirmDriver(o.request, driver, connected2, now2, id2);
            Records(ApplyWrites(store, o.writes + c.writes), driver.username)
              == (if connected2 then [c.notification] else [])
  {
    var o := AddDriver(request, driver, connected1, now1, id1);
    var c := ConfirmDriver(o.request, driver, connected2, now2, id2);
    ApplyWritesAppend(store, o.writes, c.writes);
    AddDriverReachesStore(store, request, driver, connected1, now1, id1);
    var offered := ApplyWrites(store, o.writes);
    ConfirmDriverReachesStore(offered, o.request, driver, connected2, now2, id2);
  }

  /** The status a request reads through its life, as the controller is
      written: OPEN when created, OFFERED after an offer; `confirmDriver`
      returns no request and does not touch the one it is given, and
      completing and paying return it unchanged, so it still reads OFFERED;
      cancelling makes it CANCELLED. */
  lemma StatusTestsAsImplemented(id: string, rider: User, start: Option<Location>, end: Option<Location>,
                                 description: string, fare: int, driver: User,
                                 connected: bool, now: int, notificationId: string)
    ensures var created := NewRequest(id, rider, start, end, description, fare);
            var offered := AddDriver(created, driver, connected, now, notificationId).request;
            var completed := CompleteRequest(offered);
            var paid := PayForRequest(completed);
            && created.status == Open
            && offered.status == Offered
            && completed.status == Offered
            && paid.status == Offered
            && CancelRequest(rider, paid).status == Cancelled
  {
  }
}
