/** The records the Carrier controllers work on: users, requests, offers,
    notifications, and the writes the controllers issue to the document store.
    Java object references become immutable values; a `null` reference
    becomes `None`. */
module Entities {

  datatype Option<+T> = None | Some(value: T)

  /** A 32-bit Java `int`, the element type of the status filters. */
  newtype Int32 = x: int | -0x8000_0000 <= x < 0x8000_0000

  /** An account. Its identity in the store is its user name. */
  datatype User = User(username: string, password: string, email: string, phone: string)

  /** A place picked on the map. Only its presence on a request matters here. */
  datatype Location = Location(place: string)

  /** The status a request can carry. */
  datatype Status = Open | Offered | Confirmed | Complete | Paid | Cancelled

  /** The fare value a request carries until the rider has estimated it. */
  const UnestimatedFare: int := -1

  /** A rider's posted trip. The offering drivers are a set: only membership matters. */
  datatype Request = Request(
    id: string,
    rider: User,
    start: Option<Location>,
    end: Option<Location>,
    description: string,
    fare: int,
    status: Status,
    offeringDrivers: set<User>)

  /** A freshly created request: OPEN, with no offers yet. */
  function NewRequest(id: string, rider: User, start: Option<Location>, end: Option<Location>,
                      description: string, fare: int): (r: Request)
    ensures r.status == Open && r.offeringDrivers == {}
    ensures r.id == id && r.rider == rider && r.start == start && r.end == end
    ensures r.description == description && r.fare == fare
  {
    Request(id, rider, start, end, description, fare, Open, {})
  }

  /** The request after `driver` has offered on it: the driver joins the
      offering set and the request reads as OFFERED. */
  function AddOfferingDriver(request: Request, driver: User): (r: Request)
    ensures driver in r.offeringDrivers
    ensures r.offeringDrivers - {driver} == request.offeringDrivers - {driver}
    ensures r.status == Offered
    ensures r.id == request.id && r.rider == request.rider && r.fare == request.fare
    ensures r.start == request.start && r.end == request.end && r.description == request.description
  {
    request.(offeringDrivers := request.offeringDrivers + {driver}, status := Offered)
  }

  /** A driver's offer on a request, identified by the pair (request, driver). */
  datatype Offer = Offer(requestId: string, driver: User)

  /** "User `recipient` should know about an event on request `requestId`".
      The `id` is the identity the record carries in the store. */
  datatype Notification = Notification(id: string, recipient: User, requestId: string, date: int, read: bool)

  /** A write the controllers issue to the document store. */
  datatype Write =
    | InsertRequest(request: Request)
    | InsertOffer(offer: Offer)
    | InsertNotification(notification: Notification)
    | MarkNotificationRead(notificationId: string)
    | ClearNotifications(username: string)
}
