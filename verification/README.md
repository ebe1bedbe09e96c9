# Carrier controllers in Dafny

Carrier is an Android ride-sharing app. A rider posts a request, drivers
offer to take it, the rider confirms a driver, and the people involved are
notified. Requests, offers and notifications live in a remote Elasticsearch
document store. This project models the three controllers that sit in front
of that store:

- `RequestController`. It validates a new request and submits it. It records
  a driver's offer and notifies the rider. It notifies a confirmed driver. It
  cancels a request, filters the cached request list by rider, and encodes
  the parameters of a rider's request query.
- `NotificationController`. It fetches a user's notifications into one
  shared list, sorted for display: unread first, then newest first. It
  writes a new notification to the store only when there is connectivity. It marks one
  notification read or all of them, and clears a user's notifications.
- `UserController`. It creates the rider and driver lists lazily and resets
  them. It authenticates against the user table, and sets a user's fields.

Everything is a value. The controllers' static fields become an explicit
state that is passed in and returned: the request cache, the shared
notification list, and the user controller's lists, table and logged-in
user. Each operation returns the store writes it issued, as a log
(`Entities.Write`). `DocumentStore` is an abstract store in its converged
state: every issued write is visible. `ApplyWrites` turns a log into the
store the next query sees. Several things become parameters:

- connectivity (`connected`);
- whether a store query succeeded (`queryOk`);
- the clock (`now`);
- the identity the store gives a new notification.

The display order of notifications is rebuilt from the sorting test and the
controller's doc comment. The class that defines it is not part of this
model. `NotificationOrder` defines the order and a stable insertion sort. It
proves that the sort's result is in display order and is a permutation of
its input. When no two notifications tie, it also proves that this result
is the only such list.

The controllers have no duplicate-offer rejection, no limit of one
confirmed driver, no restriction of cancelling to early states, and they
set a notification's read flag whether or not the store update succeeded;
the model has none of these guards either. The status
tests expect CONFIRMED, COMPLETE and PAID after confirming, completing and
paying. But `confirmDriver` does not touch the status, and `completeRequest`
and `payForRequest` are empty. `RequestController.StatusTestsAsImplemented`
states what the code does: the status stays OFFERED.

The rider test expects its rider in `getUserList()` (RiderTests.java:61-62),
which the user controller does not have, and nothing adds the rider: the
test's own adding lines are commented out (RiderTests.java:54-55). The only
assignment of the table sets it to null (UserController.java:23), so in
every state the controller can reach, `authenticate` returns false.
`UserController.Authenticate` models the method for any table;
`UserController.AuthenticationTest` replays the test on a filled table that
no modelled operation builds; `UserController.AuthenticateWithoutTable`
states what the controller does on its own.

Request.java, Offer.java and Notification.java are not part of this model.
Two facts about them come from the tests:

- A request is OPEN when created (StatusTests.java:30-34).
- After `addOfferingDriver`, the driver is in the offering set and the
  request reads as OFFERED (StatusTests.java:50-52,
  RequestControllerTest.java:20-21).

## Model

| member | source | states |
|---|---|---|
| Entities.NewRequest | app/src/test/java/comcmput301f16t01/github/carrier/StatusTests.java:30-34 | a newly built request is OPEN and has no offering drivers; every given field is kept |
| Entities.AddOfferingDriver | app/src/main/java/comcmput301f16t01/github/carrier/Requests/RequestController.java:99 | the driver joins the offering set, the other offering drivers stay, the request reads OFFERED, and its other fields are unchanged |
| Decimal.Text | app/src/main/java/comcmput301f16t01/github/carrier/Requests/RequestController.java:185 | `Integer.toString`: a leading minus sign exactly for a negative number, decimal digits everywhere else, and no leading zero |
| Decimal.NatTextRoundTrip | app/src/main/java/comcmput301f16t01/github/carrier/Requests/RequestController.java:185 | the digits written for a natural number read back as that number |
| Decimal.TextRoundTrip | app/src/main/java/comcmput301f16t01/github/carrier/Requests/RequestController.java:185 | the text `Integer.toString` writes for any integer, including a negative one, parses back as that integer |
| Decimal.TextInjective | app/src/main/java/comcmput301f16t01/github/carrier/Requests/RequestController.java:185 | two different statuses never produce the same query parameter |
| NotificationOrder.BeforeIsStrictWeakOrder | app/src/main/java/comcmput301f16t01/github/carrier/Notifications/NotificationController.java:33-34 | the display order is irreflexive, asymmetric and transitive; "may precede" is transitive and total, so ties behave like equals |
| NotificationOrder.SortedCharacterization | app/src/androidTest/java/comcmput301f16t01/github/carrier/NotificationTest.java:77-81 | a list is in display order if and only if every unread notification precedes every read one and dates never increase within one read flag |
| NotificationOrder.Insert | app/src/main/java/comcmput301f16t01/github/carrier/Notifications/NotificationController.java:42 | inserting into a sorted list keeps it sorted and adds exactly the one notification |
| NotificationOrder.SortNotifications | app/src/main/java/comcmput301f16t01/github/carrier/Notifications/NotificationController.java:42 | the sort returns a list in display order that is a permutation of its input |
| NotificationOrder.SortedArrangementUnique | app/src/main/java/comcmput301f16t01/github/carrier/Notifications/NotificationController.java:42 | when no two different notifications tie, two sorted arrangements of the same notifications are equal |
| NotificationOrder.SortIsDetermined | app/src/main/java/comcmput301f16t01/github/carrier/Notifications/NotificationController.java:42 | when nothing ties, the sort returns the one sorted arrangement of its input |
| NotificationOrder.SortingTestReadPriority | app/src/androidTest/java/comcmput301f16t01/github/carrier/NotificationTest.java:91-105 | a read and an unread notification with the same date, given read first, sort unread first |
| NotificationOrder.SortingTestNewestFirst | app/src/androidTest/java/comcmput301f16t01/github/carrier/NotificationTest.java:107-122 | of two unread notifications dated 400 and 600, the one dated 600 sorts first |
| NotificationOrder.SortingTestOrder | app/src/androidTest/java/comcmput301f16t01/github/carrier/NotificationTest.java:124-138 | unread@400, read@600, unread@500, read@1000 sort to exactly unread@500, unread@400, read@1000, read@600 |
| NotificationController.NotificationListInstance | app/src/main/java/comcmput301f16t01/github/carrier/Notifications/NotificationController.java:25-27 | every caller is handed the one shared list itself |
| NotificationController.FetchNotifications | app/src/main/java/comcmput301f16t01/github/carrier/Notifications/NotificationController.java:36-47 | the returned list is the shared list; it is a sorted permutation of the user's records, or empty when the query fails |
| NotificationController.AddNotification | app/src/main/java/comcmput301f16t01/github/carrier/Notifications/NotificationController.java:90-98 | the new notification is unread and addressed to the given user about the given request; it is written to the store if and only if there is connectivity |
| NotificationController.AddNotificationReachesStore | app/src/main/java/comcmput301f16t01/github/carrier/Notifications/NotificationController.java:93-96 | with connectivity the notification is appended to its recipient's records and nobody else's; without it the store is unchanged |
| NotificationController.MarkNotificationAsRead | app/src/main/java/comcmput301f16t01/github/carrier/Notifications/NotificationController.java:105-114 | the notification is read afterwards whatever the store answered, nothing else about it changes, and one update by its identity is issued |
| NotificationController.MarkNotificationAsReadIdempotent | app/src/main/java/comcmput301f16t01/github/carrier/Notifications/NotificationController.java:105-114 | marking an already-marked notification read changes nothing |
| NotificationController.MarkNotificationAsReadTwiceInStore | app/src/main/java/comcmput301f16t01/github/carrier/Notifications/NotificationController.java:105-114 | the update a second mark issues leaves every user's records as the first one left them |
| NotificationController.MarkReadInStore | app/src/androidTest/java/comcmput301f16t01/github/carrier/NotificationTest.java:330-351 | in the store, exactly the records with that identity become read; every other record keeps its read flag and all its other fields |
| NotificationController.UnreadMarks | app/src/main/java/comcmput301f16t01/github/carrier/Notifications/NotificationController.java:124-128 | only mark-read updates are issued, at most one per notification |
| NotificationController.UnreadMarksExactly | app/src/main/java/comcmput301f16t01/github/carrier/Notifications/NotificationController.java:124-128 | an update is issued for an identity if and only if some unread notification in the list carries it |
| NotificationController.MarkAllAsRead | app/src/main/java/comcmput301f16t01/github/carrier/Notifications/NotificationController.java:122-129 | every notification of the fetched list is read afterwards, nothing else about them changes, and updates go out only for the ones that were unread |
| NotificationController.ApplyMarks | app/src/main/java/comcmput301f16t01/github/carrier/Notifications/NotificationController.java:124-128 | a batch of mark-read updates makes read exactly the records whose identity one of the updates names |
| NotificationController.MarkAllReachesStore | app/src/main/java/comcmput301f16t01/github/carrier/Notifications/NotificationController.java:122-129 | once the updates of `markAllAsRead` reach the store, every one of the user's records is read |
| NotificationController.ClearAllNotifications | app/src/main/java/comcmput301f16t01/github/carrier/Notifications/NotificationController.java:69-81 | the shared list is empty afterwards and one delete of the user's records is issued |
| NotificationController.FetchAfterClear | app/src/androidTest/java/comcmput301f16t01/github/carrier/NotificationTest.java:398-411 | a fetch after clearing yields no notifications, however many there were, and other users' records are untouched |
| NotificationController.ClearEmptyUser | app/src/androidTest/java/comcmput301f16t01/github/carrier/NotificationTest.java:362-377 | clearing a user who has no notifications changes no one's records |
| NotificationController.InsertAll | app/src/androidTest/java/comcmput301f16t01/github/carrier/NotificationTest.java:379-381 | one insert per created notification, in creation order |
| NotificationController.InsertAllRecords | app/src/androidTest/java/comcmput301f16t01/github/carrier/NotificationTest.java:379-381 | after the inserts, the user's records are the old ones followed by every created notification |
| NotificationController.FetchAfterAdds | app/src/androidTest/java/comcmput301f16t01/github/carrier/NotificationTest.java:379-396 | after any number of notifications (15 in the test) reach an empty user, a fetch returns all of them and nothing else |
| RequestController.NewRequestController | app/src/main/java/comcmput301f16t01/github/carrier/Requests/RequestController.java:31-36 | the constructor creates the cache when there is none and never replaces an existing one |
| RequestController.Clear | app/src/main/java/comcmput301f16t01/github/carrier/Requests/RequestController.java:53-55 | the cache is empty afterwards |
| RequestController.ClearLeavesNoRequests | app/src/main/java/comcmput301f16t01/github/carrier/Requests/RequestController.java:53-55 | after clearing, no rider has a cached request |
| RequestController.AddRequest | app/src/main/java/comcmput301f16t01/github/carrier/Requests/RequestController.java:39-49 | a missing location is refused first, then the fare sentinel -1, each with its message and no write; otherwise the answer is null and exactly one insert of the request is issued |
| RequestController.AddRequestReachesStore | app/src/main/java/comcmput301f16t01/github/carrier/Requests/RequestController.java:44-47 | an accepted request is stored exactly as the caller holds it (status included); a refused one leaves the store unchanged |
| RequestController.RequestsOf | app/src/main/java/comcmput301f16t01/github/carrier/Requests/RequestController.java:61-69 | a request is found if and only if it is cached and its rider is the given rider |
| RequestController.GetRequests | app/src/main/java/comcmput301f16t01/github/carrier/Requests/RequestController.java:61-69 | the loop over the cache returns exactly the rider's requests, in cache order |
| RequestController.RequestsOfAppend | app/src/main/java/comcmput301f16t01/github/carrier/Requests/RequestController.java:63-67 | filtering keeps the cache order: filtering a concatenation concatenates the filtered parts |
| RequestController.GetRequestsTest | app/src/test/java/comcmput301f16t01/github/carrier/RequestControllerTest.java:40-59 | no requests for a rider with none; another rider's request is not found; a rider's own request is the only one found |
| RequestController.CancelRequest | app/src/main/java/comcmput301f16t01/github/carrier/Requests/RequestController.java:73-76 | the request is CANCELLED from any prior status, and nothing else about it changes |
| RequestController.CancelIgnoresRider | app/src/main/java/comcmput301f16t01/github/carrier/Requests/RequestController.java:72-76 | the rider argument makes no difference, and cancelling twice is cancelling once |
| RequestController.AddDriver | app/src/main/java/comcmput301f16t01/github/carrier/Requests/RequestController.java:86-100 | one offer write and one notification; the notification is unread and goes to the request's rider; the driver joins the offering drivers and the request reads OFFERED, and its identity, rider, locations, description and fare are unchanged |
| RequestController.AddDriverReachesStore | app/src/main/java/comcmput301f16t01/github/carrier/Requests/RequestController.java:88-96 | the store gains exactly that offer; the rider gains exactly one notification when connected; no one else's notifications change |
| RequestController.ConfirmDriver | app/src/main/java/comcmput301f16t01/github/carrier/Requests/RequestController.java:109-116 | one unread notification about the request goes to the confirmed driver; with connectivity it is the only write issued |
| RequestController.ConfirmDriverReachesStore | app/src/main/java/comcmput301f16t01/github/carrier/Requests/RequestController.java:109-116 | with connectivity the confirmation is appended to the driver's records and nobody else's; requests and offers are untouched |
| RequestController.OfferThenConfirmNotifiesDriverOnce | app/src/androidTest/java/comcmput301f16t01/github/carrier/NotificationTest.java:238-279 | a driver with no notifications who offers on another user's request and is confirmed then holds exactly one notification, the confirmation |
| RequestController.StatusTestsAsImplemented | app/src/main/java/comcmput301f16t01/github/carrier/Requests/RequestController.java:109-122 | a new request is OPEN and becomes OFFERED after an offer; confirming, completing and paying leave it OFFERED; cancelling makes it CANCELLED |
| RequestController.CompleteRequest | app/src/main/java/comcmput301f16t01/github/carrier/Requests/RequestController.java:118-119 | the request comes out exactly as it went in |
| RequestController.PayForRequest | app/src/main/java/comcmput301f16t01/github/carrier/Requests/RequestController.java:121-122 | the request comes out exactly as it went in |
| RequestController.QueryParameters | app/src/main/java/comcmput301f16t01/github/carrier/Requests/RequestController.java:182-186 | the parameter array has one more element than the statuses; element 0 is the user name; element i is the decimal text of status i-1, and it parses back to that status |
| UserController.NewUserController | app/src/main/java/comcmput301f16t01/github/carrier/UserController.java:27-34 | the constructor creates each missing list empty and never replaces an existing one |
| UserController.GetRiderList | app/src/main/java/comcmput301f16t01/github/carrier/UserController.java:39-44 | the rider list is created when absent; the returned list is the one held afterwards, and an existing list is returned unchanged |
| UserController.GetDriverList | app/src/main/java/comcmput301f16t01/github/carrier/UserController.java:49-54 | the driver list is created when absent; the returned list is the one held afterwards, and an existing list is returned unchanged |
| UserController.GettersAreStable | app/src/main/java/comcmput301f16t01/github/carrier/UserController.java:39-54 | asking for a list a second time returns the same list and changes nothing |
| UserController.Reset | app/src/main/java/comcmput301f16t01/github/carrier/UserController.java:136-139 | both lists are empty afterwards; the user table and the logged-in user are untouched |
| UserController.Authenticate | app/src/main/java/comcmput301f16t01/github/carrier/UserController.java:112-130 | success if and only if a table exists, holds the user name, and the password equals the stored one; success logs that user in, and any failure changes nothing |
| UserController.AuthenticationTest | app/src/test/java/comcmput301f16t01/github/carrier/RiderTests.java:65-71 | the right credentials log the user in; an unknown user name is refused and the logged-in user stays |
| UserController.AuthenticateWithoutTable | app/src/main/java/comcmput301f16t01/github/carrier/UserController.java:23 | the constructor, the list getters and `reset` never create the user table, and without it every authentication fails and changes nothing |
| UserController.SetEmail | app/src/main/java/comcmput301f16t01/github/carrier/UserController.java:81-83 | the email becomes the given one and no other field changes |
| UserController.SetPhone | app/src/main/java/comcmput301f16t01/github/carrier/UserController.java:85-87 | the phone becomes the given one and no other field changes |
| UserController.SetUsername | app/src/main/java/comcmput301f16t01/github/carrier/UserController.java:89-90 | the user name becomes the given one and no other field changes |
| UserController.SettersRestore | app/src/main/java/comcmput301f16t01/github/carrier/UserController.java:81-90 | setting a field back to its old value restores the user |

## Left out

- The Elasticsearch tasks, `AsyncTask.get()` blocking and the network are I/O. The store is the abstract converged `DocumentStore`. Whether an issued write lands is not modelled: the lemmas describe the store once the writes have landed.
- Indexing lag and the sleep-and-repoll loops of the instrumentation tests are timing workarounds. Only the converged end state is modelled.
- The store's 10-result page limit belongs to the store controller, which is not part of this model. Fetch and clear are complete over the abstract store.
- Connectivity detection, the clock that dates a notification, and the store's assignment of a notification identity are inputs, not modelled behaviour.
- `searchByKeyword`, `searchByLocation`, `getOfferedRequests`, `clearAllRiderRequests`, `fetchAllRequestsWhereRider`, `asyncUnreadNotification` and the deprecated stubs are store queries or empty. Of `fetchRequestsWhereRider`, only the parameter encoding is modelled: the query and the cache replacement depend on the store controller.
- `getResult` returns the request list the controller holds (RequestController.java:248-250) and `addListener` registers a listener on it (RequestController.java:213-215). The held list is filled by the search queries, which are not modelled, and listeners are a UI concern.
- `uniqueRiderUsername` and `uniqueDriverUsername` always return false, and the user controller's `addDriver` and `addRider` are empty.
- The `Offer` constructor's possible `IllegalArgumentException` is not modelled: Offer.java is not part of this model.
- There is no status progression to CONFIRMED, COMPLETE or PAID, and no guard on offers, confirmation or cancellation. The controller has none (see `RequestController.StatusTestsAsImplemented`).
- Fare arithmetic and location contents are left out. The fare is an integer compared only with -1, and a location only matters by its presence.
- Entities.AddOfferingDriver: Request.java is not part of this model. The tests only show a fresh OPEN request becoming OFFERED; the model assumes the request reads OFFERED after any offer, whatever its earlier status, and keeps the offering drivers as a set, while the source's comments speak of an ArrayList that would also record the order of offers and repeated offers.
- Aliasing is not modelled. `cancelRequest` and `addDriver` change a request object that the cache also holds; the setters change a user that the table and the logged-in user may also hold; `clearAllNotifications` empties the very list earlier `fetchNotifications` calls returned. Here each operation returns a new value, and other holders keep the old one.
- A null `statuses` argument to `fetchRequestsWhereRider` is not modelled. Its doc comment says null means every status (RequestController.java:174), but the code reads `statuses.length` (RequestController.java:182) and would throw.
- Java reference identity is modelled as value equality. This applies to `request.getRider() == rider` and to "the same list instance".
- Null arguments, which make the source throw `NullPointerException` outside its try blocks, are not modelled.
- The search UI (SearchActivity.java) is presentation.
- NotificationOrder.SortNotifications: it does not state stability among tied notifications. The insertion sort used is stable, like `Collections.sort`, but only sortedness and permutation are proved.
