# Iris service: verified models of its stateful core

This project models, in Dafny 4.11, the parts of the Iris customer service whose correctness spans
many steps, and proves what those parts promise over every run. `dafny verify dfyconfig.toml` checks
all of it.

| file | what it models |
|---|---|
| `Wire.dfy`, `Enrichment.dfy`, `Protocol.dfy` | Kafka request-reply: messages and headers, the broker object of one instance with its two loops, and the protocol between any number of instances as a state machine over events |
| `Lifecycle.dfy` | start and stop of an instance's Kafka singletons, with every await allowed to raise |
| `Jwt.dfy`, `Tokens.dfy`, `Rotation.dfy` | token issue and decoding, login / refresh / cleanup over the token registry, and the ledger of chains that the registry refines |
| `Orders.dfy`, `Store.dfy`, `OrderHistory.dfy` | order, line and product tables as serialised transactions, their invariant, and what holds over whole runs |
| `OrderQueries.dfy` | join, DISTINCT, ORDER BY, OFFSET/LIMIT of the paginated order queries |
| `RingBuffer.dfy`, `RecentBuffer.dfy`, `Idempotency.dfy`, `MetricsCache.dfy` | the bounded buffers and caches, each against a plain history |
| `Features.dfy` | the batch and the single-customer feature pipelines and the churn label |
| `Generator.dfy`, `Training.dfy` | the synthetic dataset for every random outcome, and early stopping |
| `Common.dfy` | options, last-n and filtering of sequences |

How the models are built:

- A run is a list of events or requests. An event that cannot happen changes nothing, so a statement
  about all lists is a statement about all schedules.
- Objects that the service updates in place are classes; every method's new state is given by a
  function of the old state, and the theorems over runs are about that function.
- Kafka: every stored message may be read by any instance, any number of times and in any order, or
  never; requests may land late or twice; callers may time out, be cancelled or fail to send at any
  point; foreign messages may be malformed, header-less or well-formed under another id. Assumed: a
  fresh correlation id occurs nowhere yet, and decoding inverts encoding.
- Tokens: signing is injective and unforgeable, `jti` is fresh, requests are serialised, and the clock
  never goes back. Every clock reading of a request is its own parameter. The user table is a
  parameter of each login, so it may change freely between requests; `refresh` never reads it.
- Store: each request is one transaction that commits or leaves everything as it was. Money is whole
  cents; NUMERIC(12, 2) and 32-bit quantities overflow into a server error.
- Times are integers (microseconds), ratios are exact, and random draws are arbitrary values in range.

Where the code and its documentation differ, the model follows the code:

- `kafka_client.py:84-87` says each instance reads replies in a group of its own, but the group id is
  computed from `id(None)`. No statement here relies on an instance seeing its replies.
- `kafka_client.py:55-57` says a start may follow a failed start. The producer variable is set before the
  producer has started, so starts alone never recover (`Lifecycle.FailedStartStays`); a start
  works exactly from a clear state (`Lifecycle.StartWorksExactlyFromStopped`), which a stop that comes
  through restores (`Lifecycle.CompletedStopForgets`).
- `kafka_client.py:131-141` promises 503 while Kafka is down; it is handed out with no consumer behind
  it exactly when the start failed past the producer, or completed and a stop then raised
  (`Lifecycle.ServiceWithoutConsumers`).
- `tools.py:229` says cancelling an order removes its lines by CASCADE; the row is updated, not
  deleted, and every line stays, so the two agree if and only if the order has no line
  (`OrderHistory.CancelCascadesExactlyWithoutLines`, `OrderHistory.CancelledOrderKeepsLine`).
- `tools.py:194-198` says one idempotency key always gives one order in a process. Two overlapping
  calls create two orders (`Idempotency.OverlapCreatesTwoOrders`), and so does a repeat after 1024 newer
  keys. For every interleaving: a call gets the order another call created if and only if, when it
  begins, the key is among the last 1024 newly inserted and that creation is the last under it
  (`Idempotency.SharesOrderExactly`).
- `recent_buffer.py:47-49` gives eleven as the worst-case list length. That bound holds exactly for at
  most one adder between its push and its trim (`RecentBuffer.OneOverMaximumOnlyForOneAdder`).
- `seed_demo_data.py:73-76` says a churn target is forced into the churned pattern. It is labelled only
  when its account and order span are old enough, and never with six orders or fewer
  (`Generator.GenerateDataset`).
- `inference.py:127` gives a closed window; the sum has no upper bound. It is the closed window's if and
  only if the orders dated after now come to nothing (`Features.ClosedWindowExactly`).
- `inference.py:54-57` promises the same features as training; the two differ exactly for customers
  without a dated order (`Features.PipelinesAgreeExactlyWithAnOrder`).

## Model

| member | source | states |
|---|---|---|
| `Wire.Header` | src/iris_service/messaging/kafka_client.py:187-192 | the scan finds the value of the first header with the key, is absent exactly when no header has it, and raises when that first value is not UTF-8 |
| `Wire.ScanHeaderIsFirstMatch` | src/iris_service/messaging/kafka_client.py:187-192 | the first header with the key decides, whatever follows |
| `Wire.ScanHeaderAbsent` | src/iris_service/messaging/kafka_client.py:187-192 | absent if and only if no header has the key |
| `Wire.WireRoundTrip` | src/iris_service/messaging/enrichment.py:89-97 | what is sent on either topic is what that topic's loop reads back, and a request is never read as a reply |
| `Wire.ReadExactly` | src/iris_service/messaging/kafka_client.py:151-184 | which messages each loop reads: a body of its kind, and a first correlation header that decodes |
| `Wire.WireExtras` | src/iris_service/messaging/enrichment.py:89-97 | a request names the topic to reply on; a reply body on the request topic reads as a request |
| `Wire.EnrichmentRepeatsRequest` | src/iris_service/messaging/enrichment.py:44-57 | the request can be read back from its enrichment, and the display name is the name, a space and the address in angle brackets |
| `Enrichment.EnrichmentService.Register` | src/iris_service/messaging/enrichment.py:84-87 | a new waiting future of its own stands under the id, other entries unchanged |
| `Enrichment.EnrichmentService.Unregister` | src/iris_service/messaging/enrichment.py:99-100 | the entry goes, others stay, and a missing entry is no error |
| `Enrichment.EnrichmentService.DeliverReply` | src/iris_service/messaging/enrichment.py:102-110 | a waiting future under the id is completed with the reply; nothing else changes, in particular not a future that is done |
| `Enrichment.EnrichmentService.ConsumeReplies` | src/iris_service/messaging/kafka_client.py:171-184 | a batch of messages has the effect of its readable ones in order; malformed and header-less ones are skipped |
| `Enrichment.DeliverAllMeaning` | src/iris_service/messaging/kafka_client.py:171-184 | each waiting future gets the first readable reply with its id and none later, done futures keep their state, no key comes or goes |
| `Enrichment.EnrichmentService.HandleRequest` | src/iris_service/messaging/enrichment.py:112-129 | the reply topic gains the enrichment of this request under its own id, or nothing when the send fails |
| `Enrichment.EnrichmentService.ConsumeRequests` | src/iris_service/messaging/kafka_client.py:151-168 | a batch is answered in order; malformed and header-less requests and failed sends are skipped and stop nothing |
| `Enrichment.HandleAllMeaning` | src/iris_service/messaging/kafka_client.py:151-168 | a message is put on the reply topic if and only if it is the enrichment of a readable request of the batch under that request's id, and its send went through |
| `Protocol.NextInv` | src/iris_service/messaging/enrichment.py:74-129 | every event keeps ids distinct, entries exactly those of live calls, and every stored message and future honest |
| `Protocol.ReturnsOwnEnrichment` | src/iris_service/messaging/enrichment.py:74-129 | in every run of any number of instances a returned value is the enrichment of that call's own request |
| `Protocol.PendingIsExactlyTheLiveCalls` | src/iris_service/messaging/enrichment.py:84-100 | in every reachable state the pending keys are exactly the calls registered and not exited, and each key leads to its own call |
| `Protocol.NothingPendingAfterExit` | src/iris_service/messaging/enrichment.py:79-83 | once all calls have exited, by reply, timeout, failure or cancel, nothing is pending anywhere |
| `Protocol.SettledForGood` | src/iris_service/messaging/enrichment.py:105-110 | a future is completed at most once and an outcome never changes, however the run goes on |
| `Protocol.StrayReplyChangesNothing` | src/iris_service/messaging/enrichment.py:105-110 | a reply that is late, duplicate or read by the wrong instance leaves the whole system as it was |
| `Protocol.CallCanReturn` | src/iris_service/messaging/enrichment.py:74-100 | from every reachable state a new call can run to a normal return, leaving the entries as they were |
| `Protocol.TimeoutEndsCall` | src/iris_service/messaging/enrichment.py:98-100 | a timeout wakes the caller, which raises and pops its own entry; no other call, entry or message changes |
| `Protocol.CancelEndsCall` | src/iris_service/messaging/enrichment.py:88-100 | the same for a cancellation, at either await |
| `Protocol.SendFailureEndsCall` | src/iris_service/messaging/enrichment.py:88-100 | the same for a send that fails |
| `Protocol.ResumeEndsCall` | src/iris_service/messaging/enrichment.py:98-100 | a caller whose reply is there returns it and pops its entry; a woken one raises what woke it |
| `Protocol.EveryCallCanEnd` | src/iris_service/messaging/enrichment.py:79-100 | no call hangs: from every reachable state the callers alone can end every call and empty every pending map |
| `Protocol.FreshIdExists` | src/iris_service/messaging/enrichment.py:84 | in every state there is a fresh correlation id to call with |
| `Protocol.AnyTrafficMayCome` | src/iris_service/messaging/kafka_client.py:151-184 | the schedules are as hostile as claimed: requests land in any phase and again, and any unreadable or foreign message may be stored |
| `Protocol.RegisterIsBrokerRegister` | src/iris_service/messaging/enrichment.py:84-87 | the protocol's registration is the broker's at that instance and nothing at others |
| `Protocol.DeliverIsBrokerConsume` | src/iris_service/messaging/kafka_client.py:171-184 | the protocol's delivery is the broker's reply loop at the instance that reads, and nothing at others |
| `Protocol.HandlerIsBrokerHandle` | src/iris_service/messaging/enrichment.py:112-129 | the protocol's handler event is the broker's request loop on that message, and a failed send is no event |
| `Protocol.ExitIsBrokerUnregister` | src/iris_service/messaging/enrichment.py:99-100 | every way out of a call is the broker's removal of its entry, at its instance only |
| `Lifecycle.KafkaClient.StartKafka` | src/iris_service/messaging/kafka_client.py:52-96 | which variables are set after a start, wherever it raises; a start with a producer set does nothing |
| `Lifecycle.KafkaClient.StopKafka` | src/iris_service/messaging/kafka_client.py:99-128 | which variables are still set after a stop, wherever it raises |
| `Lifecycle.RaisedStartExactly` | src/iris_service/messaging/kafka_client.py:60-90 | which variables stand after a first start that raised at each of its awaits |
| `Lifecycle.RaisedStopExactly` | src/iris_service/messaging/kafka_client.py:107-127 | which variables stand after a stop of a running instance that raised at each of its awaits |
| `Lifecycle.StopOnlyClears` | src/iris_service/messaging/kafka_client.py:107-127 | a stop from any state ends the tasks, sets nothing, and gives up the service only when it comes through |
| `Lifecycle.NeverTwoPairsOfTasks` | src/iris_service/messaging/kafka_client.py:60-93 | over any starts and stops there is at most one pair of consumer tasks, and only with everything up |
| `Lifecycle.StartWorksExactlyFromStopped` | src/iris_service/messaging/kafka_client.py:60-93 | a start leaves the consumers up if and only if they were, or all was clear and none of its awaits raised |
| `Lifecycle.FailedStartStays` | src/iris_service/messaging/kafka_client.py:55-61 | after a failed start, further starts change nothing |
| `Lifecycle.CompletedStopForgets` | src/iris_service/messaging/kafka_client.py:99-128 | after a stop that comes through, any further starts and stops go as from a fresh process, whatever went before |
| `Lifecycle.SinceLastClear` | src/iris_service/messaging/kafka_client.py:60-93 | an instance that is not clear got there by one start, whose outcome decides whether the service is set and, with the stops that raised since, whether consumers run |
| `Lifecycle.ServiceWithoutConsumers` | src/iris_service/messaging/kafka_client.py:131-148 | the service is handed out without consumers if and only if, since all was last clear, the start failed past the producer or completed and a stop raised |
| `Jwt.Encode` | src/iris_service/auth/jwt.py:89-111 | issue and expiry claims are the last whole seconds not after the issue and after issue plus lifetime |
| `Jwt.IssuedTokenDecodes` | src/iris_service/auth/jwt.py:68-86 | an issued token decodes to its own claims exactly under its own type, from its issue and before its expiry, which is within a second of the lifetime; before its issue it is refused |
| `Jwt.RefusalExactly` | src/iris_service/auth/jwt.py:68-86 | which of the errors a token that does not decode gets, in the order of the checks |
| `Tokens.PairExactly` | src/iris_service/auth/router.py:105-130 | a minted pair is an access and a refresh token of the user and role under ids of their own, good for the configured minutes and days, with the refresh token recorded unrevoked |
| `Tokens.LoginExactly` | src/iris_service/auth/router.py:52-60 | a login is accepted if and only if the user exists, is enabled and has that password; otherwise the answer is one and the same and nothing changes |
| `Tokens.RefreshExactly` | src/iris_service/auth/router.py:74-102 | a refresh is accepted if and only if the token decodes and its record is there, unrevoked and unexpired; then that record alone is revoked and a pair minted for the token's user and role |
| `Tokens.AuthService.LogIn` | src/iris_service/auth/router.py:41-60 | a pair if and only if the user exists, is enabled and has that password, with one fresh unrevoked record; unknown, disabled and wrong-password logins change nothing and answer alike |
| `Tokens.AuthService.Rotate` | src/iris_service/auth/router.py:63-102 | decode error, missing, revoked or expired record change nothing; otherwise the old record is revoked and a fresh pair stored for the token's subject and role |
| `Tokens.AuthService.CleanupRefreshTokens` | src/iris_service/auth/cleanup.py:34-55 | what stays is exactly the unrevoked records not yet expired, as they were, and the count is how many went |
| `Rotation.RunRefines` | src/iris_service/auth/router.py:60-131 | in every timely run the registry holds, unrevoked, exactly the newest token of each login's chain, less heads purged after they expired |
| `Rotation.TimelyRunsGoOn` | src/iris_service/auth/router.py:60-131 | a timely run goes on with any request whose readings are in order and not before what went before |
| `Rotation.AcceptedExactlyWhenHead` | src/iris_service/auth/router.py:74-102 | a refresh is accepted if and only if the token was signed as a refresh token, is unexpired at both readings and is the newest of its chain |
| `Rotation.CleanupIsInvisible` | src/iris_service/auth/cleanup.py:44-52 | inserting cleanups at any points of a timely run leaves every answer to every login and refresh as it was |
| `Rotation.AnswersMatchLedger` | src/iris_service/auth/router.py:80-102 | the registry answers every request as the chain ledger does, which has no registry, flag or cleanup |
| `Rotation.AcceptedAtMostOnce` | src/iris_service/auth/router.py:69-73 | a refresh token accepted once is refused ever after |
| `Rotation.HandedOutIsAccepted` | src/iris_service/auth/router.py:63-102 | after any timely run, the refresh token a login or refresh hands out is accepted by the next request for the configured days, less a second |
| `Rotation.AcceptedWasHandedOut` | src/iris_service/auth/jwt.py:84-86 | in any run at all, a refresh is accepted only with a token that an earlier answer handed out as its refresh token, and an access token is rejected |
| `Rotation.OneChainPerLogin` | src/iris_service/auth/router.py:41-60 | the chains are the successful logins, one each in order, with the user and role of that login |
| `Rotation.PairJoinsChain` | src/iris_service/auth/router.py:96-123 | a login's refresh token opens the next chain, a refresh's joins the chain of the token it was given, and no token ever changes chain |
| `Rotation.ChainKeepsIdentity` | src/iris_service/auth/router.py:100-102 | every recorded token carries the user and role of the very login its chain began with |
| `Rotation.UnrevokedPlusPurgedIsLogins` | src/iris_service/auth/router.py:96-123 | unrevoked records plus purged chain heads equal the successful logins, and only expired heads were purged |
| `Orders.TotalIgnoresRowOrder` | src/iris_service/order/totals.py:18-32 | the total depends on which lines there are, not on the order a query yields them in |
| `Orders.TransitionsExactly` | src/iris_service/order/models.py:28-49 | both state machines, move by move |
| `Orders.TotalOfQueriedRows` | src/iris_service/order/order_line_router.py:178-184 | the one-pass total of an order is `compute_total` of exactly its lines, in whatever order the query yields them |
| `Orders.TotalOfRemaining` | src/iris_service/order/order_line_router.py:178-184 | recomputing after a delete gives the old total less exactly that line's amount |
| `Orders.TotalOfMarked` | src/iris_service/order/order_line_router.py:155-161 | a line status change moves no order's total |
| `Store.Session.Handle` | src/iris_service/db/base.py:59-72 | one request in its own transaction: the handler's writes are committed when it succeeds and undone when it raises, and the tables stay sound |
| `Store.Session.SumOfLines` | src/iris_service/order/order_line_router.py:178-184 | the loop adds up exactly the order's lines |
| `Store.Session.RecomputeOrderTotal` | src/iris_service/order/order_line_router.py:178-184 | the order's total becomes the sum over exactly its lines, unless the column cannot hold it |
| `Store.Session.AddOrderLine` | src/iris_service/order/order_line_router.py:56-90 | all answers in the handler's order; on success the line with the product's current price and the new total; when the total does not fit, the line is already written and is for the rollback to undo |
| `Store.Session.ChangeLineStatus` | src/iris_service/order/order_line_router.py:106-161 | 404 on a missing or foreign line, 409 on a forbidden move, else that line's status and nothing more |
| `Store.Session.RemoveLine` | src/iris_service/order/order_line_router.py:164-175 | 404 on a missing or foreign line, else that line goes and its order's total follows |
| `Store.Session.PlaceOrder` | src/iris_service/order/router.py:57-77 | an empty PENDING order for an existing customer, nothing otherwise |
| `Store.Session.ChangeOrderStatus` | src/iris_service/order/router.py:80-123 | 404, 409 or the new status, by the order's state machine |
| `Store.Session.Cancel` | src/iris_service/mcp/tools.py:228-239 | any existing order becomes CANCELLED whatever its status; its lines stay |
| `Store.Session.RemoveOrder` | src/iris_service/order/repository.py:35-41 | the order and its lines go together |
| `Store.Session.RemoveCustomer` | src/iris_service/customer/repository.py:109-113 | a customer with orders cannot go |
| `Store.Session.AddProduct` | src/iris_service/product/router.py:72-95 | a new product under a new id unless the name is taken, and no other table touched |
| `Store.Session.ChangeProduct` | src/iris_service/product/repository.py:69-95 | the product row is replaced and no other table touched; a name clash rolls back |
| `Store.Session.RemoveProduct` | src/iris_service/product/repository.py:97-103 | a product with lines cannot go |
| `Store.ReachableIsSound` | src/iris_service/order/order_line_router.py:164-184 | every reachable store has every reference satisfied and every stored total equal to `compute_total` of exactly the order's lines, in whatever order they are read |
| `Store.ExecKeepsSound` | alembic/versions/2026_04_26_0004_create_order_line.py:30-65 | every request keeps references, totals, keys and column checks |
| `Store.DeleteLineNeverOverflows` | src/iris_service/order/order_line_router.py:170-175 | in a sound store the recompute after a delete always fits its column |
| `OrderHistory.TotalMovesByDelta` | src/iris_service/order/order_line_router.py:178-184 | the full recompute equals the incremental one for every request; price changes, refunds and cancellations move no total |
| `OrderHistory.AddLineSucceedsExactly` | src/iris_service/order/order_line_router.py:56-90 | a line is accepted exactly when order and product exist, the quantity is valid and the incremented total fits |
| `OrderHistory.AddedLineExactly` | src/iris_service/order/order_line_router.py:76-90 | the accepted line stands at the end with the product's current price, PENDING, and no other table but the orders changes |
| `OrderHistory.AddedAmountExactly` | src/iris_service/order/order_line_router.py:86-90 | its order's total grows by price times quantity, and every other order is as it was |
| `OrderHistory.LineStatusRequestsExactly` | src/iris_service/order/order_line_router.py:106-161 | a line status update succeeds exactly on a line of that order moving by at most one rank up, is not found on a missing or foreign line and a conflict otherwise; it sets that line's status and nothing else |
| `OrderHistory.PlacedOrderExactly` | src/iris_service/order/router.py:57-77 | an order is placed exactly for an existing customer, PENDING and worth nothing |
| `OrderHistory.CreatedProductExactly` | src/iris_service/product/router.py:72-95 | a product is created exactly when it is valid and its name is new |
| `OrderHistory.UpdatedProductExactly` | src/iris_service/product/repository.py:69-95 | an update stores the new price, name and stock exactly when they are valid and the name is no other product's |
| `OrderHistory.DeleteLineSucceedsExactly` | src/iris_service/order/order_line_router.py:164-175 | a delete succeeds exactly on a line of that order and removes that one |
| `OrderHistory.StatusRequestsExactly` | src/iris_service/order/models.py:28-49 | which status requests succeed, in terms of rank, and that they set the target and nothing else |
| `OrderHistory.CancelCascadesExactlyWithoutLines` | src/iris_service/mcp/tools.py:228-239 | a cancellation keeps every line, and so does what a cascade would if and only if the order has none |
| `OrderHistory.CancelledOrderKeepsLine` | src/iris_service/mcp/tools.py:228-239 | a cancelled order of a reachable store that still has its line |
| `OrderHistory.DeleteOrderTakesItsLines` | alembic/versions/2026_04_26_0004_create_order_line.py:30-41 | deleting an order takes exactly its lines |
| `OrderHistory.ParentsInUseStay` | alembic/versions/2026_04_26_0003_create_orders.py:30-35 | products and customers can be deleted exactly when nothing refers to them, and then they alone are gone |
| `OrderHistory.PriceIsFrozen` | src/iris_service/order/order_line_router.py:76-82 | every line of every reachable store was added by some request of the run, was there right after it, and carries the price its product had at that request |
| `OrderHistory.RankNeverDecreases` | src/iris_service/order/models.py:28-49 | over any run mixing updates and cancellations an order's rank never falls, CANCELLED stays, and the order was there with a rank in between all the way |
| `OrderHistory.StatusChangesAtMostThrice` | src/iris_service/order/router.py:106-121 | an order's status really changes at most three times |
| `OrderHistory.RefundFollowsShipment` | src/iris_service/order/order_line_models.py:26-43 | a refunded line was shipped in an earlier state |
| `OrderHistory.LineChangesAreItsRank` | src/iris_service/order/order_line_models.py:26-43 | a line reached its status by every step on the way, and changes at most twice |
| `OrderQueries.QueryIsListing` | src/iris_service/order/repository.py:43-83 | the query is a page of the strictly descending listing of orders having some such line, whatever the storage order, and its count is that listing's length |
| `OrderQueries.ListingIsUnique` | src/iris_service/order/repository.py:61-63 | there is only one such listing |
| `OrderQueries.PagesAreTheListing` | src/iris_service/order/repository.py:65-83 | pages 0 to ceil(total/size)-1 in a row are the listing, each order once; a page is empty exactly from there on |
| `OrderQueries.PlainPagesAreAllOrders` | src/iris_service/order/repository.py:18-24 | the same for the list of all orders |
| `RingBuffer.RingBufferHandler.Emit` | src/iris_service/mcp/ring_buffer.py:107-117 | one bounded append of the converted event; a record that cannot be converted changes nothing |
| `RingBuffer.RingBufferHandler.Snapshot` | src/iris_service/mcp/ring_buffer.py:119-148 | the early-exit backward scan gives the last n matches in order |
| `RingBuffer.RingBufferHandler.TailLogs` | src/iris_service/mcp/tools.py:424-439 | the last clamp(n, 1, capacity) matches among the last `capacity` converted events of the whole history |
| `RingBuffer.EmitAllKeepsTheLast` | src/iris_service/mcp/ring_buffer.py:94-117 | evicting as one goes keeps the last `capacity` converted events of any history |
| `RingBuffer.EventExactly` | src/iris_service/mcp/ring_buffer.py:150-168 | field by field what an event takes from its record, and which records cannot be converted |
| `RingBuffer.MatchesExactly` | src/iris_service/mcp/ring_buffer.py:132-145 | which events pass: the wanted level whatever the case it is asked in, the wanted request id, and all when nothing is asked |
| `RingBuffer.TailIsRecent` | src/iris_service/mcp/ring_buffer.py:138-148 | a match with fewer than n matches after it is in the result |
| `RecentBuffer.RecentCustomerBuffer.GetRecent` | src/iris_service/customer/recent_buffer.py:54-65 | the decodable ones of the first ten entries, in order |
| `RecentBuffer.DecodableExactly` | src/iris_service/customer/recent_buffer.py:54-65 | decoding goes entry by entry and keeps exactly the customers, in order |
| `RecentBuffer.ListIsPrefixOfHistory` | src/iris_service/customer/recent_buffer.py:46-52 | under every interleaving the list is a prefix of the newest-first pushes, at least min(10, pushes) and at most ten plus the adders in between |
| `RecentBuffer.RecentIsTenNewest` | src/iris_service/customer/recent_buffer.py:54-65 | a read always gives the decodable ones of the ten newest pushes |
| `RecentBuffer.ListCanReach` | src/iris_service/customer/recent_buffer.py:46-52 | for every k the length ten plus k is reached with k adders in between |
| `RecentBuffer.OneOverMaximumOnlyForOneAdder` | src/iris_service/customer/recent_buffer.py:47-49 | the documented bound of one over the maximum holds exactly for at most one adder in between |
| `Idempotency.OrderTool.CreateOrderCached` | src/iris_service/mcp/tools.py:547-556 | hit, unknown customer and new order, with the cache and the order ids they leave |
| `Idempotency.CacheIsLastInsertions` | src/iris_service/mcp/tools.py:523-535 | after every call the cache is the last 1024 insertions in order, no key twice |
| `Idempotency.MissAnswersNewOrder` | src/iris_service/mcp/tools.py:208-225 | a call with no cached key, or none at all, answers the next order id, uses it up and remembers it; for an unknown customer nothing changes |
| `Idempotency.HitAnswersCached` | src/iris_service/mcp/tools.py:204-207 | a cached key is answered with what is cached, whoever the customer, and nothing is created |
| `Idempotency.InsertionIsAnswered` | src/iris_service/mcp/tools.py:222-225 | the call that inserts an entry is answered with that very order |
| `Idempotency.RepeatReturnsTheSameOrder` | src/iris_service/mcp/tools.py:187-225 | with at most 1023 insertions after its own a key gets the order inserted under it and none is created |
| `Idempotency.RetryAnswersAlike` | src/iris_service/mcp/tools.py:187-225 | over runs: a request that inserts its key and a later one with that key, at most 1023 insertions in between, get the same answer, and the later one changes nothing |
| `Idempotency.AnswerNamesOrder` | src/iris_service/mcp/tools.py:208-225 | an answered order is one that has been created |
| `Idempotency.HitExactlyWhenRecent` | src/iris_service/mcp/tools.py:204-207 | a call creates no order if and only if its key is among the last 1024 inserted |
| `Idempotency.NotFoundLeavesNoTrace` | src/iris_service/mcp/tools.py:217-219 | not-found is never cached: any run ends as if the calls answered so had not been made |
| `Idempotency.InsertedIdsGrow` | src/iris_service/mcp/tools.py:208-224 | every insertion is of a newly created order, so no order stands under two insertions |
| `Idempotency.CacheStaysBounded` | src/iris_service/mcp/tools.py:527-535 | whatever calls overlap, at most 1024 entries and no key twice |
| `Idempotency.SerialIsBeginThenFinish` | src/iris_service/mcp/tools.py:547-556 | a call that no other interrupts is the serial call: same state, same answer |
| `Idempotency.KeysAreLastNew` | src/iris_service/mcp/tools.py:523-535 | however calls overlap, the cache's keys are the last 1024 newly inserted, in that order |
| `Idempotency.BeginHitsExactlyWhenRecent` | src/iris_service/mcp/tools.py:204-207 | however calls overlap, a call is answered on the spot if and only if its key is among those |
| `Idempotency.CachedIsLastCreated` | src/iris_service/mcp/tools.py:222-224 | a cached key stands for the order of the last creation under it, whichever overlapping call that was |
| `Idempotency.SharesOrderExactly` | src/iris_service/mcp/tools.py:194-225 | for every interleaving, a call gets the order another call created if and only if at its lookup the key is among the last 1024 newly inserted and that creation is the last under it |
| `Idempotency.OverlapCreatesTwoOrders` | src/iris_service/mcp/tools.py:194-225 | two overlapping calls with one key create two orders and answer differently |
| `MetricsCache.MetricsRegistryReader.ListSamples` | src/iris_service/mcp/metrics_registry.py:98-124 | after any queries, clears and evictions the answer is what a collection for these filters gave at some instant within the time to live: the cached one when it is young enough, else a new one, which is then cached |
| `MetricsCache.MetricsRegistryReader.CollectNow` | src/iris_service/mcp/metrics_registry.py:130-150 | the nested loops compute the collection |
| `MetricsCache.CollectedExactly` | src/iris_service/mcp/metrics_registry.py:130-150 | a collection holds exactly the matching samples of the families whose name matches |
| `MetricsCache.ClassifyExactly` | src/iris_service/mcp/metrics_registry.py:42-60 | four kinds keep their name and every other is untyped |
| `MetricsCache.FiltersExactly` | src/iris_service/mcp/metrics_registry.py:62-69 | what the filters ask: the text anywhere in the family's name, every tag with its value, and nothing when absent or empty |
| `MetricsCache.EqualKeysCollectAlike` | src/iris_service/mcp/metrics_registry.py:152-164 | filters with equal keys collect the same from every registry |
| `MetricsCache.KeyIsExact` | src/iris_service/mcp/metrics_registry.py:152-164 | two filters share a key if and only if no registry tells them apart |
| `Features.DomainDecides` | src/iris_service/ml/feature_engineering.py:71-88 | the email class depends only on what follows the last at-sign |
| `Features.EmailClassExactly` | src/iris_service/ml/feature_engineering.py:71-88 | the four classes with their providers, after lower case and stripping |
| `Features.LowerExactly` | src/iris_service/ml/feature_engineering.py:81 | what lower case changes |
| `Features.StripIsMiddle` | src/iris_service/ml/feature_engineering.py:81 | stripping keeps a stretch of the string with only blanks around it |
| `Features.StripLeavesNoBlank` | src/iris_service/ml/feature_engineering.py:81 | and no blank at its ends |
| `Features.LifetimeDaysExactly` | src/iris_service/ml/inference.py:76 | the lifetime is the whole days since creation, and at least one |
| `Features.ExtractedRecencyExactly` | src/iris_service/ml/inference.py:78-82 | serving counts whole days from the latest dated order, or from creation without one |
| `Features.BatchRecencyExactly` | src/iris_service/ml/feature_engineering.py:150-152 | training counts them from the customer's own column, or takes the number of today |
| `Features.RevenueWindowsExactly` | src/iris_service/ml/inference.py:84-86 | the three windows reach back 30, 90 and 365 days |
| `Features.ExtractedRatiosExactly` | src/iris_service/ml/inference.py:88-89 | frequency times lifetime is the number of orders, diversity times lines the number of distinct products |
| `Features.BatchRatiosExactly` | src/iris_service/ml/feature_engineering.py:161-180 | the same of a batch row, over the customer's own rows |
| `Features.EmailFeatureExactly` | src/iris_service/ml/inference.py:90 | the address decides the class in both pipelines, and a customer without one counts as malformed |
| `Features.SumRevenueWithin` | src/iris_service/ml/inference.py:122-140 | the loop sums the known amounts of orders dated on or after the threshold, later ones included |
| `Features.ClosedWindowExactly` | src/iris_service/ml/inference.py:122-140 | that is the documented closed window's sum if and only if the orders dated after now come to nothing, with an order that breaks it |
| `Features.BuildFeatures` | src/iris_service/ml/feature_engineering.py:127-186 | one row per customer, each cell the group-by value reindexed to that customer |
| `Features.RevenueAgrees` | src/iris_service/ml/feature_engineering.py:154-159 | windowing, grouping, summing and reindexing is summing the customer's own orders |
| `Features.LinesAgree` | src/iris_service/ml/feature_engineering.py:172-176 | the joined group of a customer has the number and the distinct products of the customer's own lines |
| `Features.OtherFeaturesAgree` | src/iris_service/ml/inference.py:84-103 | all features but recency agree for every customer |
| `Features.PipelinesAgreeExactlyWithAnOrder` | src/iris_service/ml/feature_engineering.py:150-152 | the eight features agree if and only if the customer has a dated order |
| `Features.LabelExactly` | src/iris_service/ml/feature_engineering.py:116-124 | the label in microseconds: last order more than 90 days ago, more than 30 after the first, account older than 120 |
| `Features.LabelShowsInFeatures` | src/iris_service/ml/feature_engineering.py:116-124 | a labelled customer has no revenue within 90 days, at least 90 days of recency and 120 of lifetime |
| `Generator.OrderAges` | src/iris_service/ml/seed_demo_data.py:125-140 | a target's ages lie between 91 days and the account's age within five days an order; an active customer has an age of at most 30 |
| `Generator.SpreadNeedsSevenOrders` | src/iris_service/ml/seed_demo_data.py:125-134 | a churn target's orders can span more than 30 days if and only if there are at least seven |
| `Generator.OrderRecords` | src/iris_service/ml/seed_demo_data.py:119-155 | order ids run from one, parents exist, and each customer's orders are as its ages say |
| `Generator.LineRecords` | src/iris_service/ml/seed_demo_data.py:157-171 | line ids run from one, parents exist, every order has lines and they add up |
| `Generator.SortedDescIsDescending` | src/iris_service/ml/seed_demo_data.py:142-144 | the ages are worked off oldest first |
| `Generator.OrdersDecideLabel` | src/iris_service/ml/feature_engineering.py:116-124 | the annotated dates are those of the oldest and newest order, and what they make of the label |
| `Generator.GenerateDataset` | src/iris_service/ml/seed_demo_data.py:63-188 | for every random outcome: every customer has orders in date order and carries the dates of its oldest and newest, no active customer is labelled churned, a target exactly when the account is older than 120 days and those two are more than 30 apart, never with six orders or fewer, and all references hold |
| `Training.BestIsFirstMaximum` | src/iris_service/ml/train_churn.py:199-203 | strict improvement from zero finds the first epoch of the largest AUC above zero, or none |
| `Training.FirstMaximumIsUnique` | src/iris_service/ml/train_churn.py:167-168 | there is only one such epoch |
| `Training.RunEpochs` | src/iris_service/ml/train_churn.py:181-208 | the loop ends at the first epoch whose gap to the best reaches the patience, or the last, holding a clone of the best epoch's weights |
| `Training.TrainWithEarlyStop` | src/iris_service/ml/train_churn.py:157-213 | the model ends with the weights of the best epoch although later epochs overwrote them, and the metric is theirs |

## Left out

- FastAPI, SQLAlchemy, Pydantic, aiokafka, Redis and the MCP SDK: only their effect is modelled (a transaction, a table, a topic log, a list, a time-to-live map).
- Concurrent database transactions: the code takes no row locks, so the store and registry statements are about serialised requests.
- The protocol does not mention starts and stops: a stopped instance is one that reads nothing until it does again.
- Customer rows carry only their id: updates, and the unique email that can make a creation fail, are not modelled.
- The idempotency model draws an order's id when its call finishes; overlapping calls may really draw ids in another order than they finish.
- Sequence gaps: an id consumed by a rolled-back insert is handed out again here; created and updated timestamps, product descriptions and identifiers beyond 32 bits are not modelled.
- The MCP `create_order` reports an unknown customer as not-found where the HTTP handler answers 422; the store has one request for both.
- Case mapping and trimming are ASCII; Unicode forms are not modelled.
- Floating point: float32 rounding of features, AUC arithmetic and sampled distributions are exact reals or arbitrary values.
- The metrics cache uses one clock for its time to live and its timestamps; the caller sharing the cached list object is not modelled.
- ONNX inference, PyTorch training steps, MLflow, Faker names and emails, and the split into training and validation sets.
- Actuator, health, quality, audit, chaos, risk-band and HTTP-client code: constant or single-branch.
