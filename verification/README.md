# NeoStore: stock, orders and money

NeoStore is a small shop. A customer fills a cart; checkout freezes the cart into an order and
reserves its stock line by line; payment turns the reservation into a deduction; an operator
cancels, fulfils, completes or refunds the order and corrects stock in between. Orders and stock
rows share no constraint: `reserved` agrees with the unpaid orders only because every request
keeps the two in step, and the `max(0, …)` clamps of the inventory service would hide a drift.
This project models that core and proves what the requests keep, over every run.

It has four parts.

* **The shop.** `Stock`, `Orders`, `Carts` and `Checkout` say what each operation computes on
  table rows; `Inventory`, `Payment`, `CartService` and `OrderService` are the services that change
  objects and a request's session in place, loop by loop, proved against those functions; `Store`
  is the committed database with one method per request, which commits a session or drops it and
  keeps `Valid()`. `Api`, `Invariant`, `Runs`, `Ledger`, `CheckoutLaws`, `Captures`, `Amounts` and `Billing` state
  the theorems over single requests and over whole runs of any length; `Example` tells one small run.
* **Money.** `Decimals` is Python's decimal arithmetic in its default context (28 digits,
  ROUND_HALF_EVEN, as the General Decimal Arithmetic specification defines multiply, add, divide
  and quantize). `Currency`, `Conversion`, `RoundTrip`, `Pricing` and `PricingLaws` show that the
  double roundings of conversion and pricing are harmless on everything the columns can hold, or
  exactly when they are not.
* **Row locks.** `RowLocks` runs any number of stock transactions interleaved step by step, each
  holding the rows it touched until it commits or is dropped.
* **The gate.** `Gate` is the first-come first-served gate around npm's file-system calls.

## Assumptions

* Requests are atomic; only steps on stock rows interleave (`RowLocks`). Order and cart rows are
  read without a lock, so two requests racing for one order or one cart are not described.
* A missing stock row is locked like an existing one. In PostgreSQL a missing row cannot be
  locked; a second insert of it waits and then fails, which here is a transaction dropped from
  outside. Every committed outcome is among those described.
* A new payment intent has a fresh reference, and stock is not opened below zero. Stock rows,
  orders and carts are never deleted.
* The mock payment provider keeps its intents in memory; that memory outlives every request of a
  run, and no rollback undoes it.
* Columns are enforced as PostgreSQL does: an amount too large for NUMERIC(14, 4) or a repeated
  unique value fails the request. The clock, random tokens and identifiers, the locale's texts and
  the reference data (prices, rates, regions) are arguments of each request and may differ from one
  request to the next.
* An order's events come back in the order they were appended. A reference to an order is its text
  together with the identifier the text parses to, if it does.
* Where prices are proved exact: base and explicit prices are not negative, exchange rates are
  positive, tax rates are non-negative NUMERIC(6, 4), and currencies have at most four decimals.

## Where code and documentation disagree

* The order number is drawn up to five times and then not checked any more; the plan document
  speaks of three attempts. The model draws five.
* A comment on cart lines says that price changes never move the cart total; `totals` prices the
  cart afresh. The model follows `totals` and does not use the stored line price.
* `pay` confirms the intent before it checks the status. So a captured intent does not mean a paid
  order: `CapturedDoesNotMeanPaid` is such a run, `CaptureMeansPaidIff` says exactly when a capture
  means paid, `CapturedUnpaidIff` in which two cases a run leaves a captured order unpaid, and
  `PaidIsCaptured` proves the direction that always holds.

## Model

| member | source | states |
|---|---|---|
| Invariant.StepKeepsInv | backend/app/domain/order/service.py:75-245 | every request, successful or not, keeps: `reserved` of each variant equals its units in unpaid orders, 0 ≤ reserved ≤ quantity, true event logs, unique numbers, keys and identifiers, sound carts, and an own intent for every order |
| Invariant.CheckoutKeepsInv | backend/app/domain/order/service.py:75-161 | checkout keeps that agreement on every path through it |
| Invariant.PayKeepsInv | backend/app/domain/order/service.py:189-216 | payment keeps it, including when it is refused after the intent was captured |
| Invariant.ChangeKeepsInv | backend/app/domain/order/service.py:218-245 | an operator's transition keeps it for every target status |
| Invariant.OpenKeepsInvIff | backend/app/domain/inventory/service.py:24-30 | opening stock keeps the agreements if and only if it creates no row below zero |
| Invariant.PromiseCovered | backend/app/domain/inventory/service.py:64-91 | the units of an unpaid order are covered by the reserved units of existing rows |
| Invariant.PaymentFindsOwnIntent | backend/app/domain/order/service.py:193-200 | for an unpaid order the reversed search over notes finds the reference issued at the order's own checkout |
| Invariant.PayAwaiting | backend/app/domain/order/service.py:189-216 | paying an unpaid order cannot fail on stock; it removes exactly the order's demand from quantity and reserved |
| Invariant.CancelAwaiting | backend/app/domain/order/service.py:226-230 | cancelling an unpaid order cannot fail on stock; it gives back exactly the order's demand |
| Invariant.SnapshotAsks | backend/app/domain/order/service.py:123-147 | an order's lines ask for exactly the stock the cart's lines asked for |
| Runs.RunKeepsInv | backend/app/domain/order/service.py:75-245 | the agreements hold after any sequence of requests |
| Runs.ReservedIsUnpaid | backend/app/domain/inventory/service.py:1-6 | in every reachable state reserved counts exactly the units of unpaid orders and never exceeds quantity |
| Runs.PromiseCanBeKept | backend/app/domain/order/service.py:211-230 | from every reachable state an unpaid order can be paid, directly or by an operator, and can be cancelled |
| Runs.ClampsNeverAct | backend/app/domain/inventory/service.py:74-89 | no line of an unpaid order ever meets a row that a clamp of release or commit would change |
| Runs.AdjustmentIsExact | backend/app/domain/inventory/service.py:102-112 | an adjustment is accepted exactly when what is reserved stays covered, and then changes the quantity by its delta, never by the clamp |
| Runs.StockIsConserved | backend/app/domain/inventory/service.py:78-115 | over any run: quantity plus units in paid, fulfilled, completed and refunded orders equals the starting amount plus everything opened and adjusted |
| Runs.LedgerExplainsRows | backend/app/domain/inventory/service.py:117-122 | with adjustment reasons outside the lifecycle ones, reserved is the sum of reserve, release and commit deltas, and quantity is the opening plus the physical deltas |
| Runs.AdjustExplainedIff | backend/app/domain/inventory/service.py:93-115 | an accepted adjustment leaves the ledger explaining its row if and only if its reason is not a lifecycle reason or its delta is zero |
| Runs.RunKeepsOrders | backend/app/domain/order/models.py:87-106 | no run rewrites the amounts or snapshotted lines of an order, and its event log only grows |
| Runs.OnlyNamedOrderMoves | backend/app/domain/order/service.py:218-245 | only a payment or transition that names an order changes it |
| Runs.NamesOwnOneOrder | backend/app/domain/order/models.py:46-48 | in every reachable state an identifier, number or key owns at most one order |
| Runs.RefFindsOrder | backend/app/domain/order/service.py:169-180 | an order is found by its identifier, and by its number where the text is no identifier |
| Runs.ReplayReturnsOwner | backend/app/domain/order/service.py:84-89 | once a key owns an order, every later checkout with that key returns that order and changes nothing, whatever happened in between |
| Runs.ReplayIffPlacedBefore | backend/app/domain/order/service.py:84-89 | a checkout is answered as a replay if and only if it has a key, not empty, under which an earlier request of the run placed an order |
| Runs.ReplaysCanBeErased | backend/app/domain/order/service.py:84-89 | erasing all replays from a run leads to the same final state |
| Runs.CartsAreIsolated | backend/app/domain/cart/service.py:60-124 | no request through one token touches another cart |
| Runs.CartYieldsOneOrder | backend/app/domain/order/service.py:157-161 | two requests of one run that both place an order used different carts |
| Runs.CheckoutSucceedsExactly | backend/app/domain/order/service.py:146-161 | with the other guards met, checkout succeeds if and only if the provider exists and every variant's content is available, reserves exactly that content, and changes nothing on failure |
| Runs.PaysExactlyUnpaid | backend/app/domain/order/service.py:189-216 | in every reachable state a payment succeeds if and only if its reference finds an unpaid order |
| Runs.PaymentRecords | backend/app/domain/order/service.py:189-216 | in every reachable state, paying an unpaid order takes its units from quantity and reserved, captures its own intent, sets it to paid, and appends one event that names the intent; no other order, row, cart or intent changes |
| Runs.PaymentRefusals | backend/app/domain/order/service.py:189-211 | the error of every other payment: no such order; no intent the provider knows; or an order that is not unpaid |
| Runs.ChangeSucceedsExactly | backend/app/domain/order/service.py:218-245 | in every reachable state, an operator's change other than to paid succeeds if and only if the order is found and unpaid to cancelled, paid to fulfilled, fulfilled to completed, or paid, fulfilled or completed to refunded; it appends one event with the note, a cancelled order gives its units back, and nothing else changes; the error of each refusal |
| Runs.PaidIsCaptured | backend/app/domain/order/service.py:193-211 | in every reachable state an order that is or was paid has a captured intent, issued at its checkout, for its number, total and currency |
| Runs.EventLogIsTrueHistory | backend/app/domain/order/models.py:60-85 | every reachable event log starts draft → awaiting_payment, chains allowed steps to the current status, repeats no status and has at most five events |
| CheckoutLaws.CheckoutRecords | backend/app/domain/order/service.py:104-161 | a checkout that proceeds appends one unpaid order with the customer, a free number, the code of its cart's own region (or of the fallback, where that is not configured) and each cart line at its place, registers an intent over its total, and closes the cart; nothing else among orders, carts and intents changes |
| CheckoutLaws.SnapshotRecords | backend/app/domain/order/service.py:123-144 | line by line the snapshot holds the variant, quantity, SKU, label, name (SKU if there is none) and current unit price |
| CheckoutLaws.NumberIsFree | backend/app/domain/order/service.py:66-73 | the number is the first drawn one that belongs to no order, and the fallback only when every candidate was taken |
| CheckoutLaws.RefMeans | backend/app/domain/order/service.py:169-180 | a reference finds the order with its identifier; where no order has that, the order with its number; and no other |
| CheckoutLaws.ReplayMeans | backend/app/domain/order/service.py:84-89 | a checkout is a replay if and only if it has a key, not empty, that an order carries |
| CheckoutLaws.LatestIntentWins | backend/app/domain/order/service.py:193-200 | the reference found is that of the last event whose note starts with "intent:", and none is found if and only if no note does |
| CheckoutLaws.QuoteIsCharged | backend/app/domain/cart/service.py:134-150 | with the same reference data the order is charged exactly the four amounts the cart quoted |
| CheckoutLaws.OrderedCartStaysConverted | backend/app/domain/cart/service.py:130-132 | a cart that became an order stays converted through every later request |
| CheckoutLaws.ConvertedCartIsClosed | backend/app/domain/cart/service.py:60-71 | every change or second checkout of a converted cart is refused, and with which error |
| CheckoutLaws.CreateCartExactly | backend/app/domain/cart/service.py:43-58 | a new cart is empty, active, in upper-case currency, and open until thirty days from now and no longer; nothing else changes |
| CheckoutLaws.AddLineExactly | backend/app/domain/cart/service.py:73-105 | the outcome of every request to add: the first guard that fails, with its error, or the cart with that line at the unit price of its currency, which is addition on the cart's content; nothing else changes |
| CheckoutLaws.UpdateLineExactly | backend/app/domain/cart/service.py:107-121 | the outcome of every request to update: refused for a closed cart or an identifier not among its lines, and otherwise assignment on that line's variant, zero or less removing it; nothing else changes |
| Captures.CapturedIffAttempted | backend/app/domain/payment/mock.py:43-52 | over any run an intent is captured if and only if some payment request, successful or refused, reached it |
| Captures.RefusedPaymentCaptures | backend/app/domain/order/service.py:193-211 | a payment of an order that is not unpaid any more is refused and changes no table, yet captures the order's own intent if and only if the search over the notes ends there, as it does while notes are plain |
| Captures.CaptureMeansPaidIff | backend/app/domain/order/service.py:204-211 | a payment request that captures an intent leaves its order paid, now or before, if and only if the order was not cancelled |
| Captures.CapturedIsPaidUnlessCancelled | backend/app/domain/order/service.py:204-211 | over any run whose operators' notes leave the intent prefix alone, an order whose own intent is captured was paid if and only if it is not cancelled |
| Captures.UnpaidCapturedIff | backend/app/domain/order/service.py:193-211 | over any run the own intent of an order that is still unpaid is captured if and only if a payment request for another order, redirected by a note, reached it |
| Captures.CapturedUnpaidIff | backend/app/domain/order/service.py:193-211 | in every reachable state, whatever the notes, an order's own intent is captured without the order ever being paid in exactly two cases: the order is cancelled and a request reached the intent, or it is still unpaid and a request for another order did |
| Example.CapturedDoesNotMeanPaid | backend/app/domain/order/service.py:204-211 | a concrete run of six requests after which a cancelled, never paid order has a captured intent |
| Amounts.AmountsAddUp | backend/app/domain/order/service.py:99-144 | in every reachable state each order's subtotal is the sum of its line totals, its total is subtotal plus fee plus tax, and all are whole minor units |
| Amounts.DraftAddsUp | backend/app/domain/order/service.py:99-144 | a stored order is charged the exact bill of its cart's worth in its region |
| Amounts.DraftSucceedsExactly | backend/app/domain/order/service.py:93-144 | a cart becomes an order whose subtotal can be stored if and only if a region is configured, every variant exists and has a price, and the exact worth fits the column |
| Amounts.CheckoutAcceptedIff | backend/app/domain/order/service.py:84-161 | a checkout that is no replay is accepted if and only if its cart is open and not empty, a region is configured, every line has a price, the exact total fits its column, identifier, number and key are free, every line is in stock and the provider is known |
| Amounts.SnapshotExact | backend/app/domain/order/service.py:123-144 | stored line totals are exact products, and add up to the worth of the cart |
| Billing.OrderIsTaxedInItsRegion | backend/app/domain/order/service.py:97-121 | every placed order records the region its cart names, when that is configured, and otherwise the fallback, and is charged the exact bill of its worth at that region's tax rate |
| Billing.QuoteIsTaxedInItsRegion | backend/app/domain/cart/service.py:134-150 | the cart page quotes that bill, in the same region |
| Billing.CartIsPricedInItsRegion | backend/app/domain/cart/service.py:143-150 | every open cart is priced in the region it names, or else in the fallback |
| Pricing.RegionOf | backend/app/domain/region/service.py:20-31 | a code resolves to its own region, when that is configured, and otherwise to the fallback; it fails exactly without either |
| Billing.NoRegionIff | backend/app/domain/region/service.py:20-31 | an open cart is refused for want of a region, on its page and at checkout, if and only if neither its own region nor a fallback is configured |
| Billing.CheckoutRefusals | backend/app/domain/order/service.py:84-161 | every guard of checkout in the order in which it refuses a request that is no replay, each with its error |
| Billing.ExplicitPriceIsFrozen | backend/app/domain/pricing/service.py:43-45 | a placed order records a variant's explicit price, rounded half up to the currency's decimals, and charges exactly that for every unit, whatever the base price and the rates |
| Stock.ReserveAllExact | backend/app/domain/order/service.py:146-147 | the line-by-line loop succeeds if and only if the total demand per variant is available, and then has reserved that demand |
| Stock.ReserveByDemand | backend/app/domain/order/service.py:146-147 | baskets that ask for the same units reserve alike, whatever the order and splitting of their lines |
| Stock.ReleaseAllExact | backend/app/domain/order/service.py:228-230 | the release loop as one effect per variant, and exactly when it fails |
| Stock.CommitAllExact | backend/app/domain/order/service.py:212-214 | the commit loop as one effect per variant, and exactly when it fails |
| Stock.ReleaseNeverClamps | backend/app/domain/inventory/service.py:64-76 | when a row covers the total demand, each line of the loop still meets enough reserved units |
| Stock.CommitNeverClamps | backend/app/domain/inventory/service.py:78-91 | the same for reserved and quantity when committing |
| Stock.ApplyAllKeepsSound | backend/app/domain/inventory/service.py:36-115 | no accepted sequence of operations lets reserved leave the range from zero to quantity |
| Stock.LedgerOfReserve | backend/app/domain/inventory/service.py:60-61 | the entries of a checkout add up to its demand, and to no physical change |
| Stock.LedgerOfCommit | backend/app/domain/inventory/service.py:88-90 | the entries of a payment take its demand from both sums |
| Stock.LedgerOfRelease | backend/app/domain/inventory/service.py:74-75 | the entries of a cancellation take its demand from the reserved sum alone |
| Ledger.ReasonsExplainOrders | backend/app/domain/inventory/service.py:117-122 | over any run with honest adjustment reasons, the entries for "reserve" add up to the units of all orders ever placed, those for "release" to minus the units of cancelled orders, and those for "commit" to minus the units of orders that were paid |
| Ledger.LedgerIsAccounted | backend/app/domain/inventory/service.py:117-122 | over any run and for any reason whatever, the entries add up to what the orders account for plus what was adjusted under that reason |
| Ledger.CheckoutWrites | backend/app/domain/inventory/service.py:60-61 | a placed order is recorded line by line as reserved |
| Ledger.ChangeWrites | backend/app/domain/inventory/service.py:74-90 | a paid order is recorded line by line as committed, a cancelled one as released, and any other change not at all |
| Ledger.StockCallsWrite | backend/app/domain/inventory/service.py:93-115 | an adjustment in a sound shop is recorded with its reason and note, changes one row by its delta, or is refused; opening stock creates a row and records nothing |
| Inventory.InventoryService.EnsureItem | backend/app/domain/inventory/service.py:24-30 | an existing row is returned unchanged, a missing one is created with the quantity and nothing reserved |
| Inventory.InventoryService.Reserve | backend/app/domain/inventory/service.py:36-62 | with enough available, reserved rises by the quantity and the ledger gains (variant, quantity, "reserve"); the error of each refusal, which leaves the session as it was |
| Inventory.InventoryService.Release | backend/app/domain/inventory/service.py:64-76 | reserved falls by the quantity, not below zero, and the ledger gains (variant, minus quantity, "release"); nothing happens for zero or less |
| Inventory.InventoryService.CommitReservation | backend/app/domain/inventory/service.py:78-91 | quantity and reserved fall by the quantity, not below zero, and the ledger gains (variant, minus quantity, "commit"); nothing happens for zero or less |
| Inventory.InventoryService.Adjust | backend/app/domain/inventory/service.py:93-115 | the quantity changes by the delta, unless that uncovers what is reserved, and the ledger gains the delta with its reason and note; a refusal may leave a new empty row in the pending session |
| Orders.Order.Transition | backend/app/domain/order/models.py:60-66 | a change along the life cycle sets the status and appends the event from the previous status; any other is refused and leaves the order untouched |
| Orders.TransitionMeans | backend/app/domain/order/state_machine.py:24-41 | which changes are accepted, status by status, and the one event each of them appends |
| Orders.StatusCodes | backend/app/domain/order/state_machine.py:14-21 | the names are the stored codes |
| Orders.TransitionKeepsHistory | backend/app/domain/order/models.py:60-66 | every accepted status change keeps the log a chain of allowed steps that ends in the status |
| Orders.RanksFall | backend/app/domain/order/state_machine.py:24-32 | along any true history a rank on statuses falls with every event |
| Orders.HistoryIsShort | backend/app/domain/order/state_machine.py:24-32 | no status occurs twice in a history, and it has at most five events |
| Orders.SettledWasPaid | backend/app/domain/order/state_machine.py:24-32 | a fulfilled, completed or refunded order was paid before |
| Orders.TargetsAreAccepted | backend/app/domain/order/state_machine.py:35-44 | a status name is offered to operators if and only if the transition to it would be accepted |
| Orders.TargetsAreSorted | backend/app/domain/order/state_machine.py:43-44 | the offered names are in alphabetical order |
| Carts.AddIsAddition | backend/app/domain/cart/service.py:87-101 | adding a line is addition on a map from variants to quantities, keeps variants distinct and quantities positive, and touches no other variant |
| Carts.UpdateIsAssignment | backend/app/domain/cart/service.py:113-117 | updating a line is assignment on that map, zero or less removal |
| Carts.DemandIsContent | backend/app/domain/order/service.py:146-147 | what a sound cart asks for at checkout is exactly its content |
| Carts.CartIsOpen | backend/app/domain/cart/service.py:60-71 | a cart is open if and only if it is known, active and not at or past its expiry; the error of each other case |
| Carts.AddKeepsRest | backend/app/domain/cart/service.py:87-101 | adding reprices the variant's line, or appends one at the end; every other line stays |
| Carts.UpdateKeepsRest | backend/app/domain/cart/service.py:113-117 | updating keeps every other line, and of the line all but its quantity; removing closes the gap |
| CartService.CartService.Create | backend/app/domain/cart/service.py:43-58 | creates the active, empty cart that `CreateCartExactly` describes, and fails for a token in use |
| CartService.CartService.GetByToken | backend/app/domain/cart/service.py:60-71 | only a known, active, unexpired cart is returned; the error of each other case |
| CartService.CartService.AddLine | backend/app/domain/cart/service.py:73-105 | changes this cart of the session as `LineAdded` says, or nothing |
| CartService.CartService.UpdateLine | backend/app/domain/cart/service.py:107-121 | changes this cart of the session as `LineUpdated` says, or nothing |
| CartService.CartService.RemoveLine | backend/app/domain/cart/service.py:123-124 | is an update to zero |
| CartService.CartService.Totals | backend/app/domain/cart/service.py:134-150 | prices the cart with its own region, or the fallback, and is refused for want of a region exactly without either |
| Payment.MockPaymentProvider.CreateIntent | backend/app/domain/payment/mock.py:27-41 | registers the order's number, total and currency, not captured, and touches no other intent |
| Payment.MockPaymentProvider.Confirm | backend/app/domain/payment/mock.py:43-52 | captures a known intent and changes nothing else; an unknown one fails |
| Payment.MockPaymentProvider.Refund | backend/app/domain/payment/mock.py:54-66 | succeeds if and only if the intent was captured, and records nothing |
| OrderService.OrderService.DrawNumber | backend/app/domain/order/service.py:66-73 | the loop of five draws |
| OrderService.OrderService.SnapshotCart | backend/app/domain/order/service.py:123-144 | appends the snapshot of every cart line, or fails as soon as one variant is missing or cannot be priced |
| OrderService.OrderService.ReserveLines | backend/app/domain/order/service.py:146-147 | the loop equals reserving line after line, first failure included |
| OrderService.OrderService.CommitLines | backend/app/domain/order/service.py:212-214 | the loop commits the lines that still name a variant |
| OrderService.OrderService.ReleaseLines | backend/app/domain/order/service.py:228-230 | the loop releases the lines that still name a variant |
| OrderService.OrderService.FindIntent | backend/app/domain/order/service.py:193-200 | the reversed search returns the reference of the latest note that marks an intent |
| OrderService.OrderService.Checkout | backend/app/domain/order/service.py:75-161 | session and provider end as `CheckedOut` says, which `CheckoutPlaces` and `Billing` describe; on failure the provider is untouched |
| OrderService.OrderService.Pay | backend/app/domain/order/service.py:189-216 | session and provider end as `PaidOrder` says |
| OrderService.OrderService.ChangeStatus | backend/app/domain/order/service.py:218-245 | session and provider end as `TransitionedOrder` says, which `ChangeSucceedsExactly` describes |
| Store.Store.PlaceOrder | backend/app/api/v1/store/checkout.py:24-32 | a checkout is committed or leaves no trace, keeps the shop's invariant, and places an order with all that `CheckoutRecords` says unless it is a replay |
| Store.Store.PayOrder | backend/app/api/v1/store/orders.py:39-40 | a payment succeeds exactly for an unpaid order, is committed or leaves every table as it was, and keeps the invariant |
| Store.Store.ChangeStatus | backend/app/api/v1/admin/orders.py:65-66 | an operator's change succeeds exactly along the life cycle, moves that order alone, and keeps the invariant |
| Store.Store.AdjustStock | backend/app/api/v1/admin/inventory.py:43-46 | a stock correction is committed or leaves no trace, a row created by a refused one included, and keeps the invariant |
| Store.Store.OpenStock | backend/app/domain/catalog/admin_service.py:170-171 | opens the row of a new variant, and keeps the invariant if and only if that row is not below zero |
| Store.Store.AddLine | backend/app/api/v1/store/carts.py:75-76 | adding a cart line is committed or leaves no trace, and keeps the invariant |
| Store.Store.UpdateLine | backend/app/api/v1/store/carts.py:88-89 | the same for updating a cart line |
| Store.FailureKeepsTables | backend/app/db/session.py:40-43 | a request that fails leaves every table as it was, and every intent unless it was a payment |
| Decimals.HalfUpMeans | backend/app/domain/currency/money.py:23-33 | an integer is the half-up rounding of a quotient if and only if the quotient lies from half a unit below it to less than half a unit above |
| Decimals.QuantizeMeans | backend/app/domain/currency/money.py:23-33 | quantizing an amount of s decimals to p places gives the half-up rounding of its coefficient times 10^p over 10^s, and fails exactly when that has more than 28 digits |
| Decimals.HalfEvenExactly | backend/app/domain/currency/service.py:50-54 | an integer is the half-even rounding of a quotient if and only if it is nearest to it, and even where two integers are |
| Decimals.BlurredMonotone | backend/app/domain/currency/service.py:50-54 | cutting to the context's 28 digits never reverses the order of two numbers |
| Currency.CurrencyService.RefreshRates | backend/app/domain/currency/service.py:61-77 | of the tracked quotes of a successful fetch the last value is written, half up in units of 10^-10, and they are counted; every other rate is kept; a failed fetch changes nothing, and so does any tracked rate of more than 20 such digits |
| Currency.StoredRateMeans | backend/app/db/base.py:26-27 | a rate is stored as its half-up rounding in units of 10^-10, and refused exactly when that has more than 20 digits |
| Currency.ShortRateIsKept | backend/app/db/base.py:26-27 | a rate of at most ten decimals is stored unchanged |
| Currency.PlacesMean | backend/app/domain/currency/service.py:34-38 | the decimals of a currency: those of its row, or by default none for six codes, three for five, and two for any other |
| Currency.UpperMeans | backend/app/domain/currency/money.py:14-20 | letters lose their case, one by one, and everything else stays |
| Currency.CaseIsIgnored | backend/app/domain/currency/service.py:40-43 | codes that differ in case only have the same decimals and convert alike |
| Currency.RoundsToDefault | backend/app/domain/currency/money.py:23-33 | without given decimals an amount is rounded to the default ones |
| Currency.ConvertUnavailableIff | backend/app/domain/currency/service.py:45-59 | no rate is available if and only if the currencies differ, no direct rate is stored, and no opposite one but zero |
| Conversion.RefreshedRateIsColumn | backend/app/db/base.py:26-27 | a positive rate that a refresh stores is one that the conversion theorems cover |
| Conversion.ConvertWithinCurrency | backend/app/domain/currency/service.py:45-46 | within one currency an amount is only rounded half up to its decimals |
| Conversion.ColumnHolds | backend/app/db/base.py:24-25 | an amount of p decimals fits the money column if and only if it is below 10^10 in size |
| Conversion.InverseBranchExact | backend/app/domain/currency/service.py:52-54 | for every amount, rate and number of decimals the columns can hold, dividing at 28 digits and quantizing equals one half-up rounding of the exact quotient |
| Conversion.DirectBranchExactIff | backend/app/domain/currency/service.py:48-50 | for every amount, rate and number of decimals the columns can hold, multiplying at 28 digits never fails, and equals one half-up rounding of the exact product if and only if the product does not lie just below a tie, by at most half a unit of the last digit kept |
| Conversion.DirectBranchExact | backend/app/domain/currency/service.py:48-50 | an amount whose exact conversion fits the money column is converted to it, and a converted amount that fits is the exact one |
| Conversion.DirectBranchCanRoundTwice | backend/app/domain/currency/service.py:48-50 | a concrete amount and rate within the columns, with a result outside, for which it does not |
| Conversion.ConvertAtDirectRate | backend/app/domain/currency/service.py:40-50 | `convert` with a stored direct rate returns the exact product rounded once, exactly when that product is not just below a tie, and always when the result fits the column |
| Conversion.ConvertAtInverseRate | backend/app/domain/currency/service.py:40-54 | `convert` with only the opposite rate stored returns the exact quotient rounded once, for every amount and rate the columns can hold |
| RoundTrip.ConvertRoundTrip | backend/app/domain/currency/service.py:40-54 | with only one direction stored, converting any amount of the base column there and back is off by at most half a base unit plus half a quote unit over the rate, and exact when a quote unit is worth no more than a base unit, if and only if it is not the one lost amount |
| RoundTrip.ComesBackIff | backend/app/domain/currency/service.py:40-54 | where a quote unit is worth no more than a base unit, an amount of the base column comes back through both `convert` calls if and only if it is not the lost one: with four decimals against none, at the rate just above the even one, the amount that converts to a tie |
| RoundTrip.RoundTripExactIff | backend/app/domain/currency/service.py:40-54 | every amount of the base column comes back through both `convert` calls if and only if a quote unit is worth no more than a base unit and the rate is not that one rate |
| RoundTrip.StoredRoundTripExactIff | backend/app/domain/currency/service.py:40-54 | every amount whose conversion can be stored comes back if and only if a quote unit is worth no more than a base unit, or the first two amounts that collide convert out of the money column |
| RoundTrip.LostFails | backend/app/domain/currency/service.py:40-54 | the lost amount comes back one unit too high, in every book that stores that rate |
| RoundTrip.SomeTripIsLost | backend/app/domain/currency/service.py:40-54 | such a book exists |
| Pricing.PricingService.Calculate | backend/app/domain/pricing/service.py:53-91 | the accumulating loop computes the sum over all lines, skipping unknown variants and failing at the first that cannot be priced |
| PricingLaws.UnitPriceWhole | backend/app/domain/pricing/service.py:39-51 | a unit price is a non-negative whole number of minor units, and the second rounding of a converted price changes nothing |
| PricingLaws.ExplicitPrice | backend/app/domain/pricing/service.py:43-45 | an explicit price is the unit price, rounded half up to the currency's decimals, whatever the base price and the rates |
| PricingLaws.ConvertedPrice | backend/app/domain/pricing/service.py:47-51 | without one the unit price is the converted base price, and what cannot be converted has none |
| PricingLaws.ExplicitPriceIsBilled | backend/app/domain/pricing/service.py:69-75 | the bill counts every unit with an explicit price at exactly that price |
| PricingLaws.QuantizeTwice | backend/app/domain/currency/money.py:23-33 | rounding a rounded amount again changes nothing |
| PricingLaws.SubtotalSums | backend/app/domain/pricing/service.py:69-75 | the running subtotal is the exact worth of the lines up to 28 digits, and from then on so large that no rounding to minor units accepts it |
| PricingLaws.SubtotalExact | backend/app/domain/pricing/service.py:69-76 | whenever a calculation succeeds, its subtotal is the exact worth of the basket, however large |
| PricingLaws.CalculationExact | backend/app/domain/pricing/service.py:53-91 | a breakdown whose subtotal fits its column is the exact bill in minor units; its outer roundings change nothing |
| PricingLaws.CalculationSucceeds | backend/app/domain/pricing/service.py:53-91 | conversely, priced variants worth at most 14 digits of minor units are always calculated, and billed exactly |
| PricingLaws.BillMeans | backend/app/domain/pricing/service.py:76-101 | the four amounts of a bill by inequalities on integers: free shipping from 100, or 10000 yen, on; otherwise 9.90, or 990 yen, half up; tax is the rate times subtotal and fee, half up; the total is the sum |
| PricingLaws.CalculationByDemand | backend/app/domain/pricing/service.py:61-91 | permuting, splitting or merging lines leaves all four amounts of any successful calculation unchanged |
| PricingLaws.CalculationGrows | backend/app/domain/pricing/service.py:76-101 | of two successful calculations, the one with more of everything never has the lower total, except across the free-shipping line, and then by less than flat fee, its tax and one minor unit |
| Lines.WeighByDemand | backend/app/domain/pricing/service.py:69-75 | a price-weighted sum depends on the lines only through the demand per variant |
| RowLocks.InterleavingIsSerial | backend/app/domain/inventory/repository.py:18-29 | under every interleaving the committed rows and ledger are those of the committed transactions, each once, run one at a time in commit order |
| RowLocks.StepKeepsInvariant | backend/app/domain/inventory/repository.py:18-29 | every step keeps each running transaction's private rows equal to its own operations run on what is committed now |
| RowLocks.FailureIsSerial | backend/app/domain/inventory/repository.py:18-29 | an operation of a transaction is refused if and only if the script up to it fails on the rows committed at that moment |
| RowLocks.EveryOrderHappens | backend/app/domain/inventory/repository.py:18-29 | conversely, whatever transactions succeed one after the other, some interleaving commits exactly them, in that order |
| RowLocks.AllCanEnd | backend/app/domain/inventory/repository.py:18-29 | any transactions can all end by themselves, each committed or refused |
| RowLocks.NeverOversold | backend/app/domain/inventory/service.py:36-62 | in no interleaving does a committed reserved exceed its quantity |
| RowLocks.CommittedBasketsFit | backend/app/domain/order/service.py:146-147 | however checkouts interleave, the reserved units are the earlier ones plus the committed baskets, which together fit what was available |
| RowLocks.ExactlyAvailableSucceed | backend/tests/test_inventory.py:110-137 | of any number of single-unit reservations that end by themselves, exactly as many succeed as units were available |
| Gate.FifoGate.Acquire | scripts/sandbox-fs-guard.cjs:40-46 | a caller enters while slots are free and queues at the end otherwise |
| Gate.FifoGate.Release | scripts/sandbox-fs-guard.cjs:47-54 | a leaving caller hands its slot to the head of the queue, and gives it up only when nobody waits |
| Gate.StepKeepsInvariant | scripts/sandbox-fs-guard.cjs:36-56 | every call and completion keeps `active` equal to the holders, within the limit, with a queue only when all slots are taken |
| Gate.GateIsFairAndBounded | scripts/sandbox-fs-guard.cjs:36-80 | under every interleaving at most `limit` callers are inside, no slot idles while someone waits, and grants follow the order of requests |
| Gate.BurstIsServed | scripts/sandbox-fs-guard.cjs:36-56 | any callers may ask one after the other; the first `limit` of them enter at once, the others wait in the order they asked |
| Gate.BoundedWaiting | scripts/sandbox-fs-guard.cjs:63-80 | the waiter at position k is let in by the time k + 1 holders completed, whoever else arrives |
| Gate.GateDrains | scripts/sandbox-fs-guard.cjs:63-80 | without new arrivals the gate is back at zero after as many completions as it had holders and waiters, and everyone was let in |
| Gate.GateCanDrain | scripts/sandbox-fs-guard.cjs:36-80 | with at least one slot no reachable state is stuck: some run of completions alone brings the gate to zero with everyone let in |

## Left out

- Upper-casing outside ASCII: currency codes are ASCII.
- FastAPI routes and schemas, authentication, Redis, the worker, migrations, containers, proxies and the whole user interface: plumbing around the modelled core.
- Catalog editing, translations and locale negotiation: a variant is its SKU, name and label in the request's locale, base price and explicit prices.
- Product deletion, which removes stock rows, and requests that race for one order or one cart: the code holds no lock on them.
- Deadlock freedom of row locks: a deadlock victim is a dropped transaction, and who becomes one is not described.
- Composite requests such as setting stock to an absolute number: they are one adjustment with the difference.
- Rows as live objects shared through the ORM's identity map: a service loads an object, changes it and flushes it back. Cart lines, order lines and events are values inside their cart or order, not objects of their own.
- Foreign keys, 32-bit integer columns and lengths of text columns: exceeding one only turns a request into a failed one that is rolled back.
- The ideal exponent of exact quotients, exponent limits, NaN and negative zero of decimal arithmetic: no amount computed here depends on them after it is quantized.
- The wrapper's tolerance for a rename whose source is gone (scripts/sandbox-fs-guard.cjs:66-76): it decides what the caller gets, not how the gate moves.
- A payment provider whose intent fails at creation: the mock provider never returns one. Payment always goes through the mock provider.
- Captures.CapturedIsPaidUnlessCancelled: assumes that no operator's note starts with the intent prefix; `CapturedUnpaidIff` says what holds without that assumption.
- Runs.RunKeepsInv: runs open no new row below zero, which the service does not check; `OpenKeepsInvIff` shows that this is exactly what the invariant needs.
- CheckoutLaws.UpdateLineExactly: looking up another cart's line is the same refusal as an unknown one; identifiers of cart lines are primary keys.
- RowLocks.ExactlyAvailableSucceed: assumes that no transaction is dropped from outside, which would free its unit for nobody.
- Gate.BoundedWaiting: counts completions of holders; that operations finish at all is up to the file system.
