# Verified model of the moramor-core services

moramor-core is the back end of a shop. This project models the parts of it that hold state
machines, loops or arithmetic, and proves what they keep. `dafny verify dfyconfig.toml` checks all of it.

## How it is laid out

| file | what it models |
|---|---|
| Prelude.dfy | Option, Result, and runs of a machine as a fold over actions |
| Decimal.dfy | `String(n)` and `padStart`, with their inverse |
| Orders.dfy | pricing, stock, order numbers, the transactions of `create` and `cancel`, the stock ledger |
| Payments.dfy | checkout, verify, cancel and status changes interleaved at every await |
| Payability.dfy | which orders can still be paid |
| Returns.dfy | the returns of an order counted by the answers given |
| Cart.dfy | cart rows and the cart service's edits |
| CartRaces.dfy | one user's cart under interleaved checkouts and edits |
| Shop.dfy | the order, checkout and cart services in place, one request at a time |
| SerialRuns.dfy | whole runs of those requests: stock and order numbers |
| OrderNumbers.dfy | order numbers under interleaved creations |
| Sessions.dfy, SessionSafety.dfy | refresh rotation and password reset interleaved at every await |
| ResetTokens.dfy | how many reset tokens of one user can be alive |
| TokenReuse.dfy | when a refresh-token string is good for a single use |
| AuthServer.dfy | the token methods of the auth service in place |
| Framing.dfy, JsonRpc.dfy, TerminalServer.dfy, Utf8.dfy, OutputCollector.dfy | the MCP terminal server |
| Slugs.dfy, Collections.dfy | slugs, product order and the collections service |
| Paging.dfy | the page figures of the two `findAll` |

Tables are maps or sequences. A unique key refuses a second row, `delete` by id fails when the row is
gone, `updateMany` tests and writes in one step, and a transaction is all or nothing. Orders and
collections are never deleted, so a row's position is its id. In the interleaving machines every call is
a program counter; an action lets one call do what it does between two awaits, and a list of actions
is an interleaving. Gateway answers, authorities, refIds, token strings, hashes and the clock are
inputs of the actions and may be anything. Some fields are history and not columns: `restocks` of an order
(how many cancellations were committed for it), `verdicts` (positive gateway answers), `chain` of a refresh
row (the login it descends from), and `issued` and `issuedResets` (every token row ever stored). Methods of
the classes `ShopServer`, `AuthService`, `Server`, `Collector` and `CollectionsService` are the code in place; each is proved against a specification the lemmas are about, and
`VerifyPayment`, `CreationAlone`, the `...FollowsProtocol` and the `...FollowsCart` lemmas tie them to the interleaving machines, and
`Perform` to the serial runs. The predicates named `...Outcome` say what an operation does to each row and column without naming
the functions it is computed by.

## What the proofs brought to light

- `verifyPayment` looks at `paymentStatus` and never at CANCELLED, so a cancelled order whose authority is
  still open can become PAID and CONFIRMED with its goods back on the shelf
  (`Payments.CancelledOrderGetsPaid`). `Payability.CanBecomePaidIff` says exactly which orders can still be paid.
- The guards of `cancel` do not test CANCELLED either: an order that is not PAID can be put back again and
  again. `Payments.GoodsStayIff` and `Payments.StockConservedIff` give the exact conditions. The guide
  (markdown/API_GUIDE.md:448-449) promises cancellation for unpaid *or unconfirmed* orders; the code differs
  exactly for a PAID order that was put back to PENDING (`Orders.GuideDiffersIff`, `Payments.PaidOrderReopened`).
- A FAILED order stays refused even when the gateway accepts the payment afterwards
  (`Shop.ShopServer.VerifyPayment`).
- A refresh token is single-use per stored row, not per string: signing the same claims in the same second
  gives the same string, and then it works twice (`SessionSafety.ReissuedTokenWorksTwice`). The presented
  string lives on exactly if signing yields it again (`TokenReuse.PresentedTokenLivesIff`); and a string that
  is not stored is, until it is signed again, spent for good exactly if no call under way carries it
  (`TokenReuse.SpentForGoodIff`).
- A password reset ends all sessions for good exactly when no refresh stands between deleting its old row
  and storing the new one (`SessionSafety.ResetIsFinalIff`).
- Two overlapping `forgotPassword` calls can leave two working tokens. `ResetTokens.OneResetTokenIff` gives
  the exact condition; without overlap there is never more than one (`ResetTokens.SerialForgotsLeaveOne`).
- `forgotPassword` answers with an error when the mail fails, but the new token is stored and works
  (`AuthServer.UnmailedTokenWorksIff`).
- A product listed twice in an explicit item list passes both stock checks and drives stock below zero
  (`Orders.RepeatedItemOversells`). The service takes such a list; the controller's DTO
  (src/modules/checkout/dto/create-checkout.dto.ts:10-11) asks for a string where implicit conversion
  makes a number, so today no explicit list gets through validation. Two overlapping cart checkouts of the
  last piece do get through (`SerialRuns.LastPieceSoldTwice`; exactly when, `SerialRuns.StaleChecksOversellIff`).
- Two creations that both count the day's orders before either inserts compute the same order number, and the
  later one fails (`SerialRuns.OverlappingCreationsCollide`). `OrderNumbers.RefusedForNumberIff` says exactly
  when a creation is refused; around midnight it can happen although the other order was in before the count
  (`OrderNumbers.MidnightCollision`).
- When the payment request fails after the order is in, the order and its stock stay and the cart is kept, so a
  second checkout orders the same rows again (`CartRaces.RetryOrdersTwice`; exactly when,
  `CartRaces.ReadIsSafeIff`). A row added while a checkout is under way is cleared without being ordered
  (`CartRaces.AddedRowLost`; exactly when, `CartRaces.LineLostIff`).
- An empty chunk at a full output buffer would set `truncated` although nothing was cut; that is the only
  way the flag can be wrong (`OutputCollector.OverflowedIff`), and Node's pipes deliver no empty chunk.
- Chunks are decoded one by one, so a character that arrives in two chunks comes out as replacement characters
  (`OutputCollector.CharacterCutInTwo`); otherwise the text is right (`OutputCollector.TextFaithfulIff`).
- A last stdin line without a newline is never dispatched (`TerminalServer.NoLineLostIff`,
  `TerminalServer.LastLineLost`).
- A slug may begin or end with a dash, or be empty: `slugify` trims before it drops other characters
  (`Slugs.SlugEnds` says exactly when; `Slugs.DashIsASlug`, `Slugs.EmptySlug`). Numbering a slug that ends with a
  dash puts two dashes in a row, which `slugify` itself never does (`Collections.NumberedIsSlugIff`).

## Model

| member | source | states |
|---|---|---|
| `Payments.StepKeepsInv` | src/modules/checkout/checkout.service.ts:109-187 | Every single step of any checkout, verify, cancel or status-change call, taken from any state that satisfies the invariant, keeps it: authorities are unique and belong to ZARINPAL orders, a PAID order has a matching gateway verdict on record, a success reply names the stored refId, an order is checked out by one call only; and rows only evolve (see the next rows) |
| `Payments.RunKeepsInv` | src/modules/checkout/checkout.service.ts:21-187 | The same along every interleaving of any number of calls |
| `Payments.PaymentWrittenOnce` | src/modules/checkout/checkout.service.ts:128-161 | In every interleaving `paymentStatus` leaves UNPAID at most once, to PAID or FAILED, and after that it and `paymentId` never change; nor do the authority once set, the amount, the lines and the method |
| `Payments.AnsweredIsDecided` | src/modules/checkout/checkout.service.ts:128-146 | No verify call leaves its order open: in every interleaving, once a call that was cancelled, declined or accepted has answered, its order is PAID or FAILED, then and in every continuation |
| `Payments.LoserSaysTheSame` | src/modules/checkout/checkout.service.ts:149-185 | Two calls accepted for one UNPAID order: the first write pays it, CONFIRMED and with its own refId, and the loser looks again and answers with that same refId |
| `Payments.PaymentRepliesAgree` | src/modules/checkout/checkout.service.ts:118-185 | Any two success replies for one order (early exit, winner, loser who looked again), given at whatever moments, carry the same refId, equal to the stored `paymentId`; and a success reply exists only for an order that is PAID and stays so, never for a FAILED one |
| `Payments.PaidOnlyAfterVerdict` | src/modules/checkout/checkout.service.ts:136-161 | The step that makes an order PAID finds an earlier positive gateway answer for exactly that authority and exactly that `totalPrice` |
| `Payments.PaidOrdersAreVerified` | prisma/schema.prisma:261-264 | In every reachable state a PAID order has method ZARINPAL and an authority no other order has, and its verdict (authority, total, refId) is still on record |
| `Payments.VerdictsAndOrdersMoveApart` | src/modules/checkout/checkout.service.ts:136-161 | No step both records a gateway answer and writes the tables: the verdict a PAID write relies on is strictly earlier |
| `Payments.StoreKeepsInv` | src/modules/checkout/checkout.service.ts:94 | Storing an authority, refused when another order holds it, keeps the invariant: at that moment the order has no authority yet and nobody else is checking it out |
| `Payments.VerifyStepKeepsInv` | src/modules/checkout/checkout.service.ts:109-187 | The verify steps alone: read, gateway answer, guarded FAILED write, guarded PAID write, re-read |
| `Payments.StockLedger` | src/modules/orders/orders.service.ts:114-123 | At every moment of every interleaving: stock plus all placed quantities minus all committed returns is what it was at the start, repeated lines counted with multiplicity |
| `Payments.StockConservedIff` | src/modules/orders/orders.service.ts:293-325 | From an empty shop, with non-negative quantities: stock plus what uncancelled orders hold equals the opening stock plus the surplus from repeated cancellations; it equals the opening stock exactly when no order holding the product was put back twice |
| `Payments.StockConservedOverRuns` | src/modules/orders/orders.service.ts:293-325 | The same for every run whose placements ask for no negative quantity |
| `Payments.GoodsStayIff` | src/modules/orders/orders.service.ts:296-304 | The exact reach of the cancel guards: the goods of an order are never (again) put back in any future if and only if it is PAID and no cancel is already past its guards; being CANCELLED plays no part |
| `Payments.RunKeepsSealed` | src/modules/orders/orders.service.ts:300-304 | Once an order is PAID with no cancel in flight for it, every continuation leaves its goods alone |
| `Payments.UnsealedCanRestock` | src/modules/orders/orders.service.ts:293-325 | From every other reachable state some continuation puts the goods back once more |
| `Payments.UnpaidCanBePaid` | src/modules/checkout/checkout.service.ts:149-161 | An UNPAID order with an authority, whatever its status, can become PAID and CONFIRMED without any product row changing |
| `Payments.CancelledOrderGetsPaid` | src/modules/checkout/checkout.service.ts:149-161 | A concrete interleaving that ends with an order PAID and CONFIRMED while all its goods are back on the shelf |
| `Payments.PaidOrderReopened` | src/modules/orders/orders.service.ts:231-264 | A concrete interleaving that ends with an order PAID and PENDING, which the guide lets cancel and the guards refuse |
| `Returns.ReturnsAreAnswers` | src/modules/orders/orders.service.ts:293-328 | In every interleaving the returns counted in the ledger for an order are exactly as many as the calls that answered that it was cancelled |
| `Payments.FirstOrderAuthorised` | src/modules/checkout/checkout.service.ts:46-94 | Placing, requesting and storing, taken in a row, yield one UNPAID order with its goods taken and its authority set |
| `Payability.CanBecomePaidIff` | src/modules/checkout/checkout.service.ts:94-161 | From any reachable state an order that is not PAID can become PAID in some future if and only if it is UNPAID and holds an authority, or its own checkout can still store a free one; its status plays no part |
| `Payability.RunKeepsHopeless` | src/modules/checkout/checkout.service.ts:128-161 | An order for which that condition fails stays unpaid in every continuation |
| `Payability.PayableCanBePaid` | src/modules/checkout/checkout.service.ts:83-161 | An order for which it holds is paid by some continuation |
| `Payability.AuthorityHasCause` | src/modules/checkout/checkout.service.ts:83-94 | The step that gives an order its authority is the store of a call that is checking that order out, of exactly that authority, while no order holds it |
| `Payability.AuthorityComesFromCreator` | src/modules/checkout/checkout.service.ts:46-94 | In every interleaving that call is the one that placed the order, and no other |
| `Orders.PriceMeaning` | src/modules/orders/orders.service.ts:45-72 | The validation loop succeeds exactly when every single item names an active product with at least the quantity on the shelf, and then every line has that item's product and quantity at the product's price and discount |
| `Orders.PriceItemMeaning` | src/modules/orders/orders.service.ts:50-58 | One item: accepted exactly for an active product with enough stock; refused as unknown if the product is missing or inactive, else as out of stock |
| `Orders.PriceStopsEarly` | src/modules/orders/orders.service.ts:50-57 | The first item refused decides the error of the whole list |
| `Orders.PriceRefusal` | src/modules/orders/orders.service.ts:45-58 | A refused list is refused for its first item that cannot be ordered, and for that item's reason |
| `Orders.PricesAgree` | src/modules/orders/orders.service.ts:60-90 | Stored subtotal minus rounded discount is off the total by at most one half, and by nothing exactly when the total is a whole number; with fair prices the total lies between zero and the subtotal |
| `Orders.DiscountBounded` | src/modules/orders/orders.service.ts:60-64 | For prices >= 0, percentages in 0..100 and quantities >= 1 the discount lies between zero and the subtotal |
| `Orders.TotalIsCharge` | src/modules/orders/orders.service.ts:60-74 | Subtotal minus discount is the sum over the lines of quantity times the unit price less its percentage |
| `Orders.CreateSucceedsIff` | src/modules/orders/orders.service.ts:23-126 | `create` goes through if and only if the address is good, every item is an active product with enough stock, the total is a whole number and the order number is free; otherwise nothing changes |
| `Orders.CreateRefusal` | src/modules/orders/orders.service.ts:26-94 | Which refusal it is: the address comes first, then the first bad item, then a total that is not whole, then a taken number, each exactly when it applies |
| `Orders.CreateEffect` | src/modules/orders/orders.service.ts:80-126 | A created order is one new row at the end with the computed number, the method and date given, PENDING and UNPAID, no authority; it stores subtotal, rounded discount and total of its lines, the total is what the lines cost, and the three figures add up; one line per item at the price of the moment; every product is lower by exactly the quantity asked, other columns untouched |
| `Orders.CreateThenCancel` | src/modules/orders/orders.service.ts:307-325 | Cancelling the order just created is allowed, restores the product table exactly and keeps all other orders |
| `Orders.CancelMeaning` | src/modules/orders/orders.service.ts:293-328 | `cancel` goes through exactly for an order that exists, is neither SHIPPED nor DELIVERED, not PAID, and whose products all exist; then it is CANCELLED and nothing else of it changes, every product is higher by the ordered quantity, and all other orders stay; which refusal it is otherwise |
| `Orders.ShiftMeaning` | src/modules/orders/orders.service.ts:114-123 | The decrement (or increment) loop moves each product by its summed quantity and changes nothing else |
| `Orders.TakeThenGiveBack` | src/modules/orders/orders.service.ts:307-317 | The increment loop undoes the decrement loop exactly |
| `Orders.DistinctItemsCovered` | src/modules/orders/orders.service.ts:55-58 | With distinct products the per-item stock check covers the whole decrement loop |
| `Orders.QuantityOfLine` | src/modules/orders/orders.service.ts:114-123 | With distinct products a product moves by the quantity of its one line |
| `Orders.PlaceNonNegativeIff` | src/modules/orders/orders.service.ts:114-123 | A placement leaves no stock negative if and only if for every product the summed quantity was in stock |
| `Orders.RepeatedItemOversells` | src/modules/orders/orders.service.ts:55-58 | A product listed twice passes both checks and ends below zero |
| `Orders.OrderNumberInjective` | src/modules/orders/orders.service.ts:330-352 | An order number determines its day and counter, also beyond 99999 orders a day |
| `Orders.DayStampInjective` | src/modules/orders/orders.service.ts:332-334 | The year-month-day part determines the date |
| `Orders.DayStampMeaning` | src/modules/orders/orders.service.ts:331-334 | The date part read as a number is 10000 times the year plus 100 times the month plus the day |
| `Orders.CountOnMeaning` | src/modules/orders/orders.service.ts:340-347 | The day's count is the number of orders created on that day |
| `Orders.NextOrderNumberMeaning` | src/modules/orders/orders.service.ts:330-352 | The next number is "ORD-", the date, a dash, and in at least five digits one more than the number of orders of that day |
| `Orders.NetIsHeldMinusSurplus` | src/modules/orders/orders.service.ts:307-325 | Placed minus returned equals held by uncancelled orders minus surplus of repeated returns |
| `Orders.NoSurplusIff` | src/modules/orders/orders.service.ts:296-304 | There is no surplus exactly when no order holding the product was put back twice |
| `Orders.PlaceKeepsLedger` | src/modules/orders/orders.service.ts:80-126 | A placement, successful or refused, keeps stock plus net holdings |
| `Orders.CancelKeepsLedger` | src/modules/orders/orders.service.ts:307-325 | A committed cancellation keeps stock plus net holdings |
| `Orders.GuideDiffersIff` | src/modules/orders/orders.service.ts:296-304 | The guards of `cancel` and the rule of the guide differ exactly for an order that is PAID and PENDING, and then the guards are the stricter |
| `Decimal.PaddedShowInjective` | src/modules/orders/orders.service.ts:333-349 | Two numbers printed with `String` and `padStart` agree only if they are equal |
| `Decimal.ReadPadStart` | src/modules/orders/orders.service.ts:349 | Zero-padding does not change the number a digit string stands for, at any width |
| `Shop.ShopServer.PriceItems` | src/modules/orders/orders.service.ts:36-74 | The loop with its running sums computes the priced lines, subtotal and discount of the specification, errors included |
| `Shop.ShopServer.TakeGoods` | src/modules/orders/orders.service.ts:114-123 | The decrement loop takes exactly the priced lines |
| `Shop.ShopServer.CreateOrder` | src/modules/orders/orders.service.ts:23-129 | `create` in place: the new tables and the answer are those of the specification the `Orders` lemmas are about; a refusal changes nothing |
| `Shop.ShopServer.CancelOrder` | src/modules/orders/orders.service.ts:293-328 | `cancel` in place: guards, return loop and status write; a missing product rolls everything back |
| `Shop.ShopServer.UpdateStatus` | src/modules/orders/orders.service.ts:231-264 | Sets the status of that order and nothing else, or finds none; it is the status step of the interleaving machine |
| `Shop.ShopServer.SetPaymentAuthority` | src/modules/orders/orders.service.ts:266-271 | Stores the authority in that order unless another order holds it |
| `Shop.ShopServer.VerifyPayment` | src/modules/checkout/checkout.service.ts:109-187 | `verifyPayment` in place, branch by branch: no order with that authority, nothing changes; PAID, the stored refId; UNPAID and cancelled or declined, FAILED and nothing else; UNPAID with method ZARINPAL, OK and accepted, PAID, CONFIRMED, the refId stored and answered; an order no longer UNPAID is never rewritten and a FAILED one stays refused. It equals one verify call of the interleaving machine scheduled alone |
| `Shop.FinishAsking` | src/modules/checkout/checkout.service.ts:136-187 | From the gateway's answer on: the guarded FAILED write, or the recorded verdict, the guarded PAID write and, if that is lost, the second look |
| `Shop.CheckoutFollowsProtocol` | src/modules/checkout/checkout.service.ts:46-106 | The part of `checkout` from the order transaction on equals one checkout call of the machine scheduled alone |
| `Shop.CancelFollowsProtocol` | src/modules/orders/orders.service.ts:293-328 | `cancel` from start to end equals one cancel call of the machine scheduled alone |
| `Shop.ShopServer.SettleCheckout` | src/modules/checkout/checkout.service.ts:54-106 | After the order is in: cash and bank transfer end there; otherwise the authority is stored or the call is refused, leaving the order |
| `Shop.ShopServer.Checkout` | src/modules/checkout/checkout.service.ts:21-107 | `checkout` in place: no change without a good address or without items; else the order of the specification and what the payment method and the gateway make of it; the cart rows of the user are gone and all other users' rows as they were exactly if the cart was used and the answer is a placed order or a redirect, otherwise no cart row changes |
| `Shop.CheckoutMeaning` | src/modules/checkout/checkout.service.ts:21-107 | The same of the specification: which answer it is, and what becomes of orders, shelves, cart and verdicts |
| `Shop.PaymentMeaning` | src/modules/checkout/checkout.service.ts:54-106 | After the order is in: cash and bank transfer answer with it, unchanged; ZARINPAL with a non-empty authority no other order has stores that and redirects; anything else is refused and the order stays as it is |
| `Shop.CheckoutAgainIsEmpty` | src/modules/checkout/checkout.service.ts:36-98 | A cart checkout straight after a successful one finds the cart empty and changes nothing |
| `Shop.ShopServer.AddToCart` | src/modules/cart/cart.service.ts:77-142 | In place, with both stock checks; equals the specification `Cart.AddMeaning` is about |
| `Shop.ShopServer.UpdateCartItem` | src/modules/cart/cart.service.ts:144-177 | In place; equals the specification `Cart.UpdateMeaning` is about |
| `Shop.ShopServer.RemoveFromCart` | src/modules/cart/cart.service.ts:179-202 | In place; equals the specification `Cart.RemoveMeaning` is about |
| `Shop.ShopServer.ClearCart` | src/modules/cart/cart.service.ts:204-216 | Leaves exactly the rows of other users, in order |
| `Cart.AddMeaning` | src/modules/cart/cart.service.ts:77-139 | Adding is accepted if and only if the active product's stock covers what is in the cart already plus what is added; then exactly that much more is in this cart, and nothing else changes |
| `Cart.UpdateMeaning` | src/modules/cart/cart.service.ts:144-174 | Updating is accepted if and only if the id names a row of one's own and the new quantity is positive and in stock; then that product's quantity is set and nothing else changes; refused, an id that names no row included, nothing changes |
| `Cart.RemoveMeaning` | src/modules/cart/cart.service.ts:179-199 | Removing is accepted if and only if the id names a row of one's own, and leaves none of that product in the cart, all else unchanged; refused, an id that names no row included, nothing changes |
| `Cart.ClearedCart` | src/modules/cart/cart.service.ts:204-213 | Clearing removes all rows of the user and no row of anybody else |
| `Cart.AddKeepsTable` | prisma/schema.prisma:224-229 | Adding keeps one row per user and product and quantities at least 1 |
| `Cart.RemoveKeepsTable` | src/modules/cart/cart.service.ts:197-199 | Removing keeps the same table invariant |
| `Cart.FiltersAreSubsequences` | src/modules/cart/cart.service.ts:204-213 | The rows of a user and the rows of all others are complementary subsequences of the table, in order |
| `Cart.CartItemsDistinct` | src/modules/checkout/checkout.service.ts:40-43 | The items checkout takes from a cart name each product once, with positive quantities |
| `Cart.CartShowsWhatIsCharged` | src/modules/cart/cart.service.ts:57-66 | Subtotal and discount shown by `getCart` are those of the order made from the same rows |
| `Cart.CartOrderCharges` | src/modules/cart/cart.service.ts:57-66 | An order made from cart rows stores the subtotal, the rounded discount and, as its total, subtotal minus discount as `getCart` showed them |
| `CartRaces.OrderedTwiceIff` | src/modules/checkout/checkout.service.ts:34-59 | While checkouts and edits of one user interleave: the checkouts under way can lead to one cart row in two orders if and only if two checkouts that have not failed read it |
| `CartRaces.ReadIsSafeIff` | src/modules/checkout/checkout.service.ts:34-43 | A further checkout can lead there exactly if a row of the cart is in an order already or in the hands of a checkout that may still create one |
| `CartRaces.FreshReadsOrderOnce` | src/modules/checkout/checkout.service.ts:34-98 | If no checkout ever reads such a cart, no row is ordered twice |
| `CartRaces.QuietCartIsFresh` | src/modules/checkout/checkout.service.ts:54-98 | With no checkout under way and no row of an abandoned order left in it, the cart is fit for a checkout |
| `CartRaces.RetryOrdersTwice` | src/modules/checkout/checkout.service.ts:83-98 | Without any overlap: the payment request fails after the order is in, the user checks out again, and the row is in two orders |
| `CartRaces.LineLostIff` | src/modules/checkout/checkout.service.ts:96-98 | The checkouts under way can clear a row, with its quantity of now, without any order having it if and only if no order has it yet and one of them did not read it so |
| `CartRaces.AddedRowLost` | src/modules/cart/cart.service.ts:204-213 | A row added while a checkout is under way is lost when that checkout goes through |
| `CartRaces.AddFollowsCart` | src/modules/cart/cart.service.ts:77-142 | An accepted addition of the cart service is one new row or one new quantity of this machine |
| `CartRaces.UpdateFollowsCart` | src/modules/cart/cart.service.ts:144-177 | An accepted update is one new quantity |
| `CartRaces.RemoveFollowsCart` | src/modules/cart/cart.service.ts:179-202 | An accepted removal is one row taken out |
| `CartRaces.CheckoutFollowsCart` | src/modules/cart/cart.service.ts:204-216 | What a checkout clears at its end, and finds empty at its start, is the user's cart of the service |
| `SerialRuns.Perform` | src/modules/checkout/checkout.service.ts:21-187 | An operation of a serial run is the method of the service in place, for each of the eight |
| `SerialRuns.StockNeverNegative` | src/modules/orders/orders.service.ts:45-123 | Over every serial run of cart edits, checkouts, payments, cancellations and status changes no stock goes negative, provided explicit item lists name products once with positive quantities |
| `SerialRuns.CarefulCreation` | src/modules/orders/orders.service.ts:45-123 | One creation from distinct items keeps all stock non-negative and all lines positive |
| `SerialRuns.CheckoutPlacesOne` | src/modules/checkout/checkout.service.ts:21-107 | A checkout either changes nothing at all or is exactly one placement, after which at most the new order gets an authority and at most its own cart is cleared; every other column of every order stays |
| `SerialRuns.NextNumberIsFree` | src/modules/orders/orders.service.ts:336-351 | If no order is dated after today, the number computed today is nobody's |
| `SerialRuns.OrderNumbersNeverCollide` | src/modules/orders/orders.service.ts:330-352 | Over every serial run whose clock does not go back, all order numbers differ and the next one is free, also when an order was numbered before midnight and inserted after |
| `OrderNumbers.RefusedForNumberIff` | src/modules/orders/orders.service.ts:330-352 | In every interleaving of creations (date, count and insert as separate steps) with payments, cancellations and a clock that does not go back: an insertion with a whole total is refused for its number if and only if another creation that read the same date and the same count was inserted since this one read the date |
| `OrderNumbers.NumberFreeIff` | src/modules/orders/orders.service.ts:336-351 | The same condition for the number being free, in every state that satisfies the invariant |
| `OrderNumbers.StepKeepsInv` | src/modules/orders/orders.service.ts:77-94 | Every step keeps all numbers distinct and every number no greater than its day justifies, stale counts and midnight included |
| `OrderNumbers.NumbersDifferAlways` | src/modules/orders/orders.service.ts:330-352 | In every interleaving the numbers of all orders differ |
| `OrderNumbers.AloneKeepsNumber` | src/modules/orders/orders.service.ts:330-352 | A creation during which no order was inserted is never refused for its number, midnight or not |
| `OrderNumbers.CreationAlone` | src/modules/orders/orders.service.ts:77-126 | Date, count and insertion one after the other are `create` |
| `OrderNumbers.MidnightCollision` | src/modules/orders/orders.service.ts:331-347 | A collision although one creation counted only after the other was inserted: both read the date before midnight |
| `SerialRuns.OverlappingCreationsCollide` | src/modules/orders/orders.service.ts:77-94 | Two creations that both counted before either inserted: the second is refused by the unique key |
| `SerialRuns.StaleChecksOversellIff` | src/modules/orders/orders.service.ts:45-123 | Two creations that both checked the stock before either took it leave no stock negative if and only if for every product it covers both together |
| `SerialRuns.LastPieceSoldTwice` | src/modules/orders/orders.service.ts:55-123 | One piece in the carts of two users: both checkouts' creations, priced before either takes it, go through and the stock ends at -1 |
| `Sessions.StepKeepsInv` | src/modules/auth/auth.service.ts:27-65 | Every step of every login, refresh, logout, forgot and reset call keeps: token columns unique, a row redeemed by one call only, one live row or one storing call per rotation chain; rows that are gone stay gone |
| `Sessions.RunKeepsInv` | src/modules/auth/auth.service.ts:27-252 | The same along every interleaving of any number of calls |
| `Sessions.RedeemKeepsInv` | src/modules/auth/auth.service.ts:56-58 | The delete that succeeds is the only one for its row; the loser ends without storing |
| `Sessions.CommitResetKeepsInv` | src/modules/auth/auth.service.ts:227-240 | The reset transaction, committed or rolled back, keeps the invariant |
| `SessionSafety.RedeemedOncePerIssue` | src/modules/auth/auth.service.ts:33-61 | Two calls that both got a new pair for one presented token redeemed two different rows, both issued with that token |
| `SessionSafety.OnePairPerToken` | src/modules/auth/auth.service.ts:33-61 | In every interleaving, of all calls presenting a token that was issued once at most one returns a new pair |
| `TokenReuse.PresentedTokenLivesIff` | src/modules/auth/auth.service.ts:49-59 | After an uninterrupted refresh the presented string is stored again if and only if signing yielded that very string |
| `TokenReuse.SpentForGoodIff` | src/modules/auth/auth.service.ts:33-61 | From any reachable state without a row of a token string, no continuation that does not sign the string again gives another call a pair for it, if and only if no call under way was signed that string and can still store it |
| `TokenReuse.RunKeepsSpent` | src/modules/auth/auth.service.ts:33-61 | Such a string stays unstored and unredeemed along every continuation that does not sign it |
| `TokenReuse.CarrierPutsBack` | src/modules/auth/auth.service.ts:56-59 | A call that carries the string can put it back and let a new call redeem it |
| `TokenReuse.SigningRevives` | src/modules/auth/auth.service.ts:359-368 | Signing the string again at a login is enough to let a new call redeem it |
| `SessionSafety.GoneStaysGone` | src/modules/auth/auth.service.ts:56-58 | A refresh row that is gone never comes back in any continuation |
| `SessionSafety.StepRowGoneHasCause` | src/modules/auth/auth.service.ts:27-240 | Why a refresh row disappears in a step: it was redeemed or dropped as expired by the call that found it, logged out with its own user and token, or a password reset of its own user was committed |
| `SessionSafety.OneLiveRowPerChain` | src/modules/auth/auth.service.ts:56-59 | A login's rotation chain has at most one live row at any moment, and none while a call stands between delete and store |
| `SessionSafety.RefreshAlone` | src/modules/auth/auth.service.ts:49-61 | An uninterrupted refresh replaces exactly the presented row by one of the same user and chain |
| `SessionSafety.ReissuedTokenWorksTwice` | src/modules/auth/auth.service.ts:359-368 | The limit of single use: if signing yields the presented string again, two calls in a row both succeed with it |
| `SessionSafety.ResetRowUsedOnce` | src/modules/auth/auth.service.ts:227-240 | Among all calls presenting one reset token row at most one changes the password; the row is gone then and belonged to that user |
| `SessionSafety.OnlyCommitSetsPassword` | src/modules/auth/auth.service.ts:228-231 | No step but a committing reset transaction changes a password |
| `SessionSafety.PasswordChangeEndsSessions` | src/modules/auth/auth.service.ts:227-240 | The step that changes a password sets the new hash, uses up a reset row of that very user, leaves the user no refresh row, and leaves every other user's refresh rows and account exactly as they were |
| `SessionSafety.ResetIsFinalIff` | src/modules/auth/auth.service.ts:56-59 | After a committed reset no session of the user appears in any future without a login if and only if no refresh of that user stood between its delete and its store |
| `ResetTokens.ForgotAlone` | src/modules/auth/auth.service.ts:169-184 | Uninterrupted, `forgotPassword` leaves its user exactly one reset row, the one just made, whether or not the mail goes out, and touches nothing of others |
| `ResetTokens.StepResetGoneHasCause` | src/modules/auth/auth.service.ts:169-240 | Why a reset row disappears in a step: a new request of its own user, its expiry, or its use |
| `ResetTokens.SerialForgotsLeaveOne` | src/modules/auth/auth.service.ts:169-184 | In every run in which no two calls for the user overlap the user has at most one reset token at any moment |
| `ResetTokens.OneResetTokenIff` | src/modules/auth/auth.service.ts:169-184 | From any reachable state the calls under way can never leave the user two reset tokens if and only if there is at most one token, at most one such call, and not a token together with a call about to create |
| `ResetTokens.StepKeepsCalm` | src/modules/auth/auth.service.ts:169-184 | That condition is kept by every step but a second call for the user |
| `ResetTokens.TwoCallsMakeTwo` | src/modules/auth/auth.service.ts:169-184 | Any two such calls under way can leave two live tokens |
| `ResetTokens.OverlappingForgotsLeaveTwo` | src/modules/auth/auth.service.ts:169-184 | A second call for the user that begins while one is under way can leave two live reset tokens |
| `AuthServer.AuthService.StoreLogin` | src/modules/auth/auth.service.ts:401-412 | Stores a fresh row that begins a chain of its own, unless the token string is taken |
| `AuthServer.AuthService.RefreshTokens` | src/modules/auth/auth.service.ts:27-65 | In place, row by row: unknown or badly signed, nothing changes; expired, that row goes and no other; live, that row is exchanged for one of the same user and chain with the new token, or just goes when the new token is taken |
| `AuthServer.AuthService.Logout` | src/modules/auth/auth.service.ts:67-76 | Deletes exactly the rows with that user and token |
| `AuthServer.AuthService.ForgotPassword` | src/modules/auth/auth.service.ts:143-195 | In place, row by row: for unknown, password-less and customer accounts a neutral answer and no change; else the user's only token is the new one, or none if that is taken, other users' tokens stay; when the mail throws the answer is an error and the token lives all the same |
| `AuthServer.AuthService.ResetPassword` | src/modules/auth/auth.service.ts:197-252 | In place, row by row: unknown, nothing changes; expired, that token goes; not admin or inactive, nothing changes; else the new hash is set, that token goes, of the refresh rows exactly those of other users stay, and no other account changes |
| `AuthServer.RefreshMeaning` | src/modules/auth/auth.service.ts:27-65 | The same of the specification of `refreshTokens` |
| `AuthServer.ForgotMeaning` | src/modules/auth/auth.service.ts:143-195 | The same of the specification of `forgotPassword` |
| `AuthServer.ResetMeaning` | src/modules/auth/auth.service.ts:197-252 | The same of the specification of `resetPassword` |
| `AuthServer.LoginFollowsProtocol` | src/modules/auth/auth.service.ts:401-412 | A login of the interleaving machine stores the row the service stores, or is refused and stores none |
| `AuthServer.LogoutFollowsProtocol` | src/modules/auth/auth.service.ts:67-76 | A logout of the interleaving machine ends exactly the sessions the service ends |
| `AuthServer.RefreshFollowsProtocol` | src/modules/auth/auth.service.ts:27-65 | What `refreshTokens` does in place is what one refresh call of the interleaving machine does when scheduled alone, tables and success |
| `AuthServer.ForgotFollowsProtocol` | src/modules/auth/auth.service.ts:143-195 | The same for `forgotPassword` |
| `AuthServer.UnmailedTokenWorksIff` | src/modules/auth/auth.service.ts:169-240 | The token a failed mail leaves behind changes the password exactly as long as it has not expired and the account is active, as if the mail had gone out |
| `AuthServer.ResetFollowsProtocol` | src/modules/auth/auth.service.ts:197-252 | The same for `resetPassword` |
| `Framing.SplitIsSplit` | tools/mcp-terminal-server.js:113-128 | Segments and rest put back together are the stream, and none contains a newline |
| `Framing.SplitIsUnique` | tools/mcp-terminal-server.js:113-128 | There is only one such decomposition |
| `Framing.SplitResumes` | tools/mcp-terminal-server.js:111-128 | Splitting may be interrupted anywhere and resumed with the leftover |
| `Framing.ChunkingDoesNotMatter` | tools/mcp-terminal-server.js:111-129 | For any chunking, the lines dispatched are those of the whole stream, trimmed, blanks dropped, in order; the buffer is the stream's newline-free end |
| `Framing.LinesWithLast` | tools/mcp-terminal-server.js:113-128 | A final newline would dispatch exactly one line more, what is left in the buffer, unless that is blank |
| `Framing.LinesMeaning` | tools/mcp-terminal-server.js:113-128 | Text without a newline dispatches nothing and stays in the buffer; text up to the first newline is one line, trimmed, unless it is blank, and the rest goes on from there |
| `Framing.TrimMeaning` | tools/mcp-terminal-server.js:116 | `trim` removes white space at both ends, all of it, and nothing else |
| `TerminalServer.Server.TakeLines` | tools/mcp-terminal-server.js:113-128 | The loop of the `data` listener: buffer, dispatched lines and counter end as the offline split says; it terminates because the buffer shrinks |
| `TerminalServer.Server.OnData` | tools/mcp-terminal-server.js:111-129 | The `data` listener as one event of the specification |
| `TerminalServer.Server.OnEnd` | tools/mcp-terminal-server.js:131-134 | The `end` listener: remember the end, exit if drained |
| `TerminalServer.Server.OnSettled` | tools/mcp-terminal-server.js:121-124 | The `finally` of a line: counter down, exit if drained |
| `TerminalServer.Server.OnAnswer` | tools/mcp-terminal-server.js:144-172 | What a finished line wrote is appended to stdout, after everything written before |
| `TerminalServer.Server.ExitWhenDrained` | tools/mcp-terminal-server.js:447-451 | Exits exactly if stdin has ended and nothing is pending |
| `TerminalServer.StepKeepsInv` | tools/mcp-terminal-server.js:111-134 | Every event keeps: jobs are the lines of the input, counter equals unsettled jobs, exited iff ended and drained, stdout holds job by job exactly what is owed |
| `TerminalServer.ExitsExactlyWhenDrained` | tools/mcp-terminal-server.js:119-134 | In every run the counter equals dispatched minus finished, and the process has exited if and only if stdin has ended and every dispatched line has finished |
| `TerminalServer.ExitLeavesNothingUnanswered` | tools/mcp-terminal-server.js:144-172 | At exit each nonblank complete line of the whole input has exactly its own answer on stdout, one message or none for a notification, and nothing else was written |
| `TerminalServer.NoLineLostIff` | tools/mcp-terminal-server.js:113-134 | At exit every nonblank line of the input, the unfinished last one included, has been dispatched (and so answered) if and only if what follows the last newline is blank; otherwise exactly that line is missing |
| `TerminalServer.LastLineLost` | tools/mcp-terminal-server.js:131-134 | A run that loses one |
| `JsonRpc.OneReplyPerLine` | tools/mcp-terminal-server.js:144-183 | Sections 4.1, 5 and 5.1 of JSON-RPC 2.0: one answer per line, none for a notification; a request's own id is echoed, a legal id of an invalid request too, and null stands where none could be read |
| `JsonRpc.LineMeaning` | tools/mcp-terminal-server.js:144-262 | The answer itself: -32700 for what is not JSON, -32600 for what is no request; of a request with an id, `ping` gives an empty object, `initialize`, `tools/list` and `terminal_ping` their own descriptions, `terminal_run` the value the command returned, its own code, or -32603, a missing or unknown tool name -32602, an unknown method -32601 |
| `OutputCollector.Collector.OnStdout` | tools/mcp-terminal-server.js:304-309 | After each stdout chunk both texts, the byte count and `truncated` are those of the offline view of all arrivals, every retained piece decoded by itself |
| `OutputCollector.Collector.OnStderr` | tools/mcp-terminal-server.js:311-316 | The same for a stderr chunk |
| `OutputCollector.RetainedStep` | tools/mcp-terminal-server.js:355-369 | One more chunk extends the first-`cap`-bytes prefix by as much as fits, in its own stream only |
| `OutputCollector.AppendIsStep` | tools/mcp-terminal-server.js:355-369 | `appendOutput` on the offline view gives the offline view with one more chunk, in all four variables |
| `OutputCollector.TextFaithfulIff` | tools/mcp-terminal-server.js:360-365 | A stream's text is the decoding of its retained bytes if and only if no retained piece goes on with a character the bytes before it leave unfinished; otherwise it is longer, and stays so |
| `OutputCollector.WholeTextArrivesIff` | tools/mcp-terminal-server.js:360-365 | A text sent as UTF-8 that fits under the cap arrives as it was if and only if no character was cut between two pieces |
| `OutputCollector.CharacterCutInTwo` | tools/mcp-terminal-server.js:360-365 | The two bytes of one character in two chunks arrive as two replacement characters |
| `Utf8.CutIsHarmlessIff` | tools/mcp-terminal-server.js:365 | Decoding two parts apart gives the text of the whole if and only if the second does not continue a sequence the first leaves unfinished; otherwise it gives more characters |
| `Utf8.DecodeEncode` | tools/mcp-terminal-server.js:365 | The decoder is the inverse of UTF-8 encoding (section 3 of RFC 3629) on every sequence of Unicode scalar values |
| `Utf8.EncodeDecode` | tools/mcp-terminal-server.js:365 | The converse: bytes that decode without a replacement character are the encoding of what they decode to, and that is scalar values only |
| `Utf8.NothingVanishes` | tools/mcp-terminal-server.js:365 | Bytes never decode to nothing, wherever the decoder stands |
| `OutputCollector.OverflowedIff` | tools/mcp-terminal-server.js:355-369 | `truncated` is set if and only if more bytes arrived than the cap, or exactly as many and the last chunk was empty |
| `OutputCollector.TruncatedTellsTruth` | tools/mcp-terminal-server.js:355-369 | Hence, with the non-empty chunks a pipe delivers, exactly when more bytes arrived than the cap |
| `OutputCollector.EmptyChunkAtCap` | tools/mcp-terminal-server.js:356-358 | An empty chunk at a full buffer would report a truncation that did not happen |
| `OutputCollector.ClampInteger` | tools/mcp-terminal-server.js:395-405 | Default when absent, refused when not whole, else the integer in range that is closest |
| `OutputCollector.OutputCap` | tools/mcp-terminal-server.js:268-273 | 256000 when absent, refused when not whole, else the number from 1 to 1000000 closest to the one asked for |
| `OutputCollector.StartCollecting` | tools/mcp-terminal-server.js:264-279 | A command starts with empty texts under that cap, or is refused |
| `Collections.CandidatesDiffer` | src/modules/collections/collections.service.ts:207 | The candidates base, base-1, base-2, ... are pairwise distinct |
| `Collections.NumberedIsSlugIff` | src/modules/collections/collections.service.ts:207 | A numbered candidate is in the normal form of slugs exactly if the plain one is empty or does not end with a dash |
| `Collections.TakenCandidatesFit` | src/modules/collections/collections.service.ts:196-209 | Pigeonhole: if the first k candidates are all taken there are at least k other collections |
| `Collections.UniqueSlugMeaning` | src/modules/collections/collections.service.ts:185-212 | The answer is the m-th candidate if and only if that one is free and all before it are taken |
| `Collections.UniqueSlugIsFirstFree` | src/modules/collections/collections.service.ts:185-212 | No other collection has the answer, and all candidates before it are taken |
| `Collections.CollectionsService.GenerateUniqueSlug` | src/modules/collections/collections.service.ts:185-212 | The loop terminates within n+1 probes, n the number of other collections, with that answer |
| `Collections.EnsureProductsExistMeaning` | src/modules/collections/collections.service.ts:226-247 | Comparing counts accepts exactly when every id exists, and otherwise names exactly the missing ids |
| `Collections.SortedAnswerIsUnique` | src/modules/collections/collections.service.ts:155-158 | With distinct sort keys there is only one answer sorted by `sortOrder` |
| `Collections.StoredOrderIsReadBack` | src/modules/collections/collections.service.ts:22-27 | Ids stored with their index are read back in exactly the given order |
| `Collections.CreateThenRead` | src/modules/collections/collections.service.ts:11-39 | Creation succeeds exactly for distinct existing products, else changes nothing; a reader of the new slug gets an answer, and any answer has them in the order given |
| `Collections.CreateEffect` | src/modules/collections/collections.service.ts:11-39 | One new active collection with the title, the first free slug of that title and the products numbered in order; or the refusal, missing products before repeated ones, and no change |
| `Collections.UpdateThenRead` | src/modules/collections/collections.service.ts:41-110 | The same for an update; without ids the stored order stays, and no other collection changes |
| `Collections.UpdateEffect` | src/modules/collections/collections.service.ts:41-110 | Title, state and products become what is given and stay where nothing is; the slug is searched anew, past the collection itself, exactly for a title that is not empty and differs; which refusal it is otherwise |
| `Collections.DeleteMeaning` | src/modules/collections/collections.service.ts:112-129 | The row becomes inactive and nothing else; a reader of its slug gets no answer |
| `Collections.UpdateThenReadBack` | src/modules/collections/collections.service.ts:148-182 | A reader who looks an updated active collection up by its slug gets an answer, and any answer has the new products in the order given |
| `Collections.SlugsStayDistinct` | src/modules/collections/collections.service.ts:11-129 | Every serial run of create, update and soft delete keeps slugs pairwise distinct, inactive collections included, and each slug one made from a title |
| `Collections.Perform` | src/modules/collections/collections.service.ts:11-129 | An operation of a run is the method of the service in place |
| `Collections.CollectionsService.Create` | src/modules/collections/collections.service.ts:11-39 | In place: slug, product check, one new row; equals the specification above |
| `Collections.CollectionsService.Update` | src/modules/collections/collections.service.ts:41-110 | In place: optional re-slug past its own row, product check, links replaced with the row in one transaction |
| `Collections.CollectionsService.Delete` | src/modules/collections/collections.service.ts:112-129 | In place: the row becomes inactive, nothing else |
| `Slugs.SlugifyGivesSlug` | src/modules/collections/collections.service.ts:214-224 | For any title and any Unicode tables the result has only a-z, 0-9 and single dashes |
| `Slugs.SlugsAreFixedPoints` | src/modules/collections/collections.service.ts:214-224 | If normalising and lower-casing leave lower-case ASCII alone, the fixed points of `slugify` are exactly the normal forms, and `slugify` is idempotent |
| `Slugs.TwoWords` | src/modules/collections/collections.service.ts:214-224 | A title that folds and lower-cases to two words with a space between has those words with a dash between as its slug |
| `Slugs.StripMarksMeaning` | src/modules/collections/collections.service.ts:217-218 | The marks pass looks at every character by itself and removes exactly U+0300 to U+036F |
| `Slugs.SlugEnds` | src/modules/collections/collections.service.ts:214-224 | A slug is empty exactly if nothing is left of the title, and starts or ends with a dash exactly if what is left starts or ends with a dash or white space |
| `Slugs.DashIsASlug` | src/modules/collections/collections.service.ts:214-224 | The slug of "-" is "-" |
| `Slugs.EmptySlug` | src/modules/collections/collections.service.ts:214-224 | The slug of "!" is empty |
| `Paging.PagesPartition` | src/modules/orders/orders.service.ts:132-188 | Pages 1..totalPages put together are the list; each is full but the last, which is not empty; later pages are empty |
| `Paging.TotalPagesIsCeiling` | src/modules/products/products.service.ts:136-141 | `totalPages` pages suffice and one fewer does not |

## Left out

- HTTP, the Zarinpal gateway, mail, uploads, bcrypt and JWT signing: their results are inputs of the steps. NEXTPAY only throws, and is modelled as a refusal.
- Login and OTP checks: a `Login` action stands for any successful sign-in that stores a refresh token.
- Address and order ownership: `addressOk` is an input of `create`, and `cancel` is modelled without the owner test of `findOne`, which only refuses more.
- The user lookup of `checkout` between order and gateway: a missing user is an absent gateway answer, with the same effect on the tables.
- `updatePaymentStatus` and `updateStock`: no caller in the repository reaches them, and they write without guards; the payment theorems would not survive them.
- Product administration: products are never added, removed or restocked by hand, so the ledger has no adjustment term. Deleting users and the cascades that follow are left out as well.
- Column widths: prices and quantities are unbounded integers. A total that is not a whole number is refused, as its column demands.
- Floating point: discounts and percentages are reals, so the rounding errors of the sums are not modelled.
- Time zones and daylight saving: a day is a year, month and day; the count of a day's orders is by that day.
- `_parseExpirationToDate`: expiry moments are inputs.
- Shipping, tracking and note columns of orders, descriptions and covers of collections: no branch depends on them.
- Two requests creating the same cart or the same cart row at once: each edit is one step; the unique key would refuse one of two.
- Stale reads inside one `create` are not tied to the reads that caused them: `Payments` lets a draft with arbitrary lines and number reach the transaction, which covers every stale read; `SerialRuns` relates two creations priced on the same shelf. The cart has a machine of its own, `CartRaces`, for one user and without stock and prices.
- The text of JSON: `JSON.parse` gives a value or nothing, and the descriptions `initialize`, `tools/list` and `terminal_ping` return are three fixed values.
- The order in which an immediate reply is written relative to the dispatch of later lines of the same chunk: answering is an event of its own.
- Spawning, signals, timers and path resolution in the terminal server: `runCommand` ends with any outcome. Node's decoder is taken to replace every maximal ill-formed part, as the Encoding Standard has it, and text is code points, not UTF-16 units.
- AuthServer.AuthService.ForgotPassword: takes the id of the account the normalised email names; lower-casing and trimming the email, and looking it up, are not modelled.
- Fields of error messages beyond their codes, and log lines.
- Ratings, filters and the order of `findAll`: paging is stated for any fixed list. Two pages read at different moments may come from different lists.
- Wishlist, reviews, addresses, categories, health: their rules are single branches.
