# Re-wear points-and-listing ledger in Dafny

This project models the backend of Re-wear, a clothing-exchange site. Its
core is a ledger kept across three Mongo collections:

- users, with a points balance and an `isAdmin` flag;
- items, with `status` (available, swapped or redeemed), `approved`,
  `featured`, `pointCost`, `uploadedBy` and `tags`;
- an append-only transaction log.

Each request handler of the item and admin routes is one atomic step over a
value `Database.Db(users, items, order, log)`. It returns the store
afterwards and the answer (`Database.Step`). `order` is the items
collection's natural order, which `find` and `limit(10)` return.

Each handler has a pure specification function:

- `Exchange.Redeem` and `Exchange.Swap`;
- `Listing.AddItem`, `Listing.Approve`, `Listing.Reject`, `Listing.Feature`
  and `Listing.Delete`;
- the read-only filters of `Catalog`, `History` and `AdminRoutes`.

The class `Backend.Store` holds the same collections as fields, updated in
place. Its methods load documents, change the loaded copies step by step
and save them in the order the routes do. Each method is proved to leave
exactly the state and answer of its specification function, and to keep
`Database.Valid`: ids in the natural order, `pointCost >= 0` and unique
emails.

The schemas are modules of their own: `ItemSchema`, `UserSchema` and
`TransactionSchema`. Each gives the stored document as a datatype, a draft
with optional paths, and a create function. The create function applies the
defaults and refuses a missing required path or a value outside an enum.
`AdminGate` is the admin middleware.

The model keeps the behaviour of the code as written:

- Redeem and swap never look at `approved`.
- Any signed-in user may swap any available item. The owner is credited and
  nothing is logged.
- A stored cost of 0 is charged as 20.
- Redeem dereferences the item before the null check, so a missing item is an
  uncaught exception (`Crash`) with nothing changed.
- The buyer and the seller are loaded as two documents and saved in turn. A
  user who redeems their own item therefore gains the cost.
- The routes import the transaction schema whose `type` enum holds only
  'swap_earned' and 'redeem_spent'. The seller's 'redeem_earned' entry is
  therefore refused. This happens after both balances, the item and the
  buyer's entry are written, and the refusal escapes the handler, so a redeem
  that passes its guards never answers success.
- A redeem's writes are separate saves with no rollback: when the seller's
  entry is refused, the balances, the item and the buyer's entry stay
  written.

Outside inputs are parameters:

- the ObjectId the driver generates for a new item (`newId`);
- the clock reading that `createdAt` defaults to (`now`);
- whether an image was uploaded (`fileAttached`);
- what `parseInt` made of the cost field (`Option<int>`, `None` for NaN);
- the compiled search pattern (`Option<string -> bool>`, `None` when
  `new RegExp` throws).

## Model

| member | source | states |
|---|---|---|
| `ItemSchema.ParseStatus` | backend/models/items.js:16-20 | only 'available', 'swapped' and 'redeemed' are accepted, and each parses back to its own name |
| `ItemSchema.StatusNameRoundTrip` | backend/models/items.js:16-20 | every status parses back from its stored name |
| `ItemSchema.CreateItemDoc` | backend/models/items.js:3-34 | creation succeeds exactly when the status is in the enum and `pointCost >= 0`; status defaults to available, approved and featured to false, and pointCost to 20; the other paths are copied |
| `ItemSchema.NewItemDefaults` | backend/models/items.js:11-24 | an item created without status, approved or featured is available, unapproved and unfeatured |
| `UserSchema.ParseRole` | backend/models/User.js:17-21 | `role` accepts only 'user' and 'admin' |
| `UserSchema.ParseSwapOutcome` | backend/models/User.js:36-39 | a `swaps[].status` accepts only 'swapped' and 'redeemed' |
| `UserSchema.CastSwaps` | backend/models/User.js:30-41 | the swaps array is accepted exactly when every entry's status is absent or in the enum; each entry keeps its item and status |
| `UserSchema.CreateUserDoc` | backend/models/User.js:3-42 | creation succeeds exactly when name, email and password are present and non-empty and role and swaps are in their enums; points default to 100, isAdmin to false and role to 'user' |
| `UserSchema.InsertUser` | backend/models/User.js:8-12 | an insert succeeds exactly when the document is valid, the id is new and no stored user has the email; it keeps emails unique |
| `UserSchema.NewUserDefaults` | backend/models/User.js:17-29 | a user created with only the required paths starts with 100 points, is not an admin and has role 'user' |
| `TransactionSchema.ParseTxType` | backend/models/Transaction.js:13-17 | `type` accepts only 'swap_earned' and 'redeem_spent' |
| `TransactionSchema.CreateTransactionDoc` | backend/models/Transaction.js:3-26 | creation succeeds exactly when `type` is present and in the enum and `points` is present; user and item are optional and copied; createdAt defaults to the clock |
| `TransactionSchema.RedeemEarnedRefused` | backend/models/Transaction.js:13-17 | an entry of type 'redeem_earned' is refused with an enum error, whatever its other paths |
| `TransactionSchema.Append` | backend/models/Transaction.js:3-26 | a refused entry leaves the log as it was; an accepted one is added at the end and nothing before it changes |
| `TransactionSchema.AppendAll` | backend/routes/items.js:137-150 | the creates run in order and stop at the first refusal; the log only grows at the end, every entry written is a validated draft in draft order, and on a refusal the draft right after the last one written is the refused one, with its error returned |
| `AdminGate.CheckAdmin` | backend/middleware/admin.js:3-10 | the request goes on exactly when the caller's user document exists and has `isAdmin`; otherwise the answer is 403 |
| `AdminGate.GateReadsOnlyIsAdmin` | backend/middleware/admin.js:4-9 | the decision depends only on whether the caller exists and on its `isAdmin` flag |
| `AdminGate.AdminRoleAloneRefused` | backend/middleware/admin.js:5-7 | a user with role 'admin' but `isAdmin` false is refused |
| `Database.RemoveId` | backend/routes/admin.js:25 | the natural order after a delete holds every id it held except the deleted one, and stays free of repeats |
| `Database.RemoveIdKeepsOrder` | backend/routes/admin.js:25 | the ids that survive a delete keep their relative order |
| `Exchange.CostOf` | backend/routes/items.js:118 | the charge is the stored cost, except that 0 is charged as 20; the charge of a valid item is positive |
| `Exchange.OwnerOf` | backend/routes/items.js:112 | the seller lookup finds a user exactly when the item names one that exists |
| `Exchange.Redeem` | backend/routes/items.js:109-153 | a missing item, buyer or seller is a crash and a status other than available gives 400, all with nothing changed; so does a balance below the cost; approved is never read; past the guards the item is redeemed and the buyer's 'redeem_spent' entry of -cost is logged; the answer is 400 or a crash, never success, and a crash whenever the item is missing or the guards pass; for two different users the buyer loses and the seller gains exactly the cost |
| `Exchange.RedeemConservesPoints` | backend/routes/items.js:124-135 | a redeem between two different users keeps the sum of their balances and leaves the buyer at zero or above |
| `Exchange.SelfRedeemGains` | backend/routes/items.js:111-134 | when the buyer is the seller, the seller's save wins and the user ends with their balance plus the cost |
| `Exchange.RedeemDraftsAppend` | backend/routes/items.js:138-150 | of the two entries a redeem asks for, the buyer's is written and the seller's 'redeem_earned' entry is refused with an enum error |
| `Exchange.Swap` | backend/routes/items.js:157-175 | a missing or unavailable item gives 400 and a missing owner a crash, with nothing changed; the answer is success exactly when the swap proceeds; otherwise the owner gains `pointCost or 20` and the item becomes swapped; the log and the caller's balance are untouched |
| `Exchange.SwapIgnoresCaller` | backend/routes/items.js:157-169 | whoever asks, a swap has the same effect and answer |
| `Exchange.ExchangedItemRefused` | backend/routes/items.js:114-161 | an item that is no longer available can be neither redeemed nor swapped, and the store is left unchanged |
| `Exchange.ExchangeIsTerminal` | backend/routes/items.js:131-169 | after a redeem or a swap has written, every later redeem or swap of the item is refused |
| `Exchange.ExchangedStatusIsFinal` | backend/routes/items.js:114-169 | neither handler changes an item that is swapped or redeemed |
| `Exchange.RedeemWrites` | backend/routes/items.js:124-150 | a redeem past its guards is the buyer's and then the seller's balance update on the loaded copies, the item marked redeemed and only the buyer's entry appended, ending in the escaped refusal |
| `Exchange.RedeemWritesKeepValid` | backend/routes/items.js:124-135 | those writes keep the natural order, the item schema and unique emails |
| `Exchange.RedeemKeepsValid` | backend/routes/items.js:124-135 | a redeem keeps the natural order, the cost bound and the unique emails |
| `Exchange.SwapKeepsValid` | backend/routes/items.js:163-169 | a swap keeps the natural order, the cost bound and the unique emails |
| `Exchange.ExchangeKeepsBalancesNonNegative` | backend/routes/items.js:118-128 | in a valid store where every balance is zero or above, no redeem or swap drives one below zero |
| `Text.Split` | backend/routes/items.js:35 | `split(',')` gives at least one piece and no piece holds a comma |
| `Text.JoinSplit` | backend/routes/items.js:35 | joining the pieces with commas gives the input back, so nothing is trimmed or dropped |
| `Text.SplitJoin` | backend/routes/items.js:35 | comma-free pieces split back into exactly themselves |
| `Listing.ListingCost` | backend/routes/items.js:36 | the cost of a new listing is the parsed number, or 20 when that is NaN or 0 |
| `Listing.ListingTags` | backend/routes/items.js:35 | no tags field gives no tags; otherwise the tags are the comma-separated pieces of the field, untrimmed |
| `Listing.ListingDraft` | backend/routes/items.js:28-42 | the created document names the caller as uploader, carries the normalised tags and cost, and leaves status, approved and featured to the defaults |
| `Listing.AddItem` | backend/routes/items.js:15-48 | the item is created exactly when an image came with the request, the cost is not negative and the id is new; it is then available, unapproved, unfeatured and owned by the caller, with a positive cost, and is appended to the natural order; every failure answers 500 and changes nothing |
| `Listing.AdminCheck` | backend/routes/admin.js:15-17 | an admin route answers 403 when the gate refuses and 404 when the item is missing, and runs its body only when both pass |
| `Listing.Approve` | backend/routes/items.js:194-200 | past the gates, approve sets `approved` and leaves every other field and every other item as it was; a refused or missing-item request changes nothing |
| `Listing.ApproveApprovedIsNoOp` | backend/routes/admin.js:18-19 | approving an already approved item leaves the store as it was |
| `Listing.ApproveIdempotent` | backend/routes/admin.js:18-19 | approving twice has the same effect as approving once |
| `Listing.DeleteItem` | backend/routes/items.js:251 | a delete removes exactly the named item, from the documents and from the natural order, and touches nothing else: the other ids keep their relative order |
| `Listing.Reject` | backend/routes/admin.js:24-28 | past the gate, reject deletes the item, or answers 404 with nothing changed |
| `Listing.Feature` | backend/routes/items.js:210-216 | past the gates, feature sets `featured` and leaves every other field and every other item as it was |
| `Listing.Delete` | backend/routes/items.js:249-259 | anyone may delete: an existing item is removed, a missing one answers 404 |
| `Listing.RejectIsGatedDelete` | backend/routes/items.js:203-207 | for an admin, reject and the ungated delete have the same effect and answer |
| `Listing.ListingRoutesKeepLedger` | backend/routes/items.js:194-216 | creating, approving, rejecting, featuring and deleting never touch a balance, the log or an item's status |
| `Listing.AddItemKeepsValid` | backend/models/items.js:28-33 | creating an item keeps the natural order, the cost bound and the unique emails |
| `Listing.FlagRoutesKeepValid` | backend/routes/admin.js:18-19 | approving or featuring keeps the store valid |
| `Listing.DeleteRoutesKeepValid` | backend/routes/admin.js:25 | rejecting or deleting keeps the store valid |
| `Catalog.Find` | backend/routes/items.js:53 | `find` returns exactly the items in the natural order that satisfy every condition of the filter, without repeats |
| `Catalog.FindKeepsOrder` | backend/routes/items.js:53 | of two ids in a `find` result, the one earlier in the natural order is listed first |
| `Catalog.FindPrefixInOrder` | backend/routes/items.js:86 | the first n results of `find` come in natural order, and every matching item earlier in that order than one of them is among them |
| `Catalog.AvailableItems` | backend/routes/items.js:51-58 | /available lists exactly the approved items whose status is available |
| `Catalog.ApprovedItems` | backend/routes/items.js:97-100 | GET / lists exactly the approved items |
| `Catalog.FeaturedItems` | backend/routes/items.js:188-191 | /featured/all lists exactly the items that are approved and featured |
| `Catalog.SearchQueryMeaning` | backend/routes/items.js:63-70 | the filter the search builds holds of an item exactly when it is approved and equal on every non-empty parameter, a tag meaning membership in `tags` |
| `Catalog.Search` | backend/routes/items.js:61-73 | /search lists exactly the approved items that match every given parameter |
| `Catalog.EmptySearchListsApproved` | backend/routes/items.js:61-100 | a search with no parameters gives the same list as GET / |
| `Catalog.MyUploads` | backend/routes/items.js:103-106 | /me lists exactly the caller's items |
| `Catalog.MySwaps` | backend/routes/items.js:225-231 | the dashboard swaps list is exactly the caller's items whose status is swapped or redeemed |
| `Catalog.ItemDetail` | backend/routes/items.js:243-247 | GET /:id answers the stored item, or 404 when there is none |
| `Catalog.DashboardPoints` | backend/routes/items.js:219-222 | the dashboard answers the caller's balance, and a caller without a user document makes the handler throw |
| `Catalog.SuggestPool` | backend/routes/items.js:86 | suggest reads at most ten items, each with a tag the pattern matches, without repeats and listed in natural order; any matching item earlier in that order than one read is read too, and fewer than ten are read only when no other item matches |
| `Catalog.KeepMatching` | backend/routes/items.js:87 | a tag is kept exactly when the pattern matches it |
| `Catalog.MatchingTags` | backend/routes/items.js:87 | the flattened list holds exactly the matching tags of the items read |
| `Catalog.Suggest` | backend/routes/items.js:76-94 | a missing type or query answers 400, and a pattern that fails to compile 500, whatever the type; any type but 'tag' gives an empty list; for 'tag' the answer is at most five distinct matching tags in first-seen order, a prefix of that order, holding them all when there are fewer than five |
| `Catalog.SuggestSlice` | backend/routes/items.js:87-90 | the first five entries of the first-seen deduplication are distinct, drawn from the candidates, in first-seen order, closed under earlier first sightings, and complete when there are fewer than five |
| `Sequences.FirstIndex` | backend/routes/items.js:87 | the position found holds the element and no earlier position does |
| `Sequences.Dedup` | backend/routes/items.js:87 | `[...new Set(xs)]` holds each element of `xs` exactly once and nothing else |
| `Sequences.DedupFirstSeenOrder` | backend/routes/items.js:87 | the deduplicated elements come in the order of their first occurrence |
| `Sequences.FirstSeenPrefix` | backend/routes/items.js:87-90 | any element first seen before one of the first `n` deduplicated elements is itself among them |
| `History.OwnEntries` | backend/routes/items.js:235 | the filter keeps every entry of the caller's, as often as it occurs in the log, and no other |
| `History.InsertByTime` | backend/routes/items.js:236 | inserting into a newest-first list keeps it newest first and adds exactly the one entry |
| `History.SortNewestFirst` | backend/routes/items.js:236 | the sort is newest first and a permutation of its input |
| `History.History` | backend/routes/items.js:234-240 | the history holds exactly the caller's entries, each as often as in the log, newest first |
| `History.NewestEntryLeads` | backend/models/Transaction.js:22-25 | an entry strictly newer than every other entry heads its owner's history |
| `History.HistoryAfterAppend` | backend/routes/items.js:234-240 | an entry appended for a user joins that user's history, and heads it when strictly newest |
| `History.RedeemAddsToBuyerHistory` | backend/routes/items.js:138-143 | a redeem adds the buyer's 'redeem_spent' entry to the buyer's history, at its head when the clock has moved on |
| `History.RedeemLeavesOtherHistories` | backend/routes/items.js:145-150 | no one but the buyer sees a redeem in their history, because the seller's entry is never written |
| `AdminRoutes.Pending` | backend/routes/admin.js:9-12 | for an admin, /pending lists exactly the items not yet approved, without repeats; anyone else gets 403 |
| `AdminRoutes.NewListingIsPending` | backend/routes/items.js:28-42 | a new listing waits in the pending list and is not on the available list |
| `AdminRoutes.ApprovalLeavesQueue` | backend/routes/admin.js:15-21 | an approved item leaves the pending list, and joins the available list when its status is available |
| `Backend.Store.Redeem` | backend/routes/items.js:109-153 | the loaded documents are changed and saved in the route's order; the new state and the answer are exactly those of `Exchange.Redeem`, and the store stays valid |
| `Backend.Store.LoadRedeem` | backend/routes/items.js:110-122 | the guards stop the route exactly when `Exchange.RedeemProceeds` fails, with the answer `Exchange.Redeem` gives on an unchanged store; otherwise the loaded item, buyer and seller are the stored documents |
| `Backend.Store.CommitRedeem` | backend/routes/items.js:124-150 | saving the changed copies of buyer, seller and item and then creating the entries has exactly the effect and answer of `Exchange.Redeem`, and keeps the store valid |
| `Backend.Store.SaveRedeemEntries` | backend/routes/items.js:137-150 | the two creates leave the other collections alone, append only the buyer's 'redeem_spent' entry and end in the refusal |
| `Backend.Store.Swap` | backend/routes/items.js:157-175 | the new state and the answer are exactly those of `Exchange.Swap`, and the store stays valid |
| `Backend.Store.AddItem` | backend/routes/items.js:15-48 | the new state and the answer are exactly those of `Listing.AddItem`, and the store stays valid |
| `Backend.Store.Approve` | backend/routes/admin.js:15-21 | the new state and the answer are exactly those of `Listing.Approve`, and the store stays valid |
| `Backend.Store.Feature` | backend/routes/items.js:210-216 | the new state and the answer are exactly those of `Listing.Feature`, and the store stays valid |
| `Backend.Store.FindByIdAndDelete` | backend/routes/items.js:251 | reports whether the item existed, and if so removes exactly it from the documents and the natural order |
| `Backend.Store.Reject` | backend/routes/items.js:203-207 | the new state and the answer are exactly those of `Listing.Reject`, and the store stays valid |
| `Backend.Store.Delete` | backend/routes/items.js:249-259 | the new state and the answer are exactly those of `Listing.Delete`, and the store stays valid |

## Left out

- Authentication: the auth middleware and the signup and login routes are
  not part of this model. A request arrives with the caller's user id, which
  may name no stored user.
- The image upload and the image route (`backend/routes/items.js` lines
  177-185): the model keeps only whether a file arrived, because reading the
  buffer of a missing file throws. Image bytes and content types are not
  modelled.
- `populate` joins, `select` projections, the timestamps the item schema
  adds, and the messages and JSON shapes of answers: a `Response` tag
  stands for each answer.
- Concurrency between requests, and failures of individual `save()` or
  delete calls: each handler runs alone, and only the failures its own code
  raises are modelled.
- The alternative four-value transaction schema in
  `backend/routes/Transaction.js`: no route imports it.
- JavaScript regular-expression semantics: the compiled pattern is an
  abstract predicate on strings, given as a parameter.
- `parseInt` is an abstract `Option<int>`, and `Number` paths are unbounded
  integers: fractions, NaN stored in a document and floating point are not
  modelled.
- The natural order of the items collection is modelled as insertion order.
- History.SortNewestFirst: Mongo does not fix the order of entries with equal
  `createdAt`. The model keeps them in log order. What is proved holds for
  any such order: newest first, and a permutation.
- ObjectIds are natural numbers. A new item's id is a parameter, and an id
  that is already taken gives the duplicate-key answer 500.
- The frontend and the server wiring.
