# Laboratory inventory backend — a Dafny model

This project models the core of an inventory system for an electronics
laboratory. The system keeps a catalog of components. Each component has a
part number, a stock level that never goes below zero, a low-stock threshold
and the date of its last issue. Every stock movement goes into an
append-only audit log.

The model covers:

- the component, log and notification records, with their schema constraints;
- the component handlers (create, update, delete, inward, outward, adjust, list), each as one atomic transition of an `Inventory` (catalog, log, next identifier);
- the role guard and the token checks;
- the periodic stock checker, which raises low-stock alerts and a daily stale-stock report;
- the notification handlers: visibility, read receipts, unread counts, mark-all-read, the 30-day delete rule and statistics;
- the chat assistant's dispatcher, whose inward and outward commands move stock through the same store updates as the routes.

Time is an integer count of milliseconds. A day is `DAY = 86400000`, and "90 days ago" is `now - 90 * DAY`. Store order (the order in which the database returns documents) is modelled as ascending identifiers. A regular-expression search on user input is a parameter `matches: (string, string) -> bool`. What the chat command patterns capture is a `Chatbot.Parse` record given with the message. Token decoding is a partial function `decode: string -> Option<UserId>`.

Modules, one per file: `Wrappers`, `Domain`, `Text`, `Keys`, `ComponentSchema`, `LogSchema`, `NotificationSchema`, `Auth`, `Pagination`, `ComponentRoutes`, `AuditLedger`, `StockChecker`, `NotificationRoutes`, `Chatbot`.

`AuditLedger` is the model's own invariant module, with no counterpart file in the system. It runs any sequence of component requests and proves these properties:

- every request keeps the store `Consistent`: valid components, unique part numbers, balanced and valid log entries, and a log whose changes sum to each component's stock;
- stock never goes negative;
- only issuing stock moves the last-issue date;
- a successful request appends exactly one matching entry;
- the same run with the update handler as written (`RunAsWritten`) reaches the same catalog, so its stock is never negative either, and its log also only grows.

## Model

| member | source | states |
|---|---|---|
| Domain.ParseRole | models/Notification.js:42-45 | a role name parses to the role it names and to nothing else |
| Domain.Status | middleware/auth.js:27-43 | every error maps to a 4xx/5xx code; 401 exactly for authentication failures, 403 exactly for role refusals and admin-only refusals |
| Text.TrimBlank | models/Log.js:26-30 | a text trims to "" exactly when it consists of JavaScript white space, so a blank required text is refused |
| Text.TrimTrimmed | models/Component.js:4-8 | trimming an already trimmed text changes nothing |
| Text.Contains | routes/chatbotRoutes.js:416 | `includes` holds exactly when the part occurs at some position of the text |
| Text.Utf16Length | routes/chatbotRoutes.js:755 | the length JavaScript reports is between the number of code points and twice that |
| Text.ReplaceFirst | middleware/auth.js:6 | `replace` of a literal replaces its first occurrence only, or nothing when it does not occur |
| ComponentSchema.ParseCategory | models/Component.js:52-60 | exactly the twelve category names are accepted, each as the category it names |
| ComponentSchema.CategoryRoundTrip | models/Component.js:52-60 | parsing the name of any category gives that category back |
| ComponentSchema.NormalizePartNumber | models/Component.js:14-20 | the trimmed upper-cased part number is a valid part number exactly when the input is not blank; normalising is idempotent and keeps a valid part number |
| ComponentSchema.NormalizeFacts | models/Component.js:14-20 | the same three facts for the explicit `ToUpper(Trim(p))` |
| ComponentSchema.TrimOption | models/Component.js:42-44 | an optional text stays present or absent and is trimmed when present |
| ComponentSchema.Instantiate | models/Component.js:26-70 | a new component takes quantity 0, threshold 10 and last issue `now` when they are not given; it is valid exactly when the draft is savable |
| ComponentSchema.InstantiateValid | models/Component.js:3-94 | a component built from a draft satisfies every schema constraint exactly when the draft's texts, numbers and datasheet link do |
| ComponentSchema.DefaultsGiveLowStockFreshComponent | models/Component.js:61-70 | with the defaults a new component is low on stock (0 ≤ 10) and not stale |
| LogSchema.ParseAction | models/Log.js:9-13 | exactly the six action names are accepted |
| LogSchema.ActionRoundTrip | models/Log.js:9-13 | parsing the name of any action gives it back |
| LogSchema.SchemaAllowsUnbalancedEntries | models/Log.js:14-25 | some schema-valid entry has negative and inconsistent quantity fields |
| LogSchema.Entry | models/Log.js:26-43 | an entry is valid exactly when its reason is not blank; the quantity fields and references are the ones given |
| LogSchema.CreatedEntry | routes/componentRoutes.js:149-158 | a `created` entry records previous 0 and a change equal to the new quantity; it is valid and balanced |
| LogSchema.DeletedEntry | routes/componentRoutes.js:262-271 | a `deleted` entry records the whole stock as removed (previous q, change −q, new 0); it is valid and balanced |
| NotificationSchema.ParseKind | models/Notification.js:4-8 | exactly the four notification types are accepted |
| NotificationSchema.KindRoundTrip | models/Notification.js:4-8 | parsing a type's name gives it back |
| NotificationSchema.ParsePriority | models/Notification.js:46-50 | exactly the four priorities are accepted |
| NotificationSchema.NewReceipt | models/Notification.js:32-41 | a receipt names its user and is stamped `now` when no time is given |
| NotificationSchema.Make | models/Notification.js:28-61 | a new notification is unread and not mailed; its priority is medium unless given; it expires 30 days after creation |
| NotificationSchema.Publish | utils/stockChecker.js:51 | saving notifications gives them the next identifiers in order and keeps every stored one |
| NotificationSchema.Sweep | models/Notification.js:71 | the expiry index removes exactly the expired notifications and leaves the rest unchanged |
| Auth.BearerToken | middleware/auth.js:6 | a header yields a token; a leading `Bearer ` is dropped, and a header without it is kept whole |
| Auth.VerifyToken | middleware/auth.js:4-25 | a request is admitted exactly when a token is present, decodes, and names an active user, who is the one returned; a missing token and every other failure is a 401 |
| Auth.OptionalAuth | middleware/auth.js:45-62 | a user is attached exactly when the token would be accepted by `verifyToken`, and never an error |
| Auth.CheckRole | middleware/auth.js:27-43 | no user gives 401; a role outside the list gives 403 carrying the list and the role; otherwise the user passes |
| Pagination.ParamOr | routes/componentRoutes.js:12-13 | a missing or zero parameter falls back to the default, any other value is kept |
| Pagination.CeilDiv | routes/componentRoutes.js:69 | `Math.ceil(a / b)`: the least multiple of b not below a |
| Pagination.Paginate | routes/componentRoutes.js:62-73 | skip is (page−1)·limit; totalPages covers total exactly; hasPrev iff page > 1; hasNext iff more items lie beyond this page |
| Pagination.NextPageExists | routes/componentRoutes.js:69-71 | `page < totalPages` holds exactly when items lie beyond the page |
| Pagination.Slice | routes/componentRoutes.js:60-62 | skip-then-limit returns the items from position skip on, at most limit of them |
| Pagination.SliceWithinPage | routes/componentRoutes.js:60-62 | a page holds at most limit documents, all of them from the sorted listing |
| Pagination.ItemOnItsPage | routes/componentRoutes.js:62-71 | document i of the listing lies on page i / limit + 1, which is within totalPages, at position i mod limit |
| ComponentRoutes.DraftOf | routes/componentRoutes.js:126-130 | the draft stores the body's fields with the part number normalised and the caller as creator |
| ComponentRoutes.DraftSavable | routes/componentRoutes.js:106-145 | a body that passed the validators saves exactly when its datasheet link is well formed |
| ComponentRoutes.Create | routes/componentRoutes.js:105-170 | guard order role → validators (a missing or negative `unit_price` among them) → part number taken → save; success stores the new component under the next id and appends one `created` entry |
| ComponentRoutes.Admit | routes/componentRoutes.js:144-158 | the save succeeds exactly when the datasheet link is valid; a refusal writes nothing |
| ComponentRoutes.Patched | routes/componentRoutes.js:196-223 | quantity, part number, last issue date and creator change only when sent and then take the sent value (a part number normalised); the creation time is kept and the updater is stamped |
| ComponentRoutes.PatchedValid | routes/componentRoutes.js:176-185 | an update that passed the validators keeps a valid component valid |
| ComponentRoutes.CarriedAmong | routes/componentRoutes.js:234 | the listed fields are exactly those the body carries |
| ComponentRoutes.Fields | routes/componentRoutes.js:234 | the note names exactly the fields the body carries |
| ComponentRoutes.Update | routes/componentRoutes.js:172-246 | as written: guard order role → validators (an optional `unit_price` must not be negative) → part number taken by another component → not found; success appends an `updated` entry read after the write (see Findings) |
| ComponentRoutes.UpdateAudited | routes/componentRoutes.js:172-246 | fails exactly when `Update` does, with the same error; on success its entry records the quantity before and the change |
| ComponentRoutes.Delete | routes/componentRoutes.js:248-280 | admin only; a missing id writes nothing; success removes exactly that component and appends a `deleted` entry |
| ComponentRoutes.ApplyInward | routes/componentRoutes.js:309-331 | the stock grows by q, the last issue date is kept, nothing else in the catalog changes, and one balanced `inward` entry with change +q is appended |
| ComponentRoutes.ApplyOutward | routes/componentRoutes.js:383-405 | the stock shrinks by q, the last issue date becomes now, and one balanced `outward` entry with change −q is appended |
| ComponentRoutes.Inward | routes/componentRoutes.js:283-347 | succeeds exactly for an editor, a quantity ≥ 1, a reason, and an existing id; each refusal has its error and writes nothing |
| ComponentRoutes.Outward | routes/componentRoutes.js:350-420 | additionally refuses with the available and requested counts when stock is short; success leaves 0 ≤ stock < before and stamps the issue date |
| ComponentRoutes.Adjust | routes/componentRoutes.js:423-481 | admin only, target ≥ 0; success sets the stock to the target and logs the difference |
| ComponentRoutes.List | routes/componentRoutes.js:10-79 | the listed ids are exactly the components passing every filter; the page counts them |
| ComponentRoutes.ListPageHoldsSelected | routes/componentRoutes.js:55-62 | whatever order the store sorts the selected ids in, the returned page holds at most limit of them and only components that pass every filter |
| ComponentRoutes.CreateNeedsPrice | routes/componentRoutes.js:115 | an editor's create without a unit price, or with a negative one, is a validation failure |
| ComponentRoutes.UpdateRefusesNegativePrice | routes/componentRoutes.js:182 | an editor's update sending a negative unit price is a validation failure, whether or not the component exists |
| ComponentRoutes.ListWithoutFilters | routes/componentRoutes.js:16-52 | with no filter every component is listed |
| AuditLedger.RefusedRequestSkipped | routes/componentRoutes.js:105-481 | a refused request is skipped: the rest of the run starts from the store as it was; an accepted one hands its result on |
| AuditLedger.RunConcat | routes/componentRoutes.js:105-481 | running two sequences of requests one after the other is running their concatenation |
| AuditLedger.EmptyConsistent | models/Log.js:3-56 | the empty store is consistent |
| AuditLedger.MovementConsistent | routes/componentRoutes.js:309-331 | a one-component movement with a matching balanced entry keeps the store consistent |
| AuditLedger.CreateConsistent | routes/componentRoutes.js:134-158 | creating keeps the store consistent, part numbers unique included |
| AuditLedger.UpdateConsistent | routes/componentRoutes.js:198-235 | the corrected update keeps the store consistent |
| AuditLedger.DeleteConsistent | routes/componentRoutes.js:256-273 | deleting keeps the store consistent |
| AuditLedger.StepPreservesConsistency | routes/componentRoutes.js:105-481 | every request, successful or not, keeps the store consistent |
| AuditLedger.RunPreservesConsistency | routes/componentRoutes.js:105-481 | every sequence of requests keeps it consistent |
| AuditLedger.StockNeverNegative | models/Component.js:26-31 | after any sequence of requests every stock level is ≥ 0 |
| AuditLedger.StepWritesOneMatchingEntry | routes/componentRoutes.js:149-466 | a successful request appends exactly one entry, with its action, its component and its caller |
| AuditLedger.RunAppendsOnly | models/Log.js:3-56 | the log only grows, by at most one entry per request |
| AuditLedger.OnlyOutwardMovesLastOutward | routes/componentRoutes.js:386-391 | no request but an issue (or an update that sends the date) moves a component's last issue date |
| AuditLedger.OutwardStampsLastOutward | routes/componentRoutes.js:386-391 | a successful issue sets the last issue date to now |
| AuditLedger.WorkedExample | routes/componentRoutes.js:350-466 | from 100 with threshold 20: issuing 30 leaves 70, issuing 80 more is refused with (70, 80), adjusting to 15 logs −55 and the component is low on stock |
| AuditLedger.AsWrittenUpdateBreaksLedger | routes/componentRoutes.js:226-231 | the update as written records previous = the new quantity and change 0, so any change of quantity breaks the ledger |
| AuditLedger.AuditedUpdateKeepsLedger | routes/componentRoutes.js:226-231 | the corrected update accepts the same requests and keeps the ledger |
| AuditLedger.AsWrittenUpdateCounterexample | routes/componentRoutes.js:226-231 | a store holding 5 units with a balanced ledger, updated to 9 by an administrator, loses its ledger |
| AuditLedger.StepIgnoresLogs | routes/componentRoutes.js:105-481 | whether a request succeeds, and the catalog it leaves, depend on the catalog and the next identifier, never on the log |
| AuditLedger.AsWrittenStepTracksStep | routes/componentRoutes.js:172-246 | with the update as written a request succeeds exactly when it does with the corrected update, and leaves the same catalog |
| AuditLedger.AsWrittenRunTracksRun | routes/componentRoutes.js:105-481 | any sequence of requests with the update as written leaves the same catalog and next identifier as with the corrected update |
| AuditLedger.AsWrittenCatalogStaysValid | models/Component.js:26-31 | with the update as written every stored component stays valid, part numbers stay unique, and no stock level goes below 0 |
| AuditLedger.AsWrittenStepAppendsOne | routes/componentRoutes.js:149-466 | with the update as written a successful request appends exactly one balanced, valid entry |
| AuditLedger.AsWrittenRunAppendsOnly | models/Log.js:3-56 | with the update as written the log only grows, by at most one entry per request |
| StockChecker.Mailed | utils/stockChecker.js:54-60 | a notification is marked mailed at `now` only when the send succeeded; nothing else changes |
| StockChecker.LowStockCandidates | utils/stockChecker.js:11-13 | exactly the components at or below their threshold, in store order |
| StockChecker.LowStockAlert | utils/stockChecker.js:38-49 | the alert is a high-priority low-stock notification for Admin and Lab Technician carrying the component's quantity and threshold |
| StockChecker.CheckLowStock | utils/stockChecker.js:7-69 | no candidates means no write; otherwise stored notifications are kept, every new one is an alert for a low component not alerted in the last 24 h, at most one per component, and afterwards every low component has a recent alert |
| StockChecker.NothingDueNothingSaved | utils/stockChecker.js:29-36 | when every low component was alerted in the last 24 h the scan writes nothing |
| StockChecker.LowStockIdempotent | utils/stockChecker.js:29-36 | a second scan at the same instant writes nothing |
| StockChecker.LowStockSpaced | utils/stockChecker.js:30-34 | scans keep alerts about one component more than a day apart |
| StockChecker.AlertsKeepSpacing | utils/stockChecker.js:30-34 | any inbox that grows only by alerts about due, distinct components keeps one component's alerts more than a day apart |
| StockChecker.StaleCandidateIsStale | utils/stockChecker.js:76-82 | a stale candidate is a stale component (`isStale`) that still holds stock |
| StockChecker.StaleCandidates | utils/stockChecker.js:79-82 | exactly the components not issued for 90 days that hold stock, in store order |
| StockChecker.StaleReport | utils/stockChecker.js:100-117 | the report is a medium-priority stale-stock notification for Admin listing one entry per candidate |
| StockChecker.CheckStaleStock | utils/stockChecker.js:72-142 | stored notifications are kept; nothing is written unless there are candidates and no report since midnight; after a scan with candidates a report of today exists |
| StockChecker.StaleOncePerDay | utils/stockChecker.js:90-99 | scans never create a second stale report on one day |
| StockChecker.StaleSecondScanSilent | utils/stockChecker.js:94-99 | a later scan on the same day writes nothing |
| NotificationRoutes.Unread | routes/notificationRoutes.js:64-72 | exactly the visible notifications the user has no receipt on |
| NotificationRoutes.UnreadCount | routes/notificationRoutes.js:64-79 | the count of those, never more than the number stored |
| NotificationRoutes.List | routes/notificationRoutes.js:8-61 | exactly the visible notifications passing the unread and type filters, paginated |
| NotificationRoutes.UnreadListingMatchesCount | routes/notificationRoutes.js:22-24 | the unread listing holds exactly what the unread count counts |
| NotificationRoutes.Acknowledged | routes/notificationRoutes.js:91-102 | afterwards the user has read it; a second read changes nothing; one receipt `(user, now)` is appended otherwise; other users and fields are unaffected; one receipt per user is kept |
| NotificationRoutes.MarkRead | routes/notificationRoutes.js:82-109 | a missing id is not found and changes nothing; otherwise only that notification is acknowledged |
| NotificationRoutes.MarkReadIdempotent | routes/notificationRoutes.js:91-102 | marking twice is marking once |
| NotificationRoutes.MarkReadUnread | routes/notificationRoutes.js:82-109 | marking removes exactly that id from the user's unread set and leaves other users' sets alone |
| NotificationRoutes.MarkReadKeepsReceiptsUnique | routes/notificationRoutes.js:91-102 | no user ever holds two receipts on one notification |
| NotificationRoutes.MarkAllRead | routes/notificationRoutes.js:112-148 | the count returned is the unread count; exactly the unread visible notifications gain a receipt; afterwards nothing is unread |
| NotificationRoutes.MarkAllReadClears | routes/notificationRoutes.js:112-148 | the unread count drops to 0 for the user and is unchanged for everyone else |
| NotificationRoutes.MarkAllReadKeepsReceiptsUnique | routes/notificationRoutes.js:112-148 | one receipt per user is kept |
| NotificationRoutes.Delete | routes/notificationRoutes.js:151-177 | a missing id is not found; a non-admin may delete only a notification created at least 30 days ago; success removes exactly that one |
| NotificationRoutes.NonAdminDeletesOnlyExpired | routes/notificationRoutes.js:160-170 | what a non-admin may delete has already expired, and the expiry index removes it too |
| NotificationRoutes.GetStats | routes/notificationRoutes.js:180-215 | admin only; the totals count every notification and those nobody has read, and the per-type rows add up to them; every type present has a row, no type has two, and the rows are in increasing order of type name |
| NotificationRoutes.Groups | routes/notificationRoutes.js:186-199 | only types present get a row, each carrying that type's count and the count of its notifications nobody has read |
| NotificationRoutes.GroupsComplete | routes/notificationRoutes.js:186-197 | every listed type that occurs gets a row |
| NotificationRoutes.GroupsKeepRank | routes/notificationRoutes.js:186-198 | grouping along types in increasing rank gives rows in increasing rank, as only present types are kept and none is moved |
| NotificationRoutes.RankIsNameOrder | routes/notificationRoutes.js:198 | rank order is name order: inventory_update < low_stock < stale_stock < system |
| NotificationRoutes.GroupsKeepNameOrder | routes/notificationRoutes.js:198 | the statistics rows come in strictly increasing order of type name |
| NotificationRoutes.RowsByNameDistinct | routes/notificationRoutes.js:188-189 | rows strictly sorted by name never repeat a type, as one group per `_id` demands |
| NotificationRoutes.StatsAddUp | routes/notificationRoutes.js:186-204 | the per-type counts add up to the total and the per-type unread counts to the total unread |
| Chatbot.MatchCategory | routes/chatbotRoutes.js:657-662 | the first category word that contains the captured text or is contained in it; none when no word does |
| Chatbot.Capitalize | routes/chatbotRoutes.js:665 | the first character is upper-cased and every other character is kept, so the length is unchanged |
| Chatbot.CapitalizeExample | routes/chatbotRoutes.js:665 | only the first letter is upper-cased: "ics" becomes "Ics" |
| Chatbot.Choose | routes/chatbotRoutes.js:416-729 | the first family in the order whose keywords and pattern match; none exactly when no family matches |
| Chatbot.AsWrittenChoice | routes/chatbotRoutes.js:416-691 | as written: inward, then outward, then search, then low stock, then category, then help, then none |
| Chatbot.CorrectedChoice | routes/chatbotRoutes.js:416-691 | corrected: inward, then outward, then low stock, then category, then search, then help, then none |
| Chatbot.OrdersAgree | routes/chatbotRoutes.js:574-691 | the two orders choose the same family unless the search fires together with a report |
| Chatbot.FindOne | routes/chatbotRoutes.js:427-432 | the first component in store order whose name or part number matches; none exactly when none does |
| Chatbot.InwardCommand | routes/chatbotRoutes.js:416-485 | a missing component is reported before the role is checked; a found component and a caller without the role gets the not-permitted reply; success exactly for an editor and performs the route's stock update with the chat reason and note |
| Chatbot.OutwardCommand | routes/chatbotRoutes.js:488-571 | not found, then role, then stock: each refusal has its own reply, and too little stock reports the available and requested counts; success exactly when the caller may issue and stock suffices; it performs the route's issue with the fixed reason and the `for` clause as project |
| Chatbot.SearchReply | routes/chatbotRoutes.js:574-596 | at most five matching components, all of them when fewer; empty exactly when nothing matches |
| Chatbot.LowStockReply | routes/chatbotRoutes.js:627-649 | at most ten low-stock components, all of them when fewer |
| Chatbot.CategoryReply | routes/chatbotRoutes.js:664-676 | at most ten components of the capitalised category; empty exactly when none is in it |
| Chatbot.Process | routes/chatbotRoutes.js:411-739 | as written: not understood exactly when no family matches; stock moves only through an inward or outward command |
| Chatbot.ProcessCorrected | routes/chatbotRoutes.js:411-739 | the same guarantees, with the two reports tried before the search |
| Chatbot.Screen | routes/chatbotRoutes.js:745-757 | a missing or blank message is refused; one longer than 500 UTF-16 units after trimming is refused; any other passes |
| Chatbot.Chat | routes/chatbotRoutes.js:742-778 | as written: a message refused by those checks gets its error, and any other goes to the handler as written |
| Chatbot.ChatCorrected | routes/chatbotRoutes.js:742-778 | the same endpoint over the corrected handler: it refuses exactly what `Chat` refuses, with the same error |
| Chatbot.InwardAgreesWithRoute | routes/chatbotRoutes.js:443-470 | a chat inward of q ≥ 1 leaves the store exactly as the inward route does with the same count, reason and note |
| Chatbot.InwardAcceptsZero | routes/chatbotRoutes.js:417-422 | a chat inward of 0 is accepted and logged, while the route refuses it |
| Chatbot.LookupBeforeRole | routes/chatbotRoutes.js:434-449 | a caller without the role is told the component is missing, where the route would refuse the role |
| Chatbot.OutwardAgreesWithRoute | routes/chatbotRoutes.js:534-556 | with enough stock a chat outward leaves the store exactly as the outward route does |
| Chatbot.OutwardShortAgreesWithRoute | routes/chatbotRoutes.js:520-532 | with too little stock both refuse with the same available and requested counts and write nothing |
| Chatbot.RouteRefusesShort | routes/componentRoutes.js:374-381 | the outward route refuses a valid count above the stock and names both counts |
| Chatbot.LowStockShadowedBySearch | routes/chatbotRoutes.js:574-627 | a message raising both the search and the low-stock report gets the search as written and the report when corrected |
| Chatbot.CategoryShadowedBySearch | routes/chatbotRoutes.js:574-664 | the same for a category listing ("show all …") |
| Chatbot.CorrectedAgreesOtherwise | routes/chatbotRoutes.js:411-739 | on every other message the corrected handler answers exactly as written |
| Chatbot.ShowLowStockCounterexample | routes/chatbotRoutes.js:704 | "Show low stock", which the help text offers, gets a search as written and the report when corrected |
| Chatbot.InwardKeepsConsistent | routes/chatbotRoutes.js:452-470 | a chat inward keeps the store consistent |
| Chatbot.OutwardKeepsConsistent | routes/chatbotRoutes.js:534-556 | a chat outward keeps the store consistent |
| Chatbot.PerformKeepsConsistent | routes/chatbotRoutes.js:411-739 | whichever family answers a message, the store stays consistent |
| Chatbot.ChatKeepsConsistent | routes/chatbotRoutes.js:742-778 | as written: whatever is said to the assistant, the store stays consistent |
| Chatbot.ChatCorrectedKeepsConsistent | routes/chatbotRoutes.js:742-778 | the same over the corrected handler |

## Findings

| source | as written | input that shows it | evidently intended | confidence | as-written member | corrected member |
|---|---|---|---|---|---|---|
| routes/componentRoutes.js:226-231 | the `updated` entry is built from the component read after the write: previous and new quantity are both the new quantity and the change is 0 | a component created with 5 units (ledger 0 → 5) updated by an administrator to quantity 9 | the entry records the quantity before the update and the change, so the log still accounts for the stock | not executed; medium | AuditLedger.AsWrittenUpdateCounterexample | AuditLedger.AuditedUpdateKeepsLedger |
| routes/chatbotRoutes.js:574-627 | the search family is tried before the low-stock and category reports, and "show" is a search keyword | "Show low stock", which the help text (line 704) and the fallback reply (line 721) offer | the low-stock report; likewise "show all ics" gives the category listing | not executed; high | Chatbot.ShowLowStockCounterexample | Chatbot.CorrectedAgreesOtherwise |

`ComponentRoutes.Update` models the update handler as written. `ComponentRoutes.UpdateAudited` is the corrected update, and `AuditLedger.Step` uses it. `AuditLedger.StepAsWritten` and `AuditLedger.RunAsWritten` use the update as written; the catalog they leave is the corrected run's (`AuditLedger.AsWrittenRunTracksRun`), so only the ledger differs.

`Chatbot.Process` models the message handler as written, and `Chatbot.Chat`, the endpoint, calls it. `Chatbot.ProcessCorrected` is the corrected handler, behind the same checks in `Chatbot.ChatCorrected`.

## Where the code and the documented behaviour differ

- The stale report's `componentCount` is not a path of the notification schema. Strict mode drops it on save, so the model's report does not carry it.
- The update handler copies the whole body into the update. A body that sends `last_outward` therefore moves the last-issue date, and `AuditLedger.OnlyOutwardMovesLastOutward` excludes that case explicitly.
- The update handler likewise carries a `createdBy` sent in the body into the update: the creator field is not immutable and no validator covers it. `ComponentRoutes.Patched` sets it when sent.
- The chat handler's `findByIdAndUpdate` writes only the stock and the updater. The timestamps plugin still stamps `updatedAt`, so the model's `Touch` does too.

## Left out

- Input and output, the database, Express and Mongoose plumbing: each handler is one atomic step on an immutable store. The source's update-then-log pairs are separate writes and may interleave. That non-atomicity and request concurrency are not modelled.
- Sorting of listings (`sortBy`, `sortOrder`): the listing is modelled as the set of selected identifiers plus the page counts.
- Store order is approximated by ascending identifiers wherever the source takes "the first" documents (chat lookup, search, reports).
- `unit_price`: the create and update validators are modelled on a `real` (required and not negative on create; optional and not negative on update), but the stored price is not kept in the component record, since no other guard or invariant reads it. `supplier_info.unit_cost` is left out entirely, since nothing validates it.
- Image URL, tags and free notes on components.
- JavaScript string-to-number coercion of `quantity`: bodies are taken as JSON numbers.
- A malformed identifier makes the database throw a cast error (a 500). The model treats every identifier as well formed.
- Regular-expression semantics:
  - a user-supplied `$regex` is the `matches` parameter;
  - the chat command patterns are the `Parse` record;
  - `Chatbot.WellFormed` states the one fact of those patterns the proofs need (a `for` clause is not blank).
- The order of the field names in the update note is not modelled. `ComponentRoutes.Fields` states which fields are listed.
- Message texts, suggestions, response shapes and the HTML mail templates are not modelled. Replies are datatypes carrying their data.
- Mail transport: sending is the boolean `send` parameter; the number of active administrators is the `admins` parameter.
- The `read` flag of a notification is never set by any handler and is modelled only as the default `false`.
- Daylight-saving effects of `setDate(getDate() - 90)` and of local midnight: 90 days is `90 * DAY`, and the start of the day is a parameter.
- A malformed regular expression: a `$regex` built from user input that is not a valid pattern makes the database throw. `GET /components` then answers 500 (routes/componentRoutes.js:25-42, 75-78), and the chat lookup and search end in the handler's error reply (routes/chatbotRoutes.js:427-432, 580-586, 731-737). The `matches` parameter is total, so the model has no such error path.
- The 30-day rule for deleting a notification (routes/notificationRoutes.js:160-170) moves back 30 calendar days with `setDate`, which across a daylight-saving change is 30 days ± 1 hour. The model uses exactly `30 * DAY`.
- The timing of expiry deletion by the database: `NotificationSchema.Sweep` removes the expired notifications when it is applied.
- `GET /components/:id`, `/components/:id/logs`, the category and location lists, and the chat history route: these are read-only lookups with no guard beyond authentication.
- Analytics, exports, public routes, seeding and the mailer: these are outside the modelled core.
- Text: case mapping covers ASCII letters only.
- Pagination.Slice: requires a positive limit and a non-negative skip. The database takes a negative limit by its absolute value and refuses a negative skip with an error, and neither is modelled.
- Pagination.SliceWithinPage: requires a positive limit and a non-negative skip, for the same reason.
- Pagination.ItemOnItsPage: requires a positive limit, for the same reason. It also speaks only of the page that the document's position picks.
- ComponentRoutes.ListPageHoldsSelected: the sort by `sortBy` and `sortOrder` is not modelled, so the lemma holds for any order of the selected ids, and it requires a positive limit and a non-negative skip as Slice does.
- Pagination.Paginate: states the page count and `hasNext` only for a positive limit, for the same reason.
- StockChecker.CheckLowStock: the scan visits candidates in store order, and its alerts go to ascending identifiers.
