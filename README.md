# Group-buying campaign pages, modelled in Dafny

The system is a small web shop for group-buying campaigns. An administrator creates a
campaign with discount packages. A package is a title, a minimum number of items and a
discount percentage, optionally split into a cash rate and a cheque rate. Buyers open
the campaign's address and enter a name and a mobile number on the welcome page. They
then pick product quantities on the campaign page, which shows the package reached,
the next package and the amount payable. On the payment page they choose cash or
cheque and confirm. A public board shows the campaign's running item total with a
counting animation. The admin pages list, end, delete and export campaigns and group
a campaign's orders per customer.

The model has one module per page or component, plus shared modules:

- `Store` (`store.dfy`) models the database the pages read and write: the tables
  `campaigns`, `campaign_packages`, `orders` and `order_items`. It is a class `Db`
  with one method per request. Each method takes the service's answer as a `storeFails`
  argument, and a failed request changes nothing.
- `Text`, `JsNumber`, `Collation`, `AssocList`, `Seqs` and `Wrappers` model the
  JavaScript primitives the pages rely on. These are `trim`, `toLowerCase`,
  `replace(/\s+/g, …)`, `Number(…)`, `Math.max`, the sort order, keyed quantity maps
  and `Array.filter`.

How the source's form maps onto the model:

- Page computations (order summary, package normalisation, customer grouping, file
  names, slugs) are functions, each with lemmas stating the promised properties.
- Request handlers are methods that change a `Db`. Each method's `ensures` gives the
  whole new state for every answer the service can give.
- The board's live counter is a class with `total` and `animatedTotal` fields.
- The admin page's list, form and package rows are a class with `campaigns`, `name`,
  `filter` and `packages` fields.
- Loops in the source are methods with loop invariants, each proved equal to its
  specification function. These are the order-row export, the customer grouping and
  the reload of saved quantities.

## Model

| member | source | states |
|---|---|---|
| Welcome.PhonePattern | src/pages/Welcome/Welcome.jsx:8 | the pattern `^09\d{9}$` written out; its ensures only spell out the pattern's eleven positions (the literal `0`, the literal `9`, nine digit classes), and what it accepts is stated by `Welcome.PhonePatternCharacterised` |
| Welcome.PhonePatternCharacterised | src/pages/Welcome/Welcome.jsx:8 | a phone passes the anchored pattern exactly when it has 11 characters, starts with `09` and is all digits |
| Welcome.MobileNumberAccepted | src/pages/Welcome/Welcome.jsx:8 | a concrete eleven-digit `09…` number is accepted |
| Welcome.Digits | src/pages/Welcome/Welcome.jsx:40 | stripping non-digits leaves only digits and never lengthens the value |
| Welcome.SanitizePhone | src/pages/Welcome/Welcome.jsx:39-41 | the stored phone is all digits, at most 11 long, a prefix of the typed digits, and all of them when fewer than 11 |
| Welcome.SanitizeIdempotent | src/pages/Welcome/Welcome.jsx:39-41 | sanitising a sanitised phone changes nothing |
| Welcome.ValidPhoneKept | src/pages/Welcome/Welcome.jsx:39-41 | a number that already matches the pattern is stored exactly as typed |
| Welcome.HandleChange | src/pages/Welcome/Welcome.jsx:37-47 | only the named field changes; the phone field receives the sanitised value |
| Welcome.CampaignFor | src/pages/Welcome/Welcome.jsx:21-35 | a campaign found for an address is one whose slug is the lower-cased address |
| Welcome.CampaignForIgnoresCase | src/pages/Welcome/Welcome.jsx:26 | any spelling of the address finds the same campaign as its lower-cased spelling |
| Welcome.SubmitRejection | src/pages/Welcome/Welcome.jsx:52-105 | each reason is reported exactly when its own check fails and every earlier check passed: no campaign, then a campaign that is not `active` (the page renders the ended notice instead of the form, lines 103-105), then an empty field, then a bad phone; submission passes exactly when an active campaign is loaded, the name is non-empty and the phone matches |
| Welcome.Submit | src/pages/Welcome/Welcome.jsx:49-105 | a rejected form or a failed insert leaves the store unchanged, and a campaign that is not `active` never gets an order from this page; otherwise exactly one order for the active campaign, name and phone is appended, and the page moves on carrying that order's id |
| Welcome.PhoneBlurAlerts | src/pages/Welcome/Welcome.jsx:94-99 | leaving the phone field alerts exactly when it is non-empty and fails the pattern; this ensures is the handler's own test, and its meaning after typing is stated by `Welcome.BlurAfterTyping` |
| Welcome.BlurAfterTyping | src/pages/Welcome/Welcome.jsx:94-99 | after typing, leaving the field is silent exactly when nothing was kept or at least 11 digits starting `09` were typed |
| CampaignPage.AchievedIndex | src/pages/CampaignPage/CampaignPage.jsx:38-40 | the achieved index is the last package whose minimum is reached, and -1 exactly when none is reached |
| CampaignPage.AchievedMonotone | src/pages/CampaignPage/CampaignPage.jsx:38-42 | more items never lower the achieved index, whatever the order of the packages |
| CampaignPage.AchievedIsGreatestThreshold | src/pages/CampaignPage/CampaignPage.jsx:38-42 | on ascending packages the achieved package has the greatest minimum not above the item count |
| CampaignPage.NextIndex | src/pages/CampaignPage/CampaignPage.jsx:45 | the next index is the first package not yet reached, with every earlier one reached; -1 exactly when all are reached |
| CampaignPage.NextFollowsAchieved | src/pages/CampaignPage/CampaignPage.jsx:38-46 | on ascending packages the next package immediately follows the achieved one |
| CampaignPage.AchievedPackageAgrees | src/pages/CampaignPage/CampaignPage.jsx:100-104 | the page's second `reduce`, which yields the package itself, picks the package at the achieved index |
| CampaignPage.OrderSummary | src/pages/CampaignPage/CampaignPage.jsx:27-63 | the payable amount is never negative and progress stays within 0..100 |
| CampaignPage.SummaryWhenNothingToPrice | src/pages/CampaignPage/CampaignPage.jsx:28-36 | with no items, no amount or no packages there is no discount, payable is the subtotal clamped at 0, progress is 0, and the first package is the goal |
| CampaignPage.SummaryDiscount | src/pages/CampaignPage/CampaignPage.jsx:42-58 | the discount is the achieved package's percentage of the subtotal (0 without one) and payable is what remains, clamped at 0 |
| CampaignPage.SummaryProgress | src/pages/CampaignPage/CampaignPage.jsx:45-54 | with every package reached, progress is 100 and nothing remains; otherwise the next package is the goal, a positive number of items remains and progress is below 100 |
| CampaignPage.DiscountWithinSubtotal | src/pages/CampaignPage/CampaignPage.jsx:43-58 | with percentages in 0..100 the discount lies between 0 and the subtotal, so payable is subtotal minus discount without clamping |
| CampaignPage.LargeDiscountMakesOrderFree | src/pages/CampaignPage/CampaignPage.jsx:43-58 | a reached package of 100 percent or more makes the payable amount 0 |
| CampaignPage.SummaryExample | src/pages/CampaignPage/CampaignPage.jsx:27-63 | 30 items over 3,000,000 against 12-, 24- and 48-item packages reach the 8 percent package (discount 240,000, payable 2,760,000), with the 48-item package as goal, 18 items to go and progress 62.5 |
| CampaignPage.KeepTiers | src/pages/CampaignPage/CampaignPage.jsx:171-175 | only packages with a title, a positive finite minimum and a finite non-negative discount are kept; soundness, order and multiplicity are stated by the lemmas below |
| CampaignPage.KeepTiersSound | src/pages/CampaignPage/CampaignPage.jsx:171-175 | a property held by every converted kept candidate holds for every kept package |
| CampaignPage.KeepTiersComplete | src/pages/CampaignPage/CampaignPage.jsx:171-175 | every candidate passing the filter is kept |
| CampaignPage.KeepTiersSingle | src/pages/CampaignPage/CampaignPage.jsx:171-175 | a single candidate gives its own tier when it passes the filter and nothing otherwise |
| CampaignPage.KeepTiersConcat | src/pages/CampaignPage/CampaignPage.jsx:171-175 | the tiers kept from two runs of candidates are those of the first run followed by those of the second; with the single case this fixes the result to the passing candidates in store order, each once, which the last-reached `reduce` depends on |
| CampaignPage.NormalizePackagesAsWritten | src/pages/CampaignPage/CampaignPage.jsx:161-175 | the page's mapping keeps no more packages than rows read, each well formed; order and multiplicity are stated by `CampaignPage.NormalizePackagesConcat` and `CampaignPage.NormalizePackagesSingle` |
| CampaignPage.CandidateAsWritten | src/pages/CampaignPage/CampaignPage.jsx:162-169 | the `.map(...)` step as written: a cash cell that reads as a finite number, NULL included, replaces `discount_percent`; a definition, whose consequence is stated by `CampaignPage.AdminPackageDiscount` and `CampaignPage.AdminPackageCheckout` |
| CampaignPage.CandidateOf | src/pages/CampaignPage/CampaignPage.jsx:162-169 | the corrected `.map(...)` step: only a stored number overrides `discount_percent`; a definition, whose consequence is stated by `CampaignPage.NormalizedCashRateIsDiscount` and `CampaignPage.MappingsAgreeWithCashRate` |
| CampaignPage.NormalizePackages | src/pages/CampaignPage/CampaignPage.jsx:161-175 | the corrected mapping keeps no more packages than rows read, each well formed; order and multiplicity are stated by `CampaignPage.NormalizePackagesConcat` and `CampaignPage.NormalizePackagesSingle` |
| CampaignPage.NormalizePackagesConcat | src/pages/CampaignPage/CampaignPage.jsx:161-175 | in both mappings the packages of two runs of rows are those of the first run followed by those of the second, so store order is kept |
| CampaignPage.NormalizePackagesSingle | src/pages/CampaignPage/CampaignPage.jsx:161-175 | in both mappings one row gives the tier of its candidate when that candidate passes the filter, and nothing otherwise |
| CampaignPage.NormalizedAscending | src/pages/CampaignPage/CampaignPage.jsx:154-175 | rows read in ascending minimum stay ascending after normalisation, in both the as-written and the corrected mapping |
| CampaignPage.MappingsAgreeWithCashRate | src/pages/CampaignPage/CampaignPage.jsx:167-169 | when a cash rate is stored, or the cell is not finite, the as-written and the corrected mapping agree |
| CampaignPage.KeepProducts | src/pages/CampaignPage/CampaignPage.jsx:200-206 | every kept product is well formed, and every usable product is kept; soundness, order and multiplicity are stated by the three lemmas below |
| CampaignPage.KeepProductsSound | src/pages/CampaignPage/CampaignPage.jsx:200-206 | every kept product is the product of a usable row read: nothing is invented |
| CampaignPage.KeepProductsConcat | src/pages/CampaignPage/CampaignPage.jsx:200-206 | the kept products of two runs of rows are those of the first run followed by those of the second, so store order is kept |
| CampaignPage.KeepProductsSingle | src/pages/CampaignPage/CampaignPage.jsx:200-206 | one row gives its own product when usable and nothing otherwise; with the concatenation lemma this fixes the result to the usable rows, in order, each once |
| CampaignPage.Catalog | src/pages/CampaignPage/CampaignPage.jsx:186-217 | a failed read gives the built-in catalogue; a read with usable products gives exactly `KeepProducts` of the rows, which the three lemmas above pin to the usable rows in store order; a read without any gives the built-in catalogue |
| CampaignPage.SubTotal | src/pages/CampaignPage/CampaignPage.jsx:89-94 | with non-negative quantities and prices the subtotal is non-negative |
| CampaignPage.MinimumRequired | src/pages/CampaignPage/CampaignPage.jsx:99 | without packages 12 items are required; otherwise one package's minimum, the smallest when the packages are ascending |
| CampaignPage.SubmitEnabled | src/pages/CampaignPage/CampaignPage.jsx:481 | the button is enabled only when no request runs; without packages at 12 items, and on ascending packages exactly when the first package is reached |
| CampaignPage.HandleQuantityChange | src/pages/CampaignPage/CampaignPage.jsx:289-295 | the edited product gets `max(0, value)` (0 for a non-number), every other product keeps its quantity, non-negative and distinct-key maps stay so, and the item total changes by the difference |
| CampaignPage.TotalsNonNegative | src/pages/CampaignPage/CampaignPage.jsx:87-94 | quantities kept by the edits give a non-negative item total and subtotal |
| CampaignPage.EnabledReachesFirstPackage | src/pages/CampaignPage/CampaignPage.jsx:481 | when the submit button is enabled, with packages present, the order reaches a package |
| CampaignPage.Selected | src/pages/CampaignPage/CampaignPage.jsx:320 | the selected products are exactly the catalogue products with a positive quantity |
| CampaignPage.SubmitCheck | src/pages/CampaignPage/CampaignPage.jsx:302-325 | each reason is reported exactly when its own check fails and every earlier check passed: a blank field, then a bad phone, then no campaign id, then nothing selected; otherwise submission passes |
| CampaignPage.Carry | src/pages/CampaignPage/CampaignPage.jsx:373-374 | the carried cash and cheque rates are the stored rate when truthy, else the package's discount |
| CampaignPage.Carried | src/pages/CampaignPage/CampaignPage.jsx:359-377 | the carried summary holds the page's totals and a non-negative payable amount, and carries a package exactly when one is reached |
| CampaignPage.CarriedParts | src/pages/CampaignPage/CampaignPage.jsx:359-377 | the carried discount and payable are the order summary's, and the carried package is the achieved one, if any |
| CampaignPage.NormalizedCashRateIsDiscount | src/pages/CampaignPage/CampaignPage.jsx:167-169 | after normalisation a stored cash rate is the package's discount, in both mappings |
| CampaignPage.AdminPackageDiscount | src/pages/CampaignPage/CampaignPage.jsx:167-169 | a package stored by the admin page normalises to discount 0 as written, and to its own percentage with the corrected fallback |
| CampaignPage.OneTierDiscount | src/pages/CampaignPage/CampaignPage.jsx:43 | with one reached package the discount is its percentage of the subtotal |
| CampaignPage.AdminPackageCheckout | src/pages/CampaignPage/CampaignPage.jsx:167-169 | 24 items over 1,000,000 against an admin-made 5 percent package get discount 0 as written and 50,000 as intended |
| OrderItemSync.SelectedLines | src/pages/CampaignPage/CampaignPage.jsx:254-261 | the lines to write are the selected products, in catalogue order, each with its name, quantity and price |
| OrderItemSync.ReplaceWritesLines | src/pages/CampaignPage/CampaignPage.jsx:251-276 | after the delete and the insert, the order's rows are exactly the written lines |
| OrderItemSync.ReplaceKeepsOtherOrders | src/pages/CampaignPage/CampaignPage.jsx:263-266 | the rows of every other order are untouched |
| OrderItemSync.ReplaceIdempotent | src/pages/CampaignPage/CampaignPage.jsx:251-276 | syncing the same lines twice leaves the same rows for the order as syncing once, and every other order's rows unchanged |
| OrderItemSync.SyncOrderItems | src/pages/CampaignPage/CampaignPage.jsx:251-276 | without an order nothing happens; a failed delete changes nothing; an empty selection or a failed insert leaves the order with no rows; otherwise the order's rows are replaced by the selected lines |
| OrderItemSync.FindByName | src/pages/CampaignPage/CampaignPage.jsx:239 | the product found is the first product in catalogue order with that name; none is found only when no product has it |
| OrderItemSync.ReloadQuantities | src/pages/CampaignPage/CampaignPage.jsx:237-242 | the loop over the saved rows builds exactly the quantities the specification function gives |
| OrderItemSync.LoadFrom | src/pages/CampaignPage/CampaignPage.jsx:237-242 | the reload loop from a given start: each saved row whose product is in the catalogue sets that product's quantity, later rows overriding earlier ones; a definition, whose properties are stated by `OrderItemSync.LoadFromDistinct` |
| OrderItemSync.Load | src/pages/CampaignPage/CampaignPage.jsx:237-244 | `nextQuantities` as reloaded from the saved rows; a definition, which `OrderItemSync.ReloadQuantities` implements and `OrderItemSync.LoadAfterSync` and `OrderItemSync.ReloadAfterReplace` relate to a sync |
| OrderItemSync.LoadFromDistinct | src/pages/CampaignPage/CampaignPage.jsx:237-242 | reloading keeps the quantity map free of duplicate keys |
| OrderItemSync.LoadAfterSync | src/pages/CampaignPage/CampaignPage.jsx:237-242 | with distinct product names, reading back the synced lines gives each selected product its quantity and nothing else |
| OrderItemSync.ReloadAfterReplace | src/pages/CampaignPage/CampaignPage.jsx:225-249 | the same round trip through the table: the order's rows after a sync reload as the selected quantities |
| OrderItemSync.Submit | src/pages/CampaignPage/CampaignPage.jsx:297-387 | a failed check changes nothing; without an order a draft order is created first; once there is an order, a failed delete reports the delete error and leaves the rows as they were, a failed insert reports the insert error and leaves the order without rows, and otherwise the page moves on with the order's rows the selected lines, other orders' rows untouched, and the carried summary the page's |
| OrderItemSync.DeleteEmptiesOrder | src/pages/CampaignPage/CampaignPage.jsx:263-275 | after the delete alone the order has no rows and every other order keeps its own |
| PaymentChoice.NoPackageNoDiscount | src/pages/PaymentChoice/PaymentChoice.jsx:25-31 | without a reached package both rates and both discounts are 0 |
| PaymentChoice.CashAmount | src/pages/PaymentChoice/PaymentChoice.jsx:28-30 | no package gives no cash discount; with a non-negative subtotal, a non-negative rate gives a non-negative amount and a rate up to 100 never more than the subtotal |
| PaymentChoice.CheckAmount | src/pages/PaymentChoice/PaymentChoice.jsx:29-31 | the same bounds for the cheque rate |
| PaymentChoice.ExtraCashBenefit | src/pages/PaymentChoice/PaymentChoice.jsx:32 | the extra cash benefit is non-negative, and positive exactly when the cash discount exceeds the cheque discount |
| PaymentChoice.Select | src/pages/PaymentChoice/PaymentChoice.jsx:34-48 | cash gives the cash amount off, cheque the cheque amount, no choice nothing; payable is the subtotal minus that discount, clamped at 0; item count and subtotal are carried over |
| PaymentChoice.CashHintMeansCashIsCheaper | src/pages/PaymentChoice/PaymentChoice.jsx:270 | when the cash hint shows under a cheque choice, cash costs no more than cheque, and its discount is larger by exactly the extra cash benefit |
| PaymentChoice.CashMatchesProductPage | src/pages/PaymentChoice/PaymentChoice.jsx:28-45 | for packages whose carried cash rate is their discount, choosing cash gives the campaign page's discount and payable amount |
| PaymentChoice.NormalizedPackagesQualify | src/pages/CampaignPage/CampaignPage.jsx:161-175 | every package kept by either mapping, the as-written one and the corrected one, is well formed and carries its discount as its cash rate, so the previous row applies to it |
| PaymentChoice.PriceMapGet | src/pages/PaymentChoice/PaymentChoice.jsx:79 | a price is found exactly when some row has the name, and it is the price of the last such row |
| PaymentChoice.UnitPrice | src/pages/PaymentChoice/PaymentChoice.jsx:79-86 | a product with no price row is priced 0 |
| PaymentChoice.PriceLines | src/pages/PaymentChoice/PaymentChoice.jsx:81-90 | one invoice line per order row, with its name and quantity, the looked-up unit price and the line total; every price is 0 when the product list could not be read |
| PaymentChoice.InvoiceRows | src/pages/PaymentChoice/PaymentChoice.jsx:108 | no lines give the single placeholder row; otherwise one row per line |
| PaymentChoice.HandleDownload | src/pages/PaymentChoice/PaymentChoice.jsx:100-108 | an invoice is produced exactly when a method is chosen and no download runs; it is never empty and it is the lines when there are any |
| PaymentChoice.Confirm | src/pages/PaymentChoice/PaymentChoice.jsx:212-246 | nothing while loading or unchosen; the order becomes `submitted` with its payment type, else with status alone; two failures change nothing; moving on means the order is `submitted` |
| Board.BoardCampaign | src/pages/CampaignPage/Board/Board.jsx:15-20 | a campaign found has exactly the typed slug |
| Board.SlugCaseDivergence | src/pages/CampaignPage/Board/Board.jsx:19 | an address with capitals opens the campaign on the welcome page but finds nothing on the board |
| Board.BoardStatus | src/pages/CampaignPage/Board/Board.jsx:22-27 | the board is live exactly when a campaign is found with status `active` |
| Board.TotalSplitsAtOrder | src/pages/CampaignPage/Board/Board.jsx:30-45 | the campaign total is one order's items plus the other orders' items |
| Board.CampaignTotal | src/pages/CampaignPage/Board/Board.jsx:30-45 | the board's total: the sum of the quantities of every row whose order belongs to the campaign; a definition, whose properties are stated by the lemmas around it |
| Board.OtherOrderNotCounted | src/pages/CampaignPage/Board/Board.jsx:35-39 | items of an order of another campaign do not count |
| Board.TotalAfterSync | src/pages/CampaignPage/Board/Board.jsx:30-45 | replacing the rows of one of the campaign's orders changes the total by the new lines' quantities minus the old rows'; for any other order the total is unchanged |
| Board.SyncOwnOrder | src/pages/CampaignPage/Board/Board.jsx:30-45 | a sync of one of the campaign's orders moves the total by the difference in that order's quantities |
| Board.SyncOtherOrder | src/pages/CampaignPage/Board/Board.jsx:30-45 | a sync of another campaign's order leaves the total unchanged |
| Board.InsertRefreshesIffCounted | src/pages/CampaignPage/Board/Board.jsx:57-67 | an inserted row triggers a reload exactly when its order belongs to this campaign, and a row that is skipped leaves the total unchanged |
| Board.ShouldRefresh | src/pages/CampaignPage/Board/Board.jsx:57-67 | `refreshIfSameCampaign`: recompute only when the event's order id names an order of this campaign; a definition, whose consequences are stated by `Board.InsertRefreshesIffCounted` and `Board.DeleteWithoutOrderIdIgnored` |
| Board.DeleteWithoutOrderIdIgnored | src/pages/CampaignPage/Board/Board.jsx:84 | a delete event whose old row carries no order id never triggers a reload |
| Board.Step | src/pages/CampaignPage/Board/Board.jsx:96-99 | a step has the sign of the remaining difference, is at least 1 in size, and is never larger than the difference |
| Board.StepRoundsAwayFromZero | src/pages/CampaignPage/Board/Board.jsx:96-99 | the step is the difference over 700 rounded away from zero: upwards the least `s` with `700 * s >= d`, downwards the greatest `s` with `700 * s <= d` |
| Board.NextShown | src/pages/CampaignPage/Board/Board.jsx:102-108 | one tick moves the number towards the total and never past it |
| Board.Counter.constructor | src/pages/CampaignPage/Board/Board.jsx:10-13 | the counter starts at 0 shown and 0 read |
| Board.Counter.Refresh | src/pages/CampaignPage/Board/Board.jsx:30-45 | a successful read sets the total to the campaign total; a failed one keeps it; the number shown is untouched |
| Board.Counter.OnChange | src/pages/CampaignPage/Board/Board.jsx:57-86 | a realtime event rereads the total only for an order of this campaign |
| Board.Counter.Tick | src/pages/CampaignPage/Board/Board.jsx:93-110 | nothing happens when the number shown is the total; otherwise it takes one step towards it |
| Board.Counter.Settle | src/pages/CampaignPage/Board/Board.jsx:93-113 | repeated ticks land exactly on the total, within as many ticks as the gap |
| Admin.Slug | src/pages/Admin/Admin.jsx:54 | a slug has no white space, is lower case, and is empty exactly when the name is blank |
| Admin.SlugIdempotent | src/pages/Admin/Admin.jsx:54 | deriving a slug from a slug gives it back |
| Admin.AddressFindsCampaign | src/pages/Admin/Admin.jsx:54 | the welcome page's lower-casing lookup of a campaign's own slug finds that campaign |
| Admin.SetField | src/pages/Admin/Admin.jsx:42 | the named field takes the value and the other fields are kept |
| Admin.AddPackageRow | src/pages/Admin/Admin.jsx:28-38 | adding keeps the earlier rows and appends one row with the given id and every field blank |
| Admin.AddKeepsIdsDistinct | src/pages/Admin/Admin.jsx:28-38 | adding a row with an id not in use keeps the row ids distinct |
| Admin.UpdatePackage | src/pages/Admin/Admin.jsx:40-44 | the row with that id gets the field value, every other row is unchanged, and the row count is kept |
| Admin.UpdateAbsentId | src/pages/Admin/Admin.jsx:40-44 | updating an id that is not present changes nothing |
| Admin.RemovePackage | src/pages/Admin/Admin.jsx:46-48 | every remaining row has another id and came from the rows, and every row with another id remains |
| Admin.RemovePackageConcat | src/pages/Admin/Admin.jsx:46-48 | removal keeps the rows' order: removing from two stretches of rows is removing from each, one after the other |
| Admin.RemovePackageSingle | src/pages/Admin/Admin.jsx:46-48 | a single row stays, once, exactly when its id differs; with the previous row this fixes the result, order and multiplicity included |
| Admin.RemoveAt | src/pages/Admin/Admin.jsx:46-48 | with distinct ids, removing a row leaves the rows before and after it |
| Admin.RemoveUndoesAdd | src/pages/Admin/Admin.jsx:28-48 | removing the row just added restores the rows |
| Admin.Clean | src/pages/Admin/Admin.jsx:68-79 | every cleaned package is admissible (titled, positive minimum, discount in 0..100), and none is left exactly when no row qualifies |
| Admin.CleanedPackages | src/pages/Admin/Admin.jsx:68-79 | at most one record per row, and every record is admissible for the new campaign |
| Admin.NothingCleanedIff | src/pages/Admin/Admin.jsx:81 | nothing is inserted exactly when no row qualifies |
| Admin.UntitledRowNotStored | src/pages/Admin/Admin.jsx:75-79 | a row with a blank title is not stored |
| Admin.BlankRowNotStored | src/pages/Admin/Admin.jsx:68-79 | the blank row the form adds is not stored |
| Admin.TypedPackageStored | src/pages/Admin/Admin.jsx:68-79 | a row typed with a non-blank title, a positive minimum and a percentage in 1..100 is stored with those values |
| Admin.DiscountOverHundredRefused | src/pages/Admin/Admin.jsx:78 | a percentage above 100 is not stored |
| Admin.FilteredCampaigns | src/pages/Admin/Admin.jsx:97 | the tab shows exactly the campaigns whose status is the filter, and no more of them than the list has |
| Admin.FilteredCampaignsConcat | src/pages/Admin/Admin.jsx:97 | the tab keeps the list order: filtering two stretches of the list is filtering each, one after the other |
| Admin.FilteredCampaignsSingle | src/pages/Admin/Admin.jsx:97 | a single campaign is shown, once, exactly when its status is the tab; with the previous row this fixes the result, order and multiplicity included |
| Admin.EndingMovesTab | src/pages/Admin/Admin.jsx:97 | after ending a campaign it leaves the `active` tab and appears in the `ended` tab |
| Admin.NewestFirst | src/pages/Admin/Admin.jsx:18 | the list is the rows read, in reverse order, so the newest comes first |
| Admin.NewestFirstDescending | src/pages/Admin/Admin.jsx:18 | campaigns read in creation order are listed in decreasing id order |
| Admin.StorePackages | src/pages/Admin/Admin.jsx:81-90 | packages are inserted only when there are any; a failure stores none |
| Admin.AdminPage.constructor | src/pages/Admin/Admin.jsx:8-11 | the page starts with no campaigns, a blank form, no package rows and the `active` tab |
| Admin.AdminPage.Shown | src/pages/Admin/Admin.jsx:97 | the campaigns shown are those of the list with the selected status |
| Admin.AdminPage.FetchCampaigns | src/pages/Admin/Admin.jsx:14-22 | a successful read replaces the list by the table newest first; a failed one keeps it |
| Admin.AdminPage.FinishCreate | src/pages/Admin/Admin.jsx:81-94 | cleaned packages are stored when there are any, then the form is reset and the list read again |
| Admin.AdminPage.HandleCreateCampaign | src/pages/Admin/Admin.jsx:50-95 | a blank name does nothing; a failed or slug-clashing insert changes nothing; otherwise the campaign is added as `active` with its cleaned packages and the form is reset |
| Customers.OrDash | src/pages/Admin/CampaignCustomers.jsx:43-44 | a missing or empty value becomes `-`, any other is kept |
| Customers.KeyOf | src/pages/Admin/CampaignCustomers.jsx:38 | the customer key `phone::name`; a definition, whose (limited) injectivity is stated by `Customers.KeyDeterminesCustomer` |
| Customers.KeyDeterminesCustomer | src/pages/Admin/CampaignCustomers.jsx:38 | for phones without `:`, equal keys mean equal name and phone |
| AssocList.AddTo | src/pages/Admin/CampaignCustomers.jsx:54 | adding a quantity to a product adds it to what that product reads and leaves every other product as it was |
| Customers.AddItemsLookup | src/pages/Admin/CampaignCustomers.jsx:52-55 | merging items adds, for each product, the items' quantities of that product to its total |
| Customers.AddItemsWellFormed | src/pages/Admin/CampaignCustomers.jsx:52-55 | merging items with positive quantities keeps one entry per product, each with a positive quantity |
| Customers.GroupedKeys | src/pages/Admin/CampaignCustomers.jsx:38-48 | there is one group per customer key, and a group exactly for the keys that bought something |
| Customers.AddOrder | src/pages/Admin/CampaignCustomers.jsx:28-56 | one step of the `forEach`: an order without surviving items changes nothing, otherwise it opens or extends its key's group; a definition, which `Customers.MergeOrder` implements |
| Customers.Grouped | src/pages/Admin/CampaignCustomers.jsx:26-58 | the grouped map's values, in insertion order; a definition, whose properties are stated by `Customers.GroupedKeys`, `Customers.GroupedBuy` and `Customers.GroupedFacts` |
| Customers.GroupedBuy | src/pages/Admin/CampaignCustomers.jsx:28-56 | each product total in a group is the sum of that customer's positive quantities of it |
| Customers.GroupedFacts | src/pages/Admin/CampaignCustomers.jsx:25-56 | the groups are well formed, keyed uniquely, named by a matching order, and total what the customer bought |
| Customers.RowOfGroup | src/pages/Admin/CampaignCustomers.jsx:58-67 | a customer row carries the group's name, phone and items sorted by product name |
| Customers.CustomerRows | src/pages/Admin/CampaignCustomers.jsx:58-68 | the customer rows are sorted by name |
| Customers.CustomerRowsFaithful | src/pages/Admin/CampaignCustomers.jsx:25-69 | the rows are sorted by name and each row faithfully reports one group |
| Customers.CustomerRowsKeys | src/pages/Admin/CampaignCustomers.jsx:38-58 | row keys are distinct, and there is a row for a key exactly when that customer bought something |
| Customers.MergeItems | src/pages/Admin/CampaignCustomers.jsx:52-55 | the inner loop builds exactly the merged items of the specification |
| Customers.MergeOrder | src/pages/Admin/CampaignCustomers.jsx:29-55 | the outer loop body adds one order's items to its customer's group as specified |
| Customers.BuildCustomerRows | src/pages/Admin/CampaignCustomers.jsx:25-69 | the loops build exactly the customer rows of the specification |
| Customers.LoadPage | src/pages/Admin/CampaignCustomers.jsx:71-115 | no campaign gives the not-found state, and a failed order read its own state; with both reads done the page is loaded with the campaign's name or `-` and exactly the built customer rows |
| Customers.ReplaceReserved | src/pages/Admin/CampaignCustomers.jsx:22 | every reserved file-name character becomes `_` and every other character is kept |
| Customers.SanitizeFileName | src/pages/Admin/CampaignCustomers.jsx:20-23 | a sanitised name is never longer than the value and has no white space |
| Customers.SanitizedIsSafe | src/pages/Admin/CampaignCustomers.jsx:20-23 | a sanitised file name has no reserved character and no white space, and is empty exactly when the name is blank |
| Customers.SanitizeIdempotent | src/pages/Admin/CampaignCustomers.jsx:20-23 | sanitising a sanitised name changes nothing |
| Customers.CustomerSheet | src/pages/Admin/CampaignCustomers.jsx:117-128 | a sheet exists exactly when the customer has items, with one line per item carrying the campaign, the customer and the item |
| Customers.CustomerFileName | src/pages/Admin/CampaignCustomers.jsx:134-136 | a buyer's file name ends in `_Orders.xlsx` |
| Customers.CustomerFileNameIsSafe | src/pages/Admin/CampaignCustomers.jsx:134-136 | a buyer's file name has no reserved character and no white space |
| Customers.EveryRowDownloads | src/pages/Admin/CampaignCustomers.jsx:117-118 | every listed customer has a positive item total, so the download guard never stops a listed row |
| Campane.CampaignOrders | src/Components/Campane/Campane.jsx:67-78 | the read returns no more orders than the table has; the four lemmas below characterise it |
| Campane.CampaignOrdersSound | src/Components/Campane/Campane.jsx:67-78 | every order read belongs to the campaign and carries its own name, phone and rows |
| Campane.CampaignOrdersComplete | src/Components/Campane/Campane.jsx:67-78 | every order of the campaign is read, with its own rows |
| Campane.CampaignOrdersConcat | src/Components/Campane/Campane.jsx:67-78 | the orders come in table order: reading two stretches of the table is reading one after the other |
| Campane.CampaignOrdersSingle | src/Components/Campane/Campane.jsx:67-78 | one order is read, once, exactly when it belongs to the campaign; with the previous row this fixes the result |
| Campane.OrderRows | src/Components/Campane/Campane.jsx:96-105 | an order contributes one row per item with a positive quantity, in order, carrying the campaign name and the order's customer |
| Campane.ExportRows | src/Components/Campane/Campane.jsx:93-106 | every export row carries the campaign's name and a positive quantity |
| Campane.ExportRowsCharacterised | src/Components/Campane/Campane.jsx:95-106 | every row has a positive quantity and the campaign's name and comes from an item of one order with that order's customer; every positive item has its row |
| Campane.BuildExportRows | src/Components/Campane/Campane.jsx:93-106 | the nested loops build exactly the export rows of the specification |
| Campane.CollectOrderRows | src/Components/Campane/Campane.jsx:96-104 | the inner loop yields exactly the rows of one order: one per positive item, in order |
| Campane.HandleDownload | src/Components/Campane/Campane.jsx:62-125 | busy while a download runs; an alert for a failed read, for a campaign with no orders in the store, or when no order has a positive item; otherwise a non-empty sheet of the export rows of the campaign's orders, named after the campaign |
| Campane.ExportFileName | src/Components/Campane/Campane.jsx:118 | the file name is the campaign's name followed by `_Orders.xlsx` |
| Campane.ExportRowsEmpty | src/Components/Campane/Campane.jsx:108-112 | there is nothing to export exactly when no order has an item with a positive quantity |
| Campane.DownloadDisabledOnlyWhileLoading | src/Components/Campane/Campane.jsx:170 | the download button's status test compares a boolean with a string, so only a running download disables it, unlike the end button |
| Campane.HandleEnd | src/Components/Campane/Campane.jsx:14-31 | nothing while a request runs; a failure changes nothing; otherwise only that campaign's status becomes `ended` |
| Campane.HandleDelete | src/Components/Campane/Campane.jsx:33-60 | nothing while a request runs or without confirmation; a failure changes nothing; otherwise the `campaigns` row of that campaign is removed and no other table changes (no cascade is modelled) |
| Product.StepsUndoEachOther | src/Components/Product/Product.jsx:6-12 | before the page clamps, the minus step undoes the plus step and the plus step undoes the minus step |
| Product.Forwarded | src/Components/Product/Product.jsx:6-12 | a button forwards the quantity moved by six either way; typed text forwards exactly the integer it reads as, and nothing when it reads as no integer |
| Product.Apply | src/pages/CampaignPage/CampaignPage.jsx:440-444 | an edit of one row leaves every other product's quantity alone, and the row's quantity is never negative |
| Product.PlusAddsSix | src/Components/Product/Product.jsx:6-8 | the plus button adds six to the product's quantity and leaves every other product alone |
| Product.MinusClampsAtZero | src/Components/Product/Product.jsx:10-12 | the minus button takes six away, clamped at 0, so fewer than six empties the row; other products are left alone |
| Product.PlusThenMinusRestores | src/Components/Product/Product.jsx:6-12 | plus then minus restores the quantity the product had and leaves every other product alone |
| Product.TypedForwards | src/Components/Product/Product.jsx:31-32 | text that reads as an integer is forwarded as that integer |
| Product.ForwardedIsClamped | src/pages/CampaignPage/CampaignPage.jsx:289-295 | whatever the edit forwards, the page stores it clamped at 0 |
| Product.TypedIntegerIsClamped | src/Components/Product/Product.jsx:31-32 | a typed integer is stored clamped at 0 |
| Product.TypedNumberIsKept | src/Components/Product/Product.jsx:31-32 | the decimal rendering of a natural number is stored as that number |
| Product.TypedBlankOrJunkEmpties | src/Components/Product/Product.jsx:31-32 | blank text or text that is not a number sets the quantity to 0 |
| JsNumber.Parse | src/Components/Product/Product.jsx:32 | blank text, the cleared field included, reads as 0 |
| JsNumber.ParseNatToString | src/Components/Product/Product.jsx:30-32 | round trip: the decimal rendering of a natural number reads back as that number |
| JsNumber.ParseNegativeNatToString | src/Components/Product/Product.jsx:30-32 | round trip: `-` and the rendering of a natural number reads back as its negation |
| AdminAuth.NoUserIsNeverAdmin | src/lib/adminAuth.js:4 | without a user nobody is admin |
| AdminAuth.ConfiguredEmail | src/lib/adminAuth.js:1 | `ADMIN_EMAIL`: the setting trimmed and lower-cased, or empty when unset; a definition, whose consequences are stated by `AdminAuth.BlankSettingConfiguresNothing` and `AdminAuth.MatchingEmailIsAdmin` |
| AdminAuth.IsAdminUser | src/lib/adminAuth.js:3-12 | `isAdminUser`: a user with the `admin` role, or, with an address configured, one whose lower-cased e-mail is that address; a definition, whose properties are stated by the lemmas below |
| AdminAuth.AdminRoleSuffices | src/lib/adminAuth.js:6-7 | the `admin` role suffices whatever the e-mail |
| AdminAuth.BlankSettingConfiguresNothing | src/lib/adminAuth.js:1 | a missing or blank setting configures no address |
| AdminAuth.NoAddressOnlyRoleCounts | src/lib/adminAuth.js:9-11 | with no address configured, a user is admin exactly when they hold the role |
| AdminAuth.EmailDecidesWithoutRole | src/lib/adminAuth.js:9 | without the role, a user is admin exactly when an address is configured and their lower-cased e-mail equals it |
| AdminAuth.MatchingEmailIsAdmin | src/lib/adminAuth.js:1-9 | an e-mail equal, up to case, to the trimmed setting makes the user admin |
| AdminAuth.EmailCaseIgnored | src/lib/adminAuth.js:9 | e-mails differing only in case give the same answer |
| AdminAuth.UntrimmedEmailNeverMatches | src/lib/adminAuth.js:1-9 | an e-mail starting with white space never matches, so such a user needs the role |
| Store.CampaignBySlug | src/pages/Welcome/Welcome.jsx:23-27 | a campaign found has that slug; with unique slugs one is found exactly when the slug is in use |
| Store.OrderById | src/pages/CampaignPage/Board/Board.jsx:35-39 | the order found has that id; none is found only when no order has it |

## Left out

- All network traffic is left out. Each Supabase request is one `Store.Db` method, and
  the service's error is a boolean argument. Row ids come from a counter: that stands
  for `crypto.randomUUID` and for the `created_at` order.
- The unique `slug` column is a precondition kept by `Store.Db.Valid`. `Db.InsertCampaign`
  refuses a slug already in use, which is how the service answers that insert.
- Realtime subscriptions are left out, along with `removeChannel` and timers: the 70 ms
  interval, the effect clean-ups and the concurrency between overlapping effects. The
  board's events arrive one at a time as method calls, and `Board.Counter.Settle` runs
  the ticks in sequence.
- React is left out as a runtime. This covers state batching, re-renders, navigation
  (modelled as an outcome value), alerts and confirmations (outcomes or a `confirmed`
  argument), console logging and thrown exceptions.
- A page's text and layout are left out: current-status messages, loading texts,
  `toLocaleString` amounts, `toBenefitText`, progress hints and `nextPackageHintText`.
- Spreadsheet (XLSX) and PDF generation are left out. The model stops at the rows and
  the file name each download would write.
- `src/data/products.js` is not part of this model. The built-in catalogue is a
  parameter of `CampaignPage.Catalog`.
- The campaign page's status check and its redirect effects are left out. They repeat
  the welcome page's lower-cased lookup (`Welcome.CampaignFor`) and the
  `status || 'missing'` rule of `Board.BoardStatus`.
- The admin page's route guard is left out. `AdminAuth` models only the predicate it
  calls.
- `ADMIN_EMAIL` is a parameter, since it is computed once from the environment when
  the module loads.
- JsNumber.Parse: models `Number(text)` for decimal literals only. Exponent,
  hexadecimal, binary and octal literals, `Infinity` and digit separators read as
  not-a-number.
- JsNumber.FromRaw: any non-finite cell counts as not-a-number.
- Product.Forwarded: a typed fraction is treated like text that is not a number, so it
  forwards 0. The source would forward the fraction, and the page would clamp it and
  store it.
- Text.ToLower: lower-cases ASCII letters only. Other scripts are kept unchanged.
- Collation.SortBy: sorts by code-point order instead of `localeCompare(_, 'fa')`.
  `localeCompare` can rank two different strings as equal where code-point order
  separates them, so the model may order such rows differently. Its contract states
  sortedness and a permutation only; whether equal keys keep their order is not
  stated.
- Campane.HandleDelete: removes only the `campaigns` row. Whether the database also
  deletes the campaign's packages, orders and order rows through foreign keys depends on
  the schema, which is not part of this model.
- Store.CampaignBySlug: models both `.single()` and `.maybeSingle()` as "a row exactly
  when one row matches". The error they report for no rows or several rows is not
  modelled.
- Customers.KeyDeterminesCustomer: holds only for phones without `:`. The key
  `phone::name` (`phone + "::" + user_name`) is not injective when a phone contains `:`, and the model keeps the
  source's key.
- Where the pages, or two controls on one page, disagree with each other, each keeps its
  own behaviour:
  - The board looks campaigns up by the slug as typed, while the welcome page
    lower-cases it (`Board.SlugCaseDivergence`).
  - The campaign page accepts discounts above 100 percent, which the admin page refuses
    (`CampaignPage.LargeDiscountMakesOrderFree`, `Admin.DiscountOverHundredRefused`).
  - The export button's status test never disables it
    (`Campane.DownloadDisabledOnlyWhileLoading`).

## Findings

| source | as written | input that shows it | evidently intended | confidence | as-written member | corrected member |
|---|---|---|---|---|---|---|
| src/pages/CampaignPage/CampaignPage.jsx:167-169 | `Number.isFinite(Number(pkg.cash_discount_percent))` chooses the cash rate. `Number(null)` is 0, which is finite, so a package with no stored cash rate gets discount 0. | A package created on the admin page, which stores only `discount_percent`: `Gold`, minimum 12, 5 percent. An order of 24 items over 1,000,000 gets discount 0. | Fall back to `discount_percent` when no cash rate is stored. That order then gets discount 50,000. | not executed | CampaignPage.AdminPackageCheckout | CampaignPage.NormalizePackages |

`CampaignPage.NormalizePackagesAsWritten` and `CampaignPage.AdminPackageDiscount` state
the as-written behaviour in general. The rest of the model uses the corrected
`CampaignPage.NormalizePackages`, through `CampaignPage.Candidates`.
