# Storefront scripts of a Shopify theme, modelled in Dafny

This project models the browser scripts of a Shopify storefront theme (T4S) that add
merchandising rules the theme lacks. The page's DOM, the network and the timers are taken
away. What is left is four small rule sets, stated over plain data:

- **Bundle picker** (`assets/bundle-collection-manager.js`). On a bundle collection page the
  shopper picks exactly `maxProducts` products.
  - The bundle is chosen from the page path.
  - Each product is priced by its cheapest eligible variant.
  - The selection is a capacity-bounded map. A snapshot ladder backs it up: an in-memory
    snapshot, a five-minute session record, a window backup and a read-once local record.
  - After the grid is re-rendered, the selected cards are marked again.
  - The finished bundle is posted as one cart line whose properties are numbered.
- **Quantity limiter** (`assets/quantity-limiter.js`). Products of configured collections are
  limited per customer.
  - The limiter decides whether an add may proceed.
  - It merges an add into an existing line as `min(existing + requested, max)`.
  - It clamps quantity inputs.
  - It rewrites the cart so that each limited product has at most one non-empty line
    within its limit.
- **Free-gift popup** (`assets/cart-free-product-popup.js`). Once the cart total reaches a
  threshold, a popup offers gifts. The shopper selects up to `maxFreeProducts` of them, and
  the first selection is added as a marked free line. A session flag, or a gift already in
  the cart, settles the offer.
- **Gift search filter** (`assets/gift-collection-filter.js`). Queries that name the gift
  collection are refused, in the URL and in search forms. Cached search keys are cleared
  from both web storages.

How the model is built:

- Cart lines, variants and products are datatypes in `Shop`.
- The objects whose fields the scripts update in place are classes:
  - `BundleSelection.BundleSession`;
  - `QuantityLimiter.Limiter`;
  - `FreeGiftPopup.GiftPopup`;
  - `GiftSearchFilter.WebStorage`.
- The loops of the scripts are methods proved against specification functions.
- The JavaScript string operations the scripts rely on are in `Text`:
  - `includes` / `indexOf`;
  - ASCII `toLowerCase`;
  - `trim`;
  - first-occurrence `replace`;
  - the placeholder loop.

Two behaviours of the storage tiers are easy to misread; the model states them as the code
has them:

- The session record is the tier with the five-minute age check. The local record has no
  age check at all (assets/bundle-collection-manager.js:526, 547-555).
- `saveSelectionSnapshot` overwrites the snapshot even with an empty selection
  (assets/bundle-collection-manager.js:495-496). `EmptySaveHidesBackups` shows the
  consequence.

## Model

| member | source | states |
|---|---|---|
| BundleCatalog.ConfigAsWritten | assets/bundle-collection-manager.js:84-92 | The lookup as written: the first configuration whose `/collections/<handle>` occurs anywhere in the path (its properties are stated by `FirstConfigIndex` and `AsWrittenPicksWrongBundle`) |
| BundleCatalog.FirstConfigIndex | assets/bundle-collection-manager.js:86-91 | The index returned matches and every earlier configuration does not; `None` means no configuration matches |
| BundleCatalog.AsWrittenPicksWrongBundle | assets/bundle-collection-manager.js:59-92 | On `/collections/bundle-15` the lookup as written returns the `bundle-1` configuration, not `bundle-15` |
| BundleCatalog.CurrentBundleConfig | assets/bundle-collection-manager.js:84-92 | Corrected lookup: a result is a listed configuration whose handle is a whole path segment; `None` means no configuration's handle is |
| BundleCatalog.CurrentBundleConfigOwnPage | assets/bundle-collection-manager.js:59-92 | Each bundle's own collection page selects exactly that bundle |
| BundleCatalog.HandleFromHref | assets/bundle-collection-manager.js:314-320 | A handle is extracted exactly when the link contains `/products/` |
| BundleCatalog.HandleFromHrefRoundTrip | assets/bundle-collection-manager.js:320 | The handle holds no `?`, `#` or `/products/`, and the link it came from contains `/products/<handle>`, so the handle fallback of the re-marking step finds it again |
| BundleCatalog.CheapestEligibleFrom | assets/bundle-collection-manager.js:333-339 | The chosen variant is available and priced at most `maxVariantPrice`×100; no eligible variant is cheaper, and none earlier is as cheap; `None` means none is eligible |
| BundleCatalog.CheapestEligibleExists | assets/bundle-collection-manager.js:337 | A variant is chosen exactly when some variant is eligible |
| BundleCatalog.KeyIndex | assets/bundle-collection-manager.js:155-156 | Finds the first replacement of a given name, or proves there is none |
| BundleCatalog.Translate | assets/bundle-collection-manager.js:149-164 | `t`: the caller's replacements, plus `max` and `price` from the bundle when the caller gave none, fill the template's placeholders in order |
| BundleCatalog.ArgsWithOne | assets/bundle-collection-manager.js:154-157 | With one caller replacement, `max` and then `price` are appended |
| BundleCatalog.TranslateOneSlot | assets/bundle-collection-manager.js:149-164 | A one-slot template such as `almostThere` is filled with the caller's value and nothing else changes |
| BundleCatalog.TranslateSelected | assets/bundle-collection-manager.js:649-652 | The `selected` text shows the count and the bundle's `maxProducts` |
| BundleCatalog.TranslateBundleOnly | assets/bundle-collection-manager.js:149-164 | A template with only `{max}` and `{price}` receives the bundle's size and price |
| BundleSelection.Remove | assets/bundle-collection-manager.js:611 | `Map.delete`: the id is gone, every other id stays, ids stay distinct, the size drops by one exactly when the id was present, and an absent id leaves the selection unchanged (`RemoveSplices` states that the other entries keep their lookups and order) |
| BundleSelection.RemoveSplices | assets/bundle-collection-manager.js:611 | Deleting the id held by entry `k` of a map cuts out exactly that entry: the result is `sel[..k] + sel[k + 1..]`, so every other entry keeps its lookup and its place in insertion order |
| BundleSelection.ToggleSelection | assets/bundle-collection-manager.js:606-631 | A present id is removed by `Remove` whatever the size, so the other entries keep their lookups and order; an absent id is added with its handle (or `true`) when there is room, leaving `maxProducts - size` places; at capacity nothing changes; size ≤ maxProducts and distinct ids are preserved |
| BundleSelection.ToggleTwiceSameMembers | assets/bundle-collection-manager.js:610-617 | Toggling one product twice gives back the same members whenever the first toggle was not refused |
| BundleSelection.ToggleAllFills | assets/bundle-collection-manager.js:614-617 | Toggling new, distinct products fills the selection one place each until it reaches `maxProducts` and never beyond |
| BundleSelection.RestoreChoice | assets/bundle-collection-manager.js:510-559 | The chosen source is usable at `now` and every source of higher precedence is not; `None` means no source is usable |
| BundleSelection.SaveThenRestore | assets/bundle-collection-manager.js:495-517 | After a non-empty save, the next restore takes the in-memory snapshot, which is exactly the saved selection |
| BundleSelection.EmptySaveHidesBackups | assets/bundle-collection-manager.js:495-531 | Saving an empty selection overwrites the session record, and for five minutes a restore brings back the empty selection instead of an older backup |
| BundleSelection.RestoreCanExceedCapacity | assets/bundle-collection-manager.js:519-531 | The backups are not kept per bundle, so a restore can bring back 15 products on a page whose bundle holds 5 |
| BundleSelection.FirstWithId | assets/bundle-collection-manager.js:581 | The first card stamped with the id, or none |
| BundleSelection.FirstWithHandle | assets/bundle-collection-manager.js:584-588 | The first card whose link contains `/products/<handle>`, or none |
| BundleSelection.MarkAll | assets/bundle-collection-manager.js:579-599 | Marking entries changes no card's link and keeps the grid's length |
| BundleSelection.ClearMarks | assets/bundle-collection-manager.js:574-576 | Every card loses its mark and nothing else changes |
| BundleSelection.ReappliedIdempotent | assets/bundle-collection-manager.js:562-603 | Re-marking a second time changes nothing when the ids are distinct and the first pass found distinct cards |
| BundleSelection.ReappliedTwiceCanDiffer | assets/bundle-collection-manager.js:579-595 | Without distinct targets a second re-marking gives a different grid (a concrete two-card page) |
| BundleSelection.KnownInfos | assets/bundle-collection-manager.js:973-980 | At most one entry per selected product, and one for each of them when the page has data for every selected id (which entries, and in which order, is stated by `KnownInfosMembers` and `KnownInfosAllKnown`) |
| BundleSelection.KnownInfosMembers | assets/bundle-collection-manager.js:973-980 | The bundle line lists the data of every selected product the page knows, and nothing else |
| BundleSelection.KnownInfosAllKnown | assets/bundle-collection-manager.js:973-980 | When the page knows every selected product, the bundle line lists their data in selection order, one per product |
| BundleSelection.NumberItems | assets/bundle-collection-manager.js:972-980 | The items are the known selected products, in selection order, numbered 1, 2, … without gaps |
| BundleSelection.BundleSession.constructor | assets/bundle-collection-manager.js:94-105 | The state `init` starts from: the given bundle configuration, an empty selection, no product data, and the grid and backups as found; the add button is enabled exactly when the selection is full |
| BundleSelection.Init | assets/bundle-collection-manager.js:167-195 | Off a bundle collection page no session starts; on one, the selection after start-up is what the restore ladder chooses, or the window backup when the ladder brought back an empty record, and the grid is re-marked whenever something was restored |
| BundleSelection.StartSelectionKeepsWindow | assets/bundle-collection-manager.js:186-195 | A non-empty window backup is never lost at start-up, and the start-up selection is the content of a usable backup and holds distinct ids |
| BundleSelection.BundleSession.RestoreWindow | assets/bundle-collection-manager.js:190-194 | The window backup becomes the selection and the grid is re-marked with it |
| BundleSelection.BundleSession.SetupCard | assets/bundle-collection-manager.js:310-394 | A card becomes selectable exactly when its link yields a handle, its product is fetched and a variant is eligible; the product is then recorded and the card is stamped with the id, keeps or gains its mark, and loses its link |
| BundleSelection.BundleSession.ToggleProduct | assets/bundle-collection-manager.js:606-666 | The selection follows `ToggleSelection`; the card's mark follows the outcome; the notice fires only when 1–3 places remain; the add button is enabled exactly when the count equals `maxProducts` |
| BundleSelection.BundleSession.Save | assets/bundle-collection-manager.js:495-507 | The snapshot and the session record become the current selection at `now`, even when it is empty |
| BundleSelection.BundleSession.Unload | assets/bundle-collection-manager.js:223-232 | Leaving the page always saves; a non-empty selection is also written to the local record |
| BundleSelection.BundleSession.ClearPage | assets/bundle-collection-manager.js:574-576 | The loop leaves every card unmarked |
| BundleSelection.BundleSession.MarkPage | assets/bundle-collection-manager.js:573-602 | The loops leave the grid re-marked as `Reapplied` describes, and the add button reflects the count |
| BundleSelection.BundleSession.Restore | assets/bundle-collection-manager.js:510-559 | The selection comes from `RestoreChoice`; the grid is re-marked; only the local record is consumed; with no usable source nothing changes |
| BundleSelection.BundleSession.Reapply | assets/bundle-collection-manager.js:562-603 | An empty selection with a non-empty snapshot is restored first; then the grid is re-marked |
| BundleSelection.BundleSession.AddToCart | assets/bundle-collection-manager.js:951-1020 | A request exists only with a full selection and a fetched bundle product; it carries the bundle type, "`<n>` products" and the numbered items; success clears the selection and every mark; failure changes neither |
| QuantityLimiter.MessageTemplate | assets/quantity-limiter.js:51-53 | The page language's entry when it is non-empty, else the non-empty English entry, else the key itself |
| QuantityLimiter.LimitReachedMessage | assets/quantity-limiter.js:38-60 | The English `limitReached` message reads "Maximum: `<max>` pieces per customer" |
| QuantityLimiter.QuantityAdjustedMessage | assets/quantity-limiter.js:41-60 | The English `quantityAdjusted` message names the product and the limit |
| QuantityLimiter.UnknownKeyMessage | assets/quantity-limiter.js:53 | A key without a template is returned as the message |
| QuantityLimiter.ProductLimit | assets/quantity-limiter.js:212-215 | A limit exists exactly when one is recorded and it is not 0, and it is the recorded one |
| QuantityLimiter.SumForAppend | assets/quantity-limiter.js:227-229 | The quantity of a product over a split cart is the sum over the parts |
| QuantityLimiter.SumForAtLeastLine | assets/quantity-limiter.js:222-230 | Every line of a product counts towards its quantity in the cart |
| QuantityLimiter.FirstMatch | assets/quantity-limiter.js:232-247 | The line found matches and no earlier line does; `None` means no line matches |
| QuantityLimiter.ExistingLine | assets/quantity-limiter.js:232-247 | The line found is the first line of the product, and of the exact variant when a non-zero variant is given; without a cart there is none |
| QuantityLimiter.CanAddToCart | assets/quantity-limiter.js:249-294 | No limit (or a limit of 0) means allowed; otherwise refused exactly when current ≥ max (can add 0) or current + requested > max (can add max − current); allowed means current + requested ≤ max |
| QuantityLimiter.CanAddWithoutLimit | assets/quantity-limiter.js:248-252 | A product without a limit, or with a limit of 0, is always allowed |
| QuantityLimiter.CanAddToEmptyCart | assets/quantity-limiter.js:248-293 | With no cart or an empty cart, an add is allowed exactly up to the limit |
| QuantityLimiter.SubmitDecision | assets/quantity-limiter.js:573-726 | An unlimited product is submitted; for a limited product a refused or limit-less check blocks, an allowed add without a matching line adds one, and an allowed add onto a line below the limit sets it to min(existing + requested, max) when that changes it and is blocked otherwise; a merge stays within the limit |
| QuantityLimiter.MergeWithoutChangeBlocked | assets/quantity-limiter.js:663-670 | A request that does not change the existing line's quantity is blocked |
| QuantityLimiter.ClampInput | assets/quantity-limiter.js:963-981 | The input is reset exactly when a non-zero limit is set and the value exceeds it, and it is reset to the limit |
| QuantityLimiter.ClampInputSettles | assets/quantity-limiter.js:963-981 | After the handler the value is within the limit, and a second change event changes nothing |
| QuantityLimiter.Clamps | assets/quantity-limiter.js:1103-1118 | Every update key is the key of a cart line |
| QuantityLimiter.ClampsAt | assets/quantity-limiter.js:1103-1107 | A line gets a clamp entry exactly when it exceeds its product's limit, and the entry is the limit |
| QuantityLimiter.ProductOrder | assets/quantity-limiter.js:1121-1128 | No product is listed twice, and every product of the cart is listed |
| QuantityLimiter.LinesOfMembers | assets/quantity-limiter.js:1121-1128 | A product's group holds exactly the cart's lines of that product |
| QuantityLimiter.TotalOfLines | assets/quantity-limiter.js:1134 | The total of a product's group is its quantity in the cart |
| QuantityLimiter.PlanAt | assets/quantity-limiter.js:1096-1148 | For each line: the first line of a duplicated product gets min(total, max or total), its other lines get 0, overriding the clamp; a single line keeps its clamp entry |
| QuantityLimiter.EnforcedCartWithinLimits | assets/quantity-limiter.js:1096-1148 | Once the updates are applied, each product has at most one non-empty line, each limited product is within its limit, unlimited totals are unchanged, and a line that is neither over its limit nor duplicated is left out of the updates |
| QuantityLimiter.Capped | assets/quantity-limiter.js:1134-1136 | A limited product's quantity after the updates is at most its limit |
| QuantityLimiter.TotalsAfter | assets/quantity-limiter.js:1096-1148 | The product's total after the updates is the capped quantity when it has a limit, and unchanged otherwise |
| QuantityLimiter.Assign | assets/quantity-limiter.js:166-174 | Every listed product gets the collection's record; other products keep theirs |
| QuantityLimiter.LimitsOf | assets/quantity-limiter.js:173-193 | The limits map agrees with the records on keys and limits |
| QuantityLimiter.LastCollectionWins | assets/quantity-limiter.js:164-208 | A product listed by several collections gets the record of the last collection read |
| QuantityLimiter.UnlistedHasNoLimit | assets/quantity-limiter.js:158-175 | A product that no collection lists has no record |
| QuantityLimiter.Limiter.constructor | assets/quantity-limiter.js:22-80 | The limiter starts with the configured collections, the page language's Arabic flag, no cart, no cached time and no product records |
| QuantityLimiter.Limiter.FetchCartData | assets/quantity-limiter.js:134-152 | Without `force`, the cached cart is returned while `now - lastCartUpdate < 300`; otherwise a fetched cart replaces the cache at `now`, and a failed fetch returns nothing and keeps the cache |
| QuantityLimiter.Limiter.AddCollection | assets/quantity-limiter.js:166-174 | The loop assigns the collection's record to each listed product and keeps both maps in agreement |
| QuantityLimiter.Limiter.LoadCollectionProducts | assets/quantity-limiter.js:154-210 | The records are cleared, then rebuilt from the preloaded lists in configuration order, or else from the fetched lists in arrival order |
| QuantityLimiter.Limiter.LoadPreloaded | assets/quantity-limiter.js:163-178 | Starting from no records, each configured collection with a preloaded list assigns its record to the listed products, in configuration order |
| QuantityLimiter.Limiter.LoadFetched | assets/quantity-limiter.js:181-208 | Starting from no records, each fetched list assigns its collection's record, in arrival order; failed fetches assign nothing |
| QuantityLimiter.Limiter.EnforceCartLimits | assets/quantity-limiter.js:1096-1150 | The update object is `Plan` of the cached cart, and it is sent exactly when it is not empty |
| QuantityLimiter.ClampLines | assets/quantity-limiter.js:1103-1118 | The first loop builds exactly the clamp entries, and `hasChanges` holds exactly when there is one |
| QuantityLimiter.ConsolidateProduct | assets/quantity-limiter.js:1131-1147 | One pass for a duplicated product: the loops compute the consolidation entry of that product |
| QuantityLimiter.GroupByProduct | assets/quantity-limiter.js:1121-1128 | The `productMap` loop yields the products in first-line order, each mapped to its lines in cart order |
| QuantityLimiter.GroupMapLines | assets/quantity-limiter.js:1121-1128 | The grouping holds a key for exactly the products of the cart, and each key's group is that product's lines in cart order |
| QuantityLimiter.ConsolidateAll | assets/quantity-limiter.js:1131-1149 | The loop over `productMap` extends the clamp entries to the consolidation `Plan` describes, and `hasChanges` holds exactly when some entry exists |
| QuantityLimiter.GroupTotal | assets/quantity-limiter.js:1134 | The `reduce` yields the sum of the group's quantities |
| QuantityLimiter.ZeroTail | assets/quantity-limiter.js:1141-1144 | Every line of the group after the first is set to 0 and nothing else changes |
| FreeGiftPopup.ConfigFrom | assets/cart-free-product-popup.js:17-24 | A truthy setting is kept; a missing or falsy one (0, the empty string) takes its default (5000, 1, `free-gifts-collection`), so the threshold is non-zero, at least one gift is allowed and the collection is named |
| FreeGiftPopup.HasFreeGift | assets/cart-free-product-popup.js:155-160 | True exactly when some line's `_free_product` property is the text `true` or the boolean `true` |
| FreeGiftPopup.ThresholdGate | assets/cart-free-product-popup.js:145-177 | Loading, an open popup or a settled offer make the check a no-op; a gift in the cart never shows the popup; the popup is shown exactly when the cart was read, holds no gift and its total reaches the threshold |
| FreeGiftPopup.Without | assets/cart-free-product-popup.js:754 | `Set.delete`: exactly the index leaves, the rest stay distinct, the size drops by one, and an absent index changes nothing (`WithoutSplices` states that the other indices keep their insertion order) |
| FreeGiftPopup.WithoutSplices | assets/cart-free-product-popup.js:754 | Deleting the index at position `k` of a set cuts out exactly that position: the result is `s[..k] + s[k + 1..]`, so every other index keeps its place in insertion order |
| FreeGiftPopup.Toggled | assets/cart-free-product-popup.js:750-770 | A selected index is removed by `Without`, so the others keep their order; an unselected one is refused at capacity and otherwise appended; distinct indices and size ≤ maxFreeProducts are preserved |
| FreeGiftPopup.ToggleTwiceRestores | assets/cart-free-product-popup.js:752-766 | Selecting an index and clicking it again restores the selection |
| FreeGiftPopup.Rendered | assets/cart-free-product-popup.js:521-528 | Each readable product is stored under its position; other entries keep their data |
| FreeGiftPopup.FirstAvailable | assets/cart-free-product-popup.js:879 | The chosen variant is available and no earlier one is; `None` means none is available |
| FreeGiftPopup.PrepareGift | assets/cart-free-product-popup.js:865-895 | A missing product or one without variants fails; otherwise the request exists exactly when a variant is available, for one unit of the first available variant, marked `_free_product: 'true'` with the threshold |
| FreeGiftPopup.AddedGiftIsRecognised | assets/cart-free-product-popup.js:885-893 | The line a posted gift becomes is detected as a gift in the cart, so the gate does not show the popup again |
| FreeGiftPopup.GiftPopup.constructor | assets/cart-free-product-popup.js:17-70 | The offer counts as settled exactly when the session record holds `true`; nothing is selected and the popup is closed |
| FreeGiftPopup.GiftPopup.MarkAsCompleted | assets/cart-free-product-popup.js:961-965 | The offer is settled and `true` is stored under the session key, which a later start-up reads back as settled |
| FreeGiftPopup.GiftPopup.ClosePopup | assets/cart-free-product-popup.js:970-990 | With no popup nothing happens; otherwise the popup closes and the selection and the product data are emptied; the settled flag is untouched |
| FreeGiftPopup.GiftPopup.Skip | assets/cart-free-product-popup.js:414-418 | Skipping settles the offer (only the session key is written) and closes the popup: an open popup loses its selection and product data, a closed one keeps its product data; loading and the cart total are untouched |
| FreeGiftPopup.GiftPopup.Show | assets/cart-free-product-popup.js:205-225 | Nothing happens while the popup is open or the offer is settled; otherwise the popup opens exactly when the modal could be built |
| FreeGiftPopup.GiftPopup.CheckCartThreshold | assets/cart-free-product-popup.js:145-177 | The state follows `ThresholdGate`: the total is recorded once the cart is read, a gift in the cart settles the offer, and reaching the threshold shows the popup |
| FreeGiftPopup.GiftPopup.ToggleProductSelection | assets/cart-free-product-popup.js:750-792 | The selection follows `Toggled`, and the add button is enabled exactly when the selection is full |
| FreeGiftPopup.GiftPopup.BeginLoad | assets/cart-free-product-popup.js:440-449 | Loading begins only with an open popup |
| FreeGiftPopup.GiftPopup.CompleteLoad | assets/cart-free-product-popup.js:462-486 | The loop stores the readable products as `Rendered` describes, and loading ends whatever the response |
| FreeGiftPopup.GiftPopup.AddSelectedProducts | assets/cart-free-product-popup.js:797-861 | Nothing happens exactly when the selection is not full; a gift already in the cart settles and closes; otherwise the first selection's product is prepared and the outcome is its refusal, the cart's rejection, or the added gift line; success settles and closes (session key written, selection and product data emptied) while failure re-enables the button and keeps the selection and product data; when nothing happens the product data and button are unchanged; loading and the cart total are never touched |
| GiftSearchFilter.AnyTermIn | assets/gift-collection-filter.js:70 | True exactly when the query contains the lower-cased form of some term |
| GiftSearchFilter.ContainsGiftTerms | assets/gift-collection-filter.js:67-71 | False for an absent or empty query; otherwise true exactly when the lower-cased, trimmed query contains some lower-cased term |
| GiftSearchFilter.GiftTermsPlain | assets/gift-collection-filter.js:11-19 | Every listed term is already lower case and neither starts nor ends in white space |
| GiftSearchFilter.MatchIgnoresTrim | assets/gift-collection-filter.js:69-70 | Trimming plays no part: a non-empty query matches exactly when its lower-cased form contains a listed term |
| GiftSearchFilter.AnyCasingDetected | assets/gift-collection-filter.js:69-70 | A listed term in any mix of upper and lower case, anywhere in a query, is detected |
| GiftSearchFilter.SameLowerCaseSameVerdict | assets/gift-collection-filter.js:69 | Queries with the same lower-case form get the same verdict |
| GiftSearchFilter.GetParam | assets/gift-collection-filter.js:77-78 | `None` exactly when no pair carries the name; otherwise a value given for the name (`GetParamFirst` states that it is the first) |
| GiftSearchFilter.GetParamFirst | assets/gift-collection-filter.js:78 | The value returned belongs to the first pair carrying the name |
| GiftSearchFilter.DeleteParam | assets/gift-collection-filter.js:87 | Every pair with that name is removed and the others are kept; without such a pair the parameters are unchanged (`DeleteParamSingle` and `DeleteParamAppend` give the order and repeats) |
| GiftSearchFilter.DeleteParamSingle | assets/gift-collection-filter.js:87 | `URLSearchParams.delete` removes a single pair exactly when it carries the name |
| GiftSearchFilter.DeleteParamAppend | assets/gift-collection-filter.js:87 | Deleting from a concatenation deletes from each part, so with `DeleteParamSingle` the kept pairs stay in order with their repeats |
| GiftSearchFilter.DirectSearchRedirect | assets/gift-collection-filter.js:76-94 | A redirect happens exactly when `q` names the gift collection; the target keeps the path, its parameters are `DeleteParam(params, "q")` (the others in order, repeats included), and it has no `q` |
| GiftSearchFilter.RedirectSettles | assets/gift-collection-filter.js:86-90 | The address a redirect leads to is not redirected again |
| GiftSearchFilter.InterceptSubmit | assets/gift-collection-filter.js:104-121 | A submit is blocked and its input cleared exactly when the input's lower-cased value contains a listed term |
| GiftSearchFilter.SearchKeys | assets/gift-collection-filter.js:31-37 | The collected keys are exactly the storage keys containing `Search`, `search`, `t4s` or `predictive` |
| GiftSearchFilter.Kept | assets/gift-collection-filter.js:38-41 | The keys left are exactly those not removed |
| GiftSearchFilter.WebStorage.constructor | assets/gift-collection-filter.js:32-46 | A storage holds distinct keys, each with a value |
| GiftSearchFilter.WebStorage.RemoveItem | assets/gift-collection-filter.js:39 | `removeItem` drops that key and its value; the other keys keep their order and values |
| GiftSearchFilter.WebStorage.CollectSearchKeys | assets/gift-collection-filter.js:31-50 | The index loop collects the search keys in storage order, and removes nothing while walking |
| GiftSearchFilter.WebStorage.RemoveAll | assets/gift-collection-filter.js:38-54 | Removing the collected keys one by one removes exactly those keys and keeps the order of the rest |
| GiftSearchFilter.WebStorage.ClearSearchKeys | assets/gift-collection-filter.js:31-54 | Exactly the search keys go; every other key keeps its value and its place |
| GiftSearchFilter.ClearSearchCache | assets/gift-collection-filter.js:26-62 | In both storages, exactly the search keys go and every other entry keeps its value |
| Text.Substitute | assets/quantity-limiter.js:56-58 | The replacement loop computes the placeholder substitution, each name filling the first occurrence of `{name}` |
| Text.ReplaceFirstAt | assets/bundle-collection-manager.js:160 | `replace` with a text pattern puts the value in place of the first occurrence only |
| Text.SubstituteAllAbsent | assets/bundle-collection-manager.js:159-161 | Replacements whose placeholders are absent leave the text unchanged |
| Text.TrimPreservesContains | assets/gift-collection-filter.js:69-70 | Trimming neither loses nor creates an occurrence of a word that neither starts nor ends in white space |

## Findings

| source | as written | input that shows it | evidently intended | confidence | as-written member | corrected member |
|---|---|---|---|---|---|---|
| assets/bundle-collection-manager.js:84-92 | The configuration is the first whose `/collections/<handle>` is a substring of the path; `bundle-1` is listed before `bundle-15` | Path `/collections/bundle-15`: `'/collections/bundle-15'.includes('/collections/bundle-1')` holds, so the 15-product page gets the 10-product bundle | The handle must end at a path segment boundary, so each bundle page gets its own configuration | high; not executed | BundleCatalog.ConfigAsWritten / BundleCatalog.AsWrittenPicksWrongBundle | BundleCatalog.CurrentBundleConfig / BundleCatalog.CurrentBundleConfigOwnPage |

## Left out

- The DOM is abstracted. Cards, buttons, notifications, progress-bar widths, CSS
  injection, lazy-loading and image URLs appear only as the fields they change, such as a
  card's mark or whether the add button is enabled.
- Timers, polling, MutationObservers, event listeners and the settle delays are left out.
  Each handler is modelled as one call. The 400 ms fade of `closePopup` and the 1500 ms
  delay before the popup closes after a successful add are folded into the call.
- The `isProcessing` / `processingProducts` re-entrancy guards are left out, because timers
  release them.
- Network calls become parameters. These include the cart document, product documents,
  collection lists, whether `/cart/add.js` or `/cart/update.js` accepted the post, and the
  order in which fetched collection lists arrive.
- Clocks become integer or text parameters.
- Global patching of `fetch`, `XMLHttpRequest` and theme functions is left out, as is
  `assets/cart-notification.js`.
- `parseInt` and `JSON` parsing are left out. Ids are integers, and an unreadable value is
  `None`.
- Floating point is left out. `bundlePrice` is kept as the text the page shows, and
  progress percentages are not modelled.
- Debug helpers are left out: `debugBundle`, `checkPagination`, the append-mode toggles,
  `forceHijackButtons`, `nuclearReplaceButtons` and `debugPopupVisibility`.
- The `bundle-processed` marker and the stripping of forms and popup attributes from cards
  are not modelled.
- The `productVariants` cache of the quantity limiter is written but never read, so it is
  not modelled.
- Storage quotas and exceptions thrown by storage are not modelled. In particular,
  `clearSearchCache` in a browser without `Storage` does nothing, and the model always has
  storage.
- `Text.ToLower`: only ASCII capitals are folded. JavaScript's full Unicode case mapping
  is not modelled. The listed terms are ASCII or Arabic, and neither has characters that
  full case mapping would change.
- `Text.ReplaceFirst`: `$` patterns in replacement values are not interpreted.
- `FreeGiftPopup.GiftPopup.ClosePopup`: the guard tests whether a popup is open
  (`isActive`). The source tests whether the overlay element exists. The invariant ties
  the two together.
- `FreeGiftPopup.GiftPopup.AddSelectedProducts`: the ISO date written to
  `_free_offer_date` is a parameter, and its format is not checked. The page reload after
  success is not modelled.
- `BundleSelection.BundleSession.AddToCart`: after a successful add the script sends the
  page to `/cart` 1500 ms later. The navigation is not modelled; the call ends with the
  cleared selection and marks.
- `FreeGiftPopup.GiftPopup.ToggleProductSelection` requires an open popup and a rendered
  product. These are the only cards that exist to be clicked.
- `BundleSelection.ReappliedIdempotent` is proved only when the first pass finds distinct
  cards. `BundleSelection.ReappliedTwiceCanDiffer` shows that the general claim fails.
- `QuantityLimiter.QuantityAdjustedMessage` requires a product title without `{`. A
  title holding `{max}` would receive the limit itself.
- `BundleSelection.Init` picks the bundle with the corrected lookup
  `BundleCatalog.CurrentBundleConfig`, not with the substring test of
  `getCurrentBundleConfig` (`BundleCatalog.ConfigAsWritten`, see Findings). On
  `/collections/bundle-15` the script runs with bundle-1's configuration, and a path such
  as `/collections/bundle-1x` counts as bundle-1's page; here the first gets bundle-15's
  configuration and the second is no bundle page. The `initialized` guard is left out.
- `QuantityLimiter.SubmitDecision`: product ids are given. `getProductIdFromElement` and
  its attribute lookups are not modelled.
