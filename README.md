# Cantina storefront core in Dafny

This project is a Dafny model of the logic at the heart of a small Django shop that sells
pastries and combos for a mission canteen, with proofs about that model. It covers four pieces:

- **The visitor's session cart** (`shop/views.py`).
  - The cart is a dictionary in the session. It maps product-id strings to quantities and remembers insertion order.
  - `_get_cart` fetches the cart, replacing a value that is not a dictionary.
  - `cart_add` and `cart_update` add, increment, decrement, set or remove an entry.
  - `_build_cart_payload` resolves the cart against the active catalogue. It yields priced line items, a total rendered with two decimals and an item count.
- **The audit-log middleware** (`shop/middleware.py`).
  - `_mask_sensitive` replaces the values of sensitive keys, at any depth of a JSON tree, with `***`.
  - The request payload is extracted and capped at 4000 characters.
  - The client address comes from `X-Forwarded-For` or `REMOTE_ADDR`.
  - The audit record `_write_log` would store is built, with its length caps and error flag. Static and media paths and the favicon are filtered out, and a failing database write is swallowed.
- **The staff sale screen** (`static/shop/manage_sales.js`).
  - The in-memory sale cart is keyed by (product, variant). Cards are merged into it and cart buttons edit it.
  - `parseMoney` normalises Brazilian money text.
  - The quantity stepper is modelled, as is the state of the Pix status poller.
  - Submitting a sale posts the order lines and resets the cart.
- **Catalogue seeding** (`shop/management/commands/seed_products.py`). `handle` deactivates every product, then upserts six fixed entries by name.

### Files

| File | Contents |
|---|---|
| `wrappers.dfy` | `Option` and `Result` |
| `models.dfy` | The `Product` record (`shop/models.py`), with price in integer cents. The catalogue is a map from id to product. |
| `text.dfy` | The host-language string operations the core relies on (see below) |
| `cart.dfy` | Module `CartViews`: the session cart and its views |
| `audit.dfy` | Module `Audit`: masking, payload, client address, audit record, and the middleware class |
| `sales.dfy` | Module `Sales`: the staff sale screen |
| `seed.dfy` | Module `Seed`: the seeding command over a product table |

`text.dfy` covers these operations:
- Python `str(n)` and `int(s)`, including surrounding whitespace, a sign and single underscores between digits.
- `str.strip()`, `str.split(',')[0]`, slicing and `str.lower()`.
- JavaScript `trim()`, `\s`, and `replace`.

### How the program is modelled

**Cart views.**
- `Session` is a class whose `cart` field the views assign, mirroring how `_get_cart` and the views write into `request.session`.
- `BuildCartPayload`, `FirstUnparsableKey` and `CollectItems` are methods with the source's loops. Each is proved against a specification function (`CartPayload`, `FirstRejected`, `Lines`), and the lemmas state what those functions mean.

**Audit middleware.**
- `_mask_sensitive`, `_extract_payload`, `_client_ip` and the record of `_write_log` are pure functions.
- `AuditLogMiddleware` is a class holding its audit `table`. A request the view answers adds at most one row. A request whose view raises adds up to two rows. In Django, `process_exception` runs inside `get_response` and logs status 500. The exception is then turned into a response, 404 for `get_object_or_404`, which `__call__` logs again. So every 404 from `cart_add` and `cart_update` is logged first as a 500 error (`RaisingViewLoggedTwice`).
- `HttpRequest` carries the `_audit_payload` attribute that `__call__` sets.

**Sale screen.** `SaleScreen` is a class holding `saleCart`, `currentPixCode`, `currentOrderId` and `statusPoller`. Its methods update those fields in place. `pollPixStatus` and `onSubmitSale` await a request. Each is split into the step before its await (`BeginPoll`, `BeginSubmit`) and the step after it (`CompletePoll`, `CompleteSubmit`), so a caller can run other methods in between. `PollPixStatus` and `OnSubmitSale` run the two halves back to back. Every method keeps the invariant that no two cart entries share a (product, variant) key.

**Seeding.** `ProductTable` is a class holding the rows, keyed by id, and the next free id. `Handle` is the deactivate-then-upsert loop, proved equal to the fold `HandleSpec`. The lemmas about `HandleSpec` prove four things:
- which rows are active afterwards;
- that pre-existing rows keep their ids;
- that each seed has exactly one row;
- that a second run changes nothing.

**Foreign code becomes parameters.**
- Calls into library code the model cannot see are parameters: `json.loads` and `json.dumps` (`loads`, `dumps`), JavaScript `Number()` on text (`toNumber`), and the outcome of HTTP requests (`outcome`).
- The clock becomes a `responseMs` argument.
- "Does the database accept the write" becomes a `dbAccepts` argument.

### Cart keys

Cart keys are `str(product.id)` only (`shop/views.py:74`, `shop/views.py:86`); there is no variant part.

## Model

| member | source | states |
|---|---|---|
| Text.DigitChar | shop/views.py:21 | the digit character for d < 10 is a decimal digit whose value is d |
| Text.NatToString | shop/views.py:21 | definition of str(n); its meaning is stated by NatToStringSpelling, NatToStringInjective and ParseIntOfNatToString |
| Text.NatToStringSpelling | shop/views.py:21 | str(n) is a non-empty digit string with no leading zero whose decimal value is n |
| Text.NatToStringInjective | shop/views.py:21 | distinct ids give distinct str() keys |
| Text.LeadingCountSpec | shop/middleware.py:49 | the leading-whitespace count covers exactly the maximal whitespace prefix |
| Text.TrailingEndSpec | shop/middleware.py:49 | the trailing-whitespace boundary starts exactly the maximal whitespace suffix |
| Text.Strip | shop/middleware.py:49 | definition of str.strip(); its meaning is stated by StripSlice and StripSurround |
| Text.StripSlice | shop/middleware.py:49 | strip() returns the contiguous slice after the leading whitespace, and it neither starts nor ends with whitespace |
| Text.StripSurround | shop/middleware.py:49 | everything strip() removes is whitespace, on both sides |
| Text.FilterMembers | static/shop/manage_sales.js:65 | a character survives a filter iff it was in the input and is kept |
| Text.FilterAppend | static/shop/manage_sales.js:65 | filtering distributes over concatenation |
| Text.FilterKeepsAll | static/shop/manage_sales.js:65 | a filter that keeps every element is the identity |
| Text.FilterDropsAll | static/shop/manage_sales.js:65 | a filter that drops every element gives the empty text |
| Text.FilterSkipsAt | shop/views.py:25-28 | dropping a rejected element does not change the filtered sequence |
| Text.FilterIgnoresDropped | shop/views.py:25-28 | replacing a rejected element with another rejected one does not change the filtered sequence |
| Text.StripThenFilter | static/shop/manage_sales.js:65 | removing all whitespace after trim() is the same as removing it from the raw text |
| Text.CountAppend | static/shop/manage_sales.js:67 | occurrence counts add over concatenation |
| Text.CountAbsent | static/shop/manage_sales.js:67 | an absent character occurs zero times |
| Text.CountPresent | static/shop/manage_sales.js:67 | a present character occurs at least once |
| Text.CountFilterKept | static/shop/manage_sales.js:65-67 | a filter keeps every occurrence of a kept character |
| Text.Take | shop/middleware.py:49-50 | Python s[:n] is the prefix of length min(len(s), n) |
| Text.ContainsAt | shop/middleware.py:30 | a text containing p at some position satisfies the `in` test |
| Text.BeforeFirst | shop/middleware.py:49 | split(c)[0] is the longest prefix without c, and c follows it when it is shorter than the text |
| Text.ReplaceFirst | static/shop/manage_sales.js:67 | replace(a, b) with a string pattern changes exactly the first a into b, and nothing when a is absent |
| Text.ReplaceFirstCounts | static/shop/manage_sales.js:67 | replacing the first a with b removes one a and adds one b |
| Text.ReplaceFirstMembers | static/shop/manage_sales.js:67 | replacing introduces no character other than b |
| Text.ParseInt | shop/views.py:19 | definition of int(s) on text; its meaning is stated by ScanDigits, ParseIntOfNatToString, ParseIntOfNegative and ParseIntSkipsLeadingSpace |
| Text.ScanDigits | shop/views.py:19 | the int() scanner accumulates the decimal value of a digit run, with its sign |
| Text.ParseIntOfNatToString | shop/views.py:19-21 | int(str(n)) == n, so every key the views store parses back to its id |
| Text.ParseIntOfNegative | shop/views.py:69 | int() of '-' followed by str(n) is -n |
| Text.ParseIntSkipsLeadingSpace | shop/views.py:69 | int() ignores a leading whitespace character |
| Text.Lower | shop/middleware.py:14 | definition of str.lower(); its meaning is stated by LowerChar and LowerChars |
| Text.LowerChar | shop/middleware.py:14 | lower() yields an ASCII lower-case letter iff the character is an ASCII letter or the Kelvin sign |
| Text.LowerChars | shop/middleware.py:14 | lower() maps character by character |
| CartViews.Put | shop/views.py:75 | assigning cart[k] sets k's value and appends k to the iteration order only when it is new |
| CartViews.RemoveKey | shop/views.py:100 | removing a key keeps exactly the other keys |
| CartViews.RemoveKeyDistinct | shop/views.py:100 | removing a key keeps the key order free of duplicates |
| CartViews.Pop | shop/views.py:100 | cart.pop(k) drops k from the values and from the iteration order |
| CartViews.Session.constructor | shop/views.py:10-15 | a session starts with the given cart value |
| CartViews.GetCart | shop/views.py:10-15 | a dict in the session is returned and left as is; anything else is replaced by an empty dict, which is stored and returned |
| CartViews.FormatCents | shop/views.py:36-45 | definition of f'{d:.2f}' for an amount in whole cents, used for prices and the total; its meaning is stated by FormatCentsSpelling |
| CartViews.FormatCentsSpelling | shop/views.py:36-45 | f'{x:.2f}' of a price or of the total, which are never a negative zero, has a sign exactly for negative x, digits, a point and two digits whose value is the amount in cents |
| CartViews.TwoDigits | shop/views.py:36 | the cents part is two digits with the given value |
| CartViews.ActiveProductFor | shop/views.py:20-21 | a key resolves only to an active product whose str(id) is exactly the key |
| CartViews.ActiveProductForIdKey | shop/views.py:20-21 | the key str(id) of an active product resolves to that product |
| CartViews.KeysStoredPrefix | shop/views.py:25 | every key of a prefix of the iteration order has a stored quantity |
| CartViews.FirstRejected | shop/views.py:19 | a reported key is in the cart and fails int() |
| CartViews.FirstRejectedNone | shop/views.py:19 | no key is reported iff every key passes int() |
| CartViews.LinesAppend | shop/views.py:25-41 | the emitted lines of concatenated key runs are the concatenation of their lines |
| CartViews.LinesSound | shop/views.py:25-41 | every emitted line comes from a cart key, an active product with that id, its catalogue record and the stored quantity |
| CartViews.LinesComplete | shop/views.py:25-28 | every key that resolves to an active product is emitted |
| CartViews.LineKeys | shop/views.py:32 | there is one key per emitted line |
| CartViews.LineKeysAppend | shop/views.py:32 | emitted keys distribute over concatenation |
| CartViews.LinesKeys | shop/views.py:25-32 | the emitted keys are exactly the cart keys that resolve, in cart iteration order |
| CartViews.LineKeysOf | shop/views.py:26-28 | one key emits itself iff it resolves |
| CartViews.LinesSkipInactive | shop/views.py:26-28 | removing a key of an unknown or inactive product changes no emitted line |
| CartViews.InactiveEntryIgnored | shop/views.py:26-28 | an entry for an unknown or inactive product does not affect the payload |
| CartViews.FirstRejectedRemove | shop/views.py:19 | removing a parsable key does not change the first unparsable key |
| CartViews.FirstRejectedSnoc | shop/views.py:19 | the first unparsable key of a longer key list, key by key |
| CartViews.LinesStep | shop/views.py:25-41 | the loop step emits the lines of one more key |
| CartViews.CollectStep | shop/views.py:25-41 | one loop step appends that key's item and subtotal, or nothing when the key does not resolve |
| CartViews.LinesSnocSums | shop/views.py:30-41 | items and subtotal sum extend by the new line |
| CartViews.FirstRejectedPrefix | shop/views.py:19 | an unparsable key in the first part is reported before any in the rest |
| CartViews.SubtotalText | shop/views.py:30-39 | definition of f'{product.price * quantity:.2f}', with Decimal's signed zero; its meaning is stated by SubtotalTextSpelling |
| CartViews.SubtotalTextSpelling | shop/views.py:30-39 | a subtotal is spelled with a minus sign exactly when one of price and quantity is negative, so 0.00 * -2 gives '-0.00', then digits, a point and two digits that read as the absolute value of price * quantity |
| CartViews.CartPayload | shop/views.py:18-47 | definition of _build_cart_payload; its meaning is stated by PayloadTotals, LinesKeys, LinesSound, LinesComplete and FirstRejectedNone, and BuildCartPayload runs it as the source's loop |
| CartViews.PayloadTotals | shop/views.py:23-46 | one item per emitted line; each item's quantity, its price rendered with two decimals and its subtotal rendered by SubtotalText; total is the sum of the subtotals rendered by FormatCents, which is exact because a sum that starts at Decimal('0.00') is never a negative zero; count is the sum of the item quantities |
| CartViews.BuildCartPayload | shop/views.py:18-47 | the method computes the payload specification, with an error when some key fails int() |
| CartViews.FirstUnparsableKey | shop/views.py:19 | the loop finds the first key that fails int() |
| CartViews.CollectItems | shop/views.py:25-41 | the loop's items and running total are the rendered lines and the sum of their subtotals |
| CartViews.ParsedQuantity | shop/views.py:68-71 | a missing or unparsable quantity is 1; otherwise it is int() of the parameter |
| CartViews.AddQuantity | shop/views.py:68-72 | the added quantity is at least 1, and equals the parsed one when that is at least 1 |
| CartViews.AddToCart | shop/views.py:73-75 | definition of cart[key] = cart.get(key, 0) + q; its meaning is stated by AddToCartSpec, AddToCartQuantities and AddToCartPositive |
| CartViews.AddToCartSpec | shop/views.py:73-75 | cart_add raises exactly that key by q starting from 0, leaves every other key as it was, appends a new key at the end, and keeps all quantities at 1 or more |
| CartViews.AddToCartQuantities | shop/views.py:75 | the values after cart[key] = cart.get(key, 0) + q |
| CartViews.AddToCartPositive | shop/views.py:72-75 | adding q >= 1 keeps every quantity at 1 or more |
| CartViews.CartAdd | shop/views.py:65-78 | 404 and an untouched session for an unknown or inactive product; otherwise the session holds the updated cart and the response is its payload |
| CartViews.UpdatedQuantity | shop/views.py:84-97 | inc adds 1, dec subtracts 1, any other action takes the parsed quantity (1 on a parse error) |
| CartViews.UpdateCart | shop/views.py:84-102 | definition of cart_update's change to the cart; its meaning is stated by UpdateCartSpec and SetZeroRemoves |
| CartViews.UpdateCartSpec | shop/views.py:99-102 | a new value of 0 or less removes the key; otherwise the key holds it; other keys are untouched; all-positive carts stay all-positive |
| CartViews.CartUpdate | shop/views.py:81-106 | 404 and an untouched session for an unknown or inactive product; otherwise the action is applied to the stored quantity (the action defaults to set) and the response is the new cart's payload |
| CartViews.ViewsKeepKeysParsable | shop/views.py:13-102 | the empty cart and every cart the views write have only int()-parsable keys |
| CartViews.KeysAreIdsNeverRaise | shop/views.py:19 | for such carts the aggregator never raises |
| CartViews.SetZeroRemoves | shop/views.py:94-100 | set with quantity 0 deletes the key |
| CartViews.InactiveProductExample | shop/views.py:26-28 | a cart holding only an inactive product gives no items, total 0.00 and count 0 |
| Audit.Mask | shop/middleware.py:10-21 | definition of _mask_sensitive; its meaning is stated by MaskCharacterised, MaskAgrees, MaskFullyMasks and MaskIdempotent |
| Audit.AgreesReflexive | shop/middleware.py:10-21 | every tree agrees with itself outside sensitive values |
| Audit.MaskAgrees | shop/middleware.py:10-21 | masking keeps the key of every member, the length of every list, every scalar, and the structure under non-sensitive keys |
| Audit.MaskFullyMasks | shop/middleware.py:14-15 | after masking, every sensitive key at every depth holds '***' |
| Audit.MaskUnique | shop/middleware.py:10-21 | a tree that agrees with the input outside secrets and is fully masked is the masked tree |
| Audit.MaskCharacterised | shop/middleware.py:10-21 | the masked tree is exactly the fully masked tree that agrees with the input outside secrets |
| Audit.MaskIdempotent | shop/middleware.py:10-21 | masking twice equals masking once |
| Audit.NoSensitiveKeysFullyMasked | shop/middleware.py:10-21 | a tree without sensitive keys is already fully masked |
| Audit.MaskIdentityWithoutSecrets | shop/middleware.py:16-21 | a tree without sensitive keys is returned unchanged |
| Audit.MaskTopLevel | shop/middleware.py:11-21 | a dict stays a dict with the same keys in the same order, a list keeps its length, a scalar is returned as is |
| Audit.PasswordIsSensitive | shop/middleware.py:7-14 | the comparison is on the lower-cased key, so 'Password' is sensitive |
| Audit.NameIsNotSensitive | shop/middleware.py:7-14 | keys outside the set, such as 'name', are not |
| Audit.MaskExample | shop/middleware.py:10-21 | a login form's password is masked and its name kept |
| Audit.FormObject | shop/middleware.py:38 | the form dict has one string member per POST field, in order, and no key twice, as request.POST holds each key once |
| Audit.ExtractPayload | shop/middleware.py:24-43 | at most 4000 characters; empty for GET, HEAD and OPTIONS, for an empty or unparsable JSON body, and for an empty non-JSON form |
| Audit.ExtractPayloadLogged | shop/middleware.py:29-39 | otherwise the payload is the first 4000 characters of the dumped masked JSON body or masked form |
| Audit.FormSecretsMasked | shop/middleware.py:38-39 | a sensitive form field is logged as '***' |
| Audit.ClientIp | shop/middleware.py:46-50 | at most 64 characters; without X-Forwarded-For it is the first 64 characters of REMOTE_ADDR (empty when missing) |
| Audit.ClientIpForwarded | shop/middleware.py:47-49 | with X-Forwarded-For, the address is a comma-free slice of the header's first entry, starting after its leading whitespace and not starting with whitespace; shorter than 64 characters, it does not end with whitespace and only whitespace follows it up to the first comma; at 64 characters, a non-whitespace character of the entry lies at or past its last position |
| Audit.ClientIpDetermined | shop/middleware.py:47-49 | any text with those properties is the address _client_ip returns, so they single it out at every length |
| Audit.ForwardedAddressLength | shop/middleware.py:49-50 | such an address is as long as the stripped first entry, capped at 64 |
| Audit.FirstEntry | shop/middleware.py:49-50 | the stripped first comma-separated entry, capped at 64, has all the properties of the forwarded address |
| Audit.FirstEntryEnd | shop/middleware.py:49-50 | an address shorter than 64 characters does not end with whitespace |
| Audit.FirstEntryLong | shop/middleware.py:49-50 | an address of 64 characters was cut from a stripped entry whose last character lies at or past its last position |
| Audit.FirstEntrySlice | shop/middleware.py:49 | the first entry is a comma-free slice of the header starting after its leading whitespace |
| Audit.FirstEntryWithinFirst | shop/middleware.py:49 | the capped stripped entry is a comma-free slice of the text before the first comma |
| Audit.FirstEntryInHeader | shop/middleware.py:49 | that slice sits at the same position in the whole header |
| Audit.FirstEntryTail | shop/middleware.py:49-50 | only whitespace precedes the entry, and, for an address shorter than 64 characters, only whitespace follows it up to the comma |
| Audit.LeadingCountOfPrefix | shop/middleware.py:49 | the header and its first entry have the same leading whitespace |
| Audit.ClientIpExample | shop/middleware.py:46-49 | ' 10.0.0.7 , 172.16.0.1' yields '10.0.0.7' |
| Audit.PaddedAddressExample | shop/middleware.py:47-50 | 'a' followed by 70 spaces yields 'a', and 'a' followed by 63 spaces is not the address |
| Audit.ExampleFirstEntry | shop/middleware.py:49 | split(',')[0] of the example header |
| Audit.ExampleStrip | shop/middleware.py:49 | strip() of the example's first entry |
| Audit.BeforeFirstAppend | shop/middleware.py:49 | split(c)[0] of a + c… is a when a has no c |
| Audit.RecordFor | shop/middleware.py:68-96 | no record for /static/, /media/ and /favicon.ico; otherwise method at most 10, path at most 255, query at most 1000, payload at most 4000, user agent at most 255, address at most 64; status defaults to 0; is_error iff status >= 400; user only when authenticated; the text fields themselves are pinned by RecordFieldsArePrefixes |
| Audit.RecordFieldsArePrefixes | shop/middleware.py:77-90 | method, path, query string, payload and user agent are each the request's own value cut at 10, 255, 1000, 4000 and 255 characters: a prefix of it whose length is the smaller of its length and the cap |
| Audit.RecordKeepsExtractedPayload | shop/middleware.py:59-78 | the record stores the payload extracted on entry |
| Audit.RowsFor | shop/middleware.py:81-96 | a call writes at most one row |
| Audit.RequestRows | shop/middleware.py:57-66 | a responding view adds at most one row, a raising view at most two, and an exempt path none |
| Audit.RaisingViewLoggedTwice | shop/middleware.py:57-66 | when both writes succeed, a raising view on a logged path leaves a 500 error row followed by the row for the converted status |
| Audit.RespondingViewLoggedOnce | shop/middleware.py:57-61 | a view that answers leaves exactly the record for its status |
| Audit.HttpRequest.constructor | shop/middleware.py:57-59 | a request starts without an audit payload |
| Audit.AuditLogMiddleware.constructor | shop/middleware.py:53-55 | the audit table starts empty |
| Audit.AuditLogMiddleware.WriteLog | shop/middleware.py:68-96 | the table grows by the record for the request, or not at all when the path is filtered or the write fails, and the failure does not propagate |
| Audit.AuditLogMiddleware.Call | shop/middleware.py:57-66 | the request's audit payload is the extracted payload; a responding view's status is logged; a raising view is logged with 500 by process_exception and then with the converted status |
| Audit.AuditLogMiddleware.ProcessException | shop/middleware.py:64-66 | an exception is logged with status 500 |
| Audit.ExceptionLoggedAsError | shop/middleware.py:64-92 | such a record has status 500 and is_error set |
| Sales.NormalizeMoney | static/shop/manage_sales.js:65-68 | definition of parseMoney's text normalisation; its meaning is stated by NormalizeMoneyHasNoSpace, NormalizeMoneyWithoutComma and NormalizeMoneyWithComma |
| Sales.CompactIgnoresTrim | static/shop/manage_sales.js:65 | removing all whitespace after trim() is removing all whitespace |
| Sales.NormalizeMoneyHasNoSpace | static/shop/manage_sales.js:65-68 | the normalised text has no whitespace |
| Sales.NormalizeMoneyWithoutComma | static/shop/manage_sales.js:65-66 | without a comma, normalising only removes whitespace |
| Sales.NormalizeMoneyWithComma | static/shop/manage_sales.js:66-67 | with a comma, the result is the text without whitespace and dots with its first comma replaced by the point, in place; so exactly one point and one comma fewer remain |
| Sales.FilterLengthDots | static/shop/manage_sales.js:67 | removing the points shortens the text by their number |
| Sales.ParseMoney | static/shop/manage_sales.js:61-71 | a finite number passes through, a non-finite one gives 0, text is normalised and converted, with 0 when the result is not finite |
| Sales.CardPrice | static/shop/manage_sales.js:133-140 | definition of the unit price addItemFromCard reads; its meaning is stated by CardPriceChoice |
| Sales.CardPriceChoice | static/shop/manage_sales.js:133-140 | a selected variant's own price text decides the price; a variant without one, or no variant, keeps the card's base price |
| Sales.ItemName | static/shop/manage_sales.js:142 | '<product> - <variant>' when the variant name is non-empty, otherwise the product name |
| Sales.NewItem | static/shop/manage_sales.js:124-142 | the new entry's quantity is max(1, entered) and its key is the card's product and variant |
| Sales.FindIndex | static/shop/manage_sales.js:144 | a found index holds an entry with that key |
| Sales.FindIndexNone | static/shop/manage_sales.js:144 | not found means no entry has that key |
| Sales.FindIndexPresent | static/shop/manage_sales.js:144 | an entry with the key is found |
| Sales.RemoveAt | static/shop/manage_sales.js:206-209 | splice(index, 1) removes one entry |
| Sales.QuantityOfAppend | static/shop/manage_sales.js:144-155 | a key's total quantity adds over concatenation |
| Sales.QuantityOfSingle | static/shop/manage_sales.js:144-155 | a single entry's contribution to a key |
| Sales.ReplaceSameKey | static/shop/manage_sales.js:146-204 | rewriting one entry under the same key changes only that key's quantity, by the difference |
| Sales.RemoveAtKey | static/shop/manage_sales.js:206-209 | splicing an entry removes its quantity from its key and leaves the other entries as they were |
| Sales.QuantityOfUnique | static/shop/manage_sales.js:144-155 | in a cart with unique keys, a key's quantity is its entry's |
| Sales.QuantityOfAbsent | static/shop/manage_sales.js:144-155 | a key with no entry has quantity 0 |
| Sales.Merged | static/shop/manage_sales.js:144-155 | definition of the merge of a card into the sale cart; its meaning is stated by MergedQuantities, MergedLength, MergedValid and MergedWhole |
| Sales.MergedQuantities | static/shop/manage_sales.js:144-155 | adding a card raises its key's quantity by the entered quantity and leaves the other entries as they were |
| Sales.MergedLength | static/shop/manage_sales.js:144-155 | a new key is appended at the end and an existing key keeps the length |
| Sales.MergedValid | static/shop/manage_sales.js:144-155 | merging keeps keys unique and quantities positive |
| Sales.AfterAction | static/shop/manage_sales.js:195-210 | definition of a cart button's effect; its meaning is stated by AfterActionQuantities, AfterIncQuantity, AfterDecQuantity, AfterDropQuantity, AfterActionNoop and AfterActionValid |
| Sales.AfterActionQuantities | static/shop/manage_sales.js:195-210 | inc adds 1, dec subtracts 1 or removes the entry, remove deletes the entry, each affecting only that entry's key; other actions change nothing |
| Sales.AfterIncQuantity | static/shop/manage_sales.js:201-202 | inc adds 1 to that entry only |
| Sales.AfterDecQuantity | static/shop/manage_sales.js:203-204 | dec above 1 subtracts 1 from that entry only |
| Sales.AfterDropQuantity | static/shop/manage_sales.js:203-209 | remove, or dec at 1 or less, drops that entry's quantity |
| Sales.AfterDropIsRemoveAt | static/shop/manage_sales.js:203-209 | those actions splice the entry out |
| Sales.AfterActionRemovesKey | static/shop/manage_sales.js:203-209 | after such an action no entry has that key |
| Sales.RemoveAtIndex | static/shop/manage_sales.js:206-209 | the remaining entries keep their order |
| Sales.AfterActionNoop | static/shop/manage_sales.js:195-199 | an out-of-range index or an unknown action changes nothing |
| Sales.AfterActionValid | static/shop/manage_sales.js:195-210 | every cart action keeps keys unique and quantities positive |
| Sales.WholePositiveAtLeastOne | static/shop/manage_sales.js:129-205 | whole positive quantities are at least 1 |
| Sales.AfterActionWhole | static/shop/manage_sales.js:195-210 | cart actions keep whole quantities whole |
| Sales.MergedWhole | static/shop/manage_sales.js:146-153 | adding a whole quantity keeps quantities whole |
| Sales.StepperNext | static/shop/manage_sales.js:164-166 | the stepper never goes below 1; plus adds 1 and minus subtracts 1 down to 1 |
| Sales.OrderLines | static/shop/manage_sales.js:257-261 | one order line per cart entry, with its product, variant and quantity |
| Sales.SaleScreen.constructor | static/shop/manage_sales.js:22-25 | the screen starts with an empty cart, no Pix code, no order and no poller |
| Sales.SaleScreen.AddItemFromCard | static/shop/manage_sales.js:124-157 | the cart becomes the card merged into it, keys stay unique, nothing else changes |
| Sales.SaleScreen.CartAction | static/shop/manage_sales.js:189-213 | the cart becomes the action applied to it, keys stay unique, nothing else changes |
| Sales.SaleScreen.StopPixStatusPolling | static/shop/manage_sales.js:215-220 | the poller is cleared and nothing else changes |
| Sales.SaleScreen.BeginPoll | static/shop/manage_sales.js:223-229 | a status request goes out iff an order is watched, and it is for that order; nothing changes |
| Sales.SaleScreen.CompletePoll | static/shop/manage_sales.js:230-239 | after the request, paid or failed stops whatever poller is running now, and pending keeps it |
| Sales.SaleScreen.PollPixStatus | static/shop/manage_sales.js:222-240 | without an order nothing happens; a paid or failed poll stops polling; a pending one keeps it |
| Sales.SaleScreen.BeginSubmit | static/shop/manage_sales.js:244-263 | an empty cart posts nothing; otherwise the cart's order lines at the click are posted; nothing changes |
| Sales.SaleScreen.CompleteSubmit | static/shop/manage_sales.js:265-286 | a rejected sale changes nothing; a created one records order and Pix code, restarts the poller for a QR code and empties the cart as it is then |
| Sales.SaleScreen.OnSubmitSale | static/shop/manage_sales.js:242-294 | an empty cart posts nothing and changes nothing; otherwise the cart's order lines are posted; a rejected sale changes nothing; a created one empties the cart, records the order and Pix code, and restarts the poller when a QR code is shown |
| Seed.SeedProduct | shop/management/commands/seed_products.py:58-61 | a seeded row has the entry's name and is active |
| Seed.SeedPrices | shop/management/commands/seed_products.py:12-55 | six entries; the two pastels cost 12.00 and the four combos 15.00; all belong to the Cantina Missionaria cause |
| Seed.SeedNamesListed | shop/management/commands/seed_products.py:12-55 | the seed names, in order |
| Seed.NameListDistinct | shop/management/commands/seed_products.py:12-55 | the six names are pairwise distinct |
| Seed.SeedNamesDistinct | shop/management/commands/seed_products.py:12-55 | no two seeds share a name |
| Seed.SeedFor | shop/management/commands/seed_products.py:57-61 | the seed entry looked up by name has that name |
| Seed.NamedInAt | shop/management/commands/seed_products.py:57-61 | every seed's name is listed, and with distinct names it looks up that seed |
| Seed.NotNamedInRest | shop/management/commands/seed_products.py:57-61 | with distinct names, the first name is not among the rest |
| Seed.NamedInIndex | shop/management/commands/seed_products.py:57-61 | a listed name belongs to some seed |
| Seed.NamedInListed | shop/management/commands/seed_products.py:12-61 | a name belongs to a seed iff it is in the list of seed names |
| Seed.Deactivated | shop/management/commands/seed_products.py:10 | the bulk update keeps every row and id and sets every row inactive |
| Seed.MatchingIds | shop/management/commands/seed_products.py:58-61 | the name query returns ids of rows with that name |
| Seed.MatchingIdsComplete | shop/management/commands/seed_products.py:58-61 | every row with the name is returned |
| Seed.MatchingIdsAtMostOne | shop/management/commands/seed_products.py:58-61 | a name held by at most one row returns at most one id |
| Seed.MatchingIdsNone | shop/management/commands/seed_products.py:58-61 | a name held by no row returns nothing |
| Seed.MatchingIdsMeaning | shop/management/commands/seed_products.py:58-61 | no result iff no row has the name; at most one iff at most one row has it; a single result is that row |
| Seed.Upsert | shop/management/commands/seed_products.py:58-61 | definition of update_or_create by name; its meaning is stated by UpsertEffect and UpsertOtherNames |
| Seed.UpsertEffect | shop/management/commands/seed_products.py:58-61 | update_or_create fails iff two rows share the name; otherwise the matching row is updated in place (keeping its id) or a new one created, rows for other names are untouched, and the name ends with exactly one row equal to the seeded data |
| Seed.UpsertOtherNames | shop/management/commands/seed_products.py:58-61 | an upsert does not change which other names are present or unique |
| Seed.SeedAll | shop/management/commands/seed_products.py:57-61 | definition of the upsert loop, stopping at the first error; its meaning is stated by SeedAllEffect, SeedAllCovers, SeedAllCreatesNothing and SeedAllFails |
| Seed.SeedAllEffect | shop/management/commands/seed_products.py:57-61 | with unambiguous names the loop succeeds, keeps every id and name, leaves non-seed rows untouched and makes every seed-named or new row equal to its seed |
| Seed.SeedAllCovers | shop/management/commands/seed_products.py:57-61 | after the loop each seed name has exactly one row |
| Seed.SeedAllCreatesNothing | shop/management/commands/seed_products.py:57-61 | when every seed name already has a row, the loop creates none |
| Seed.SeedAllFails | shop/management/commands/seed_products.py:57-61 | a seed name shared by two rows makes the loop fail |
| Seed.Run | shop/management/commands/seed_products.py:9-61 | definition of deactivate-then-upsert for any seed list; its meaning is stated by RunFailsIff, RunActivates, RunOneRowPerSeed, RunKeepsRows and RunIdempotent |
| Seed.RunFailsIff | shop/management/commands/seed_products.py:9-61 | a run fails iff some seed name is held by two or more rows |
| Seed.RunActivates | shop/management/commands/seed_products.py:10-61 | afterwards a row is active iff its name is a seed name, and each seed-named row equals its seed's data |
| Seed.RunOneRowPerSeed | shop/management/commands/seed_products.py:57-61 | afterwards each seed name maps to exactly one row |
| Seed.RunKeepsRows | shop/management/commands/seed_products.py:10-61 | every earlier row survives with its id: seed-named rows are updated, and the others only deactivated |
| Seed.RerunSeedable | shop/management/commands/seed_products.py:9-61 | the result of a run can be seeded again, with every seed name present |
| Seed.RunIdempotent | shop/management/commands/seed_products.py:9-61 | a second run succeeds and leaves the table as the first run left it |
| Seed.HandleSpec | shop/management/commands/seed_products.py:9-61 | definition of handle with the six fixed entries; its meaning is stated by HandleFailsIff, HandleActivatesSeeds, HandleOneRowPerSeed, HandleKeepsRows and HandleIdempotent, and Handle runs it on the table |
| Seed.HandleFailsIff | shop/management/commands/seed_products.py:9-61 | handle fails iff one of the six names is held by two or more rows |
| Seed.HandleActivatesSeeds | shop/management/commands/seed_products.py:10-61 | afterwards a product is active iff its name is one of the six, with the seeded fields |
| Seed.HandleOneRowPerSeed | shop/management/commands/seed_products.py:12-61 | afterwards each of the six names maps to exactly one product |
| Seed.HandleKeepsRows | shop/management/commands/seed_products.py:10-61 | existing products keep their ids: matching ones are updated, not duplicated, and the rest are only deactivated |
| Seed.HandleIdempotent | shop/management/commands/seed_products.py:9-61 | running handle twice leaves the same catalogue as running it once |
| Seed.ProductTable.constructor | shop/models.py:4-11 | the table holds the given rows and next id |
| Seed.ProductTable.DeactivateAll | shop/management/commands/seed_products.py:10 | the table becomes its deactivated state |
| Seed.ProductTable.UpdateOrCreate | shop/management/commands/seed_products.py:58-61 | the table becomes the upsert's result, or is unchanged with the MultipleObjectsReturned error |
| Seed.Handle | shop/management/commands/seed_products.py:9-61 | the command's final table and error are those of the specification fold |

## Left out

- The `home` view (`shop/views.py:50-62`) only renders a template from `_get_cart` and `_build_cart_payload`, which are modelled.
- Payment, Pix payloads, order reconciliation and notifications: none of this code is part of this model. The views `shop/urls.py` routes to for them are not defined in `shop/views.py`.
- `static/shop/app.js` and `static/shop/manage_reports.js` are DOM rendering and request plumbing, and are not part of this model.
- `shop/admin.py` and `shop/urls.py` are configuration.
- Django ORM queries, `get_object_or_404`, `JsonResponse`, `render` and `request.session.modified` are framework code.
  - The catalogue is a map from id to product.
  - The 404 is the `NotFound` response.
  - A `ValueError` from `int()` inside `_build_cart_payload` is the `KeyNotAnInteger` error, answered as `ServerError`.
- CartViews.CollectItems and CartViews.PayloadTotals: amounts are exact cents. Python's `Decimal` rounds `price * quantity` and the running total to 28 significant digits (`shop/views.py:30-31`). The model agrees with the program only while every subtotal and the total stay below 28 significant digits.
- CartViews.ParsedQuantity: Python's `int()` raises on a text of more than 4300 digits, and the view then uses 1 (`shop/views.py:69`, `shop/views.py:95`). The model parses any length, so it agrees with the program only for quantity texts of at most 4300 digits. The same digit limit on cart keys (`shop/views.py:19`) does not arise: the views only write `str(id)` keys of catalogue ids.
- Session values that are dicts with non-integer quantities are not modelled: the cart's quantities are integers. `int(qty)` at `shop/views.py:29` and `shop/views.py:87` is therefore the identity.
- `int()` is modelled on ASCII digits, surrounding whitespace, a sign and single underscores. Python also accepts non-ASCII Unicode decimal digits; those are not modelled, so such a key is treated as unparsable.
- `str.lower()` is modelled exactly for the ASCII letters and the Kelvin sign (which lowers to `k`). Other characters are mapped to themselves. For membership in the all-ASCII `SENSITIVE_KEYS` this gives Python's verdict: the only other character whose lower case contains an ASCII letter, U+0130, lowers to two characters and so can never produce a sensitive key.
- `json.loads` and `json.dumps` are parameters (`loads`, `dumps`).
  - A JSON object is a list of members in order.
  - The shape of a `dumps` result is not modelled: only its prefix of 4000 characters is.
  - Any exception during extraction is `loads` returning `None`.
- Decoding the request body as UTF-8 (with errors ignored) is not modelled: the body is already text.
- The response time is an argument, because `time.time()` is a clock.
- The database write is the `dbAccepts` argument. A refused write adds no row and does not propagate.
- Audit.ExtractPayload: a `dumps` that itself raises is not modelled separately from a `loads` failure.
- Floating point in `manage_sales.js` is modelled as exact reals.
  - `Number()` on text is the `toNumber` parameter.
  - `toFixed` and `formatMoney` (`static/shop/manage_sales.js:73-75`) are not modelled.
  - `renderSaleCart`'s float totals (`static/shop/manage_sales.js:88-117`) are not modelled.
- `Number(card.dataset.productId)` is an integer product id here. A NaN id is not modelled.
- Sales.NewItem: the entered quantity and the variant id are taken as finite numbers.
  - For non-numeric quantity text, `Math.max(1, Number(...))` is NaN (`static/shop/manage_sales.js:129`), so `it.quantity >= 1.0` holds only for numeric input.
  - A NaN variant id (`static/shop/manage_sales.js:136`) never merges, since `NaN === NaN` is false (`static/shop/manage_sales.js:144`). Entries with such ids could then repeat a key, which `CartValid` rules out.
- Sales.SaleScreen.CartAction: `Number(button.dataset.index)` is given as an integer index, so fractional or NaN indices, which JavaScript treats as missing, are not modelled.
- Entered quantities are reals, so after `dec` a fractional quantity between 0 and 1 can remain. `AfterActionWhole` and `WholePositiveAtLeastOne` show that quantities stay at least 1 when every entered quantity is whole.
- The DOM, the modal, the clipboard, `fetch` and timers are not modelled.
  - The interval handle `setInterval` returns is the `newPoller` argument.
  - The result of the sale request is `outcome`.
  - The result of a status poll is the `PollOutcome` argument.
  - The first poll that `onSubmitSale` starts sends its request inside `onSubmitSale`, a `BeginPoll`, which changes nothing; its completion is a later `CompletePoll`.
- Sales.SaleScreen.PollPixStatus and Sales.SaleScreen.OnSubmitSale take their await as atomic: each runs its request and its completion with nothing in between. The interleavings the source allows are modelled only by their halves, `BeginPoll`/`CompletePoll` and `BeginSubmit`/`CompleteSubmit`, called separately. For example, a poll for an earlier order that completes after a new sale started its interval stops the new poller (`CompletePoll`). Items added while a sale request is in flight are dropped when it completes (`CompleteSubmit`).
- Seeding: `created_at` and the model's ordering are not modelled.
  - Names match exactly; a database collation that compares names case-insensitively is not modelled.
  - New ids are assigned from `nextId`.
  - Each upsert commits on its own, so a failed run keeps the rows written before the failure. This is what `SeedAll` models; no transaction is modelled.
- Seed.SeedPrices: the two descriptions of each fixed entry are carried as data, and only prices, causes and names have lemmas of their own.
