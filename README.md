# Live Buy Bot — a verified Dafny model

The Live Buy Bot announces token purchases on Discord and Telegram. It has two entry points:

- an HTTP webhook (`src/index.js`). It receives signed `purchase.confirmed` events from a sale backend. It deduplicates them by order id and posts them to the configured channels.
- an on-chain watcher (`src/watcher.js`). It parks each `Purchase` log until the log has enough confirmations, then announces it.

Both use the helpers of `src/utils.js`. The webhook uses the persistent order-id store of `src/dedupStore.js`.

This project models those four files in Dafny and proves properties of the model:

| file | module | form |
|---|---|---|
| `utils.js` | `Utils` (with `Decimal`, `Js`, `Utf8`, `Wrappers`) | pure functions and lemmas |
| `dedupStore.js` | `DedupStoreModel` | a class `DedupStore` whose `entries` map is the file's contents; `add` builds the entry list, insertion-sorts it in an array, keeps the newest 5000 |
| `watcher.js` | `Watcher` | pure `explorerTx` and argument extraction; a class `Tracker` whose `pending` field is the JavaScript `Map` as a sequence of slots in insertion order |
| `index.js` | `Webhook` | the decision chain and the Telegram text as functions (the text takes `amountTokenStr`, which the handler computes once for both posts); the handler as a method that updates a `DedupStore` |

The supporting modules:

- `Decimal`: non-negative integers and their decimal digit strings (`toString`, `padStart`, stripping trailing zeros).
- `Js`: the JavaScript value semantics the code relies on. It covers truthiness, `??`, `||`, `String(...)`, `trim` and `BigInt(string)`.
- `Utf8`: `Buffer.from(s, 'utf8')` as an injective encoding of strings of Unicode scalar values. Lone surrogates are not modelled (see "## Left out").

Outside effects become parameters:

- HMAC-SHA256 and `JSON.parse` are `Webhook.Services`.
- The outcome of each channel post is `Webhook.Delivery`. So are the floating-point USD/IDR texts and the whale comparison.
- `Date.now()` is the `now` argument of `add`.
- `parseLog` is a `Watcher.ParseResult`.
- Whether `announce` succeeds is `Watcher.Block.delivered`.
- The configuration (`EXPLORER_BASE`, `CONFIRMATIONS`, `TOKEN_DECIMALS`, the webhook environment) is passed in as arguments.

Two places where the model follows the code rather than the written design:

- In the watcher, a failed `announce` is caught and the entry stays in `pending`. It is retried on every later block (`Watcher.PendingUntilDelivered`). It is not dropped.
- In the webhook, the Discord and Telegram posts are awaited one after the other with no catch of their own. A failed Discord post is a 500. Telegram is then not tried and the order id is not recorded (`Webhook.DiscordFailureStopsEverything`). The failures are not isolated per channel.

## Model

| member | source | states |
|---|---|---|
| Utils.TimingSafeEqualHex | src/utils.js:4-9 | false whenever the UTF-8 encodings differ in length; otherwise true exactly when the byte sequences are equal |
| Utils.TimingSafeEqualHexIsEquality | src/utils.js:4-9 | because UTF-8 encoding is injective, the comparison is string equality; it is therefore reflexive and symmetric |
| Utils.SplitAt | src/utils.js:17-20 | the BigInt quotient and remainder by 10^decimals: `whole * 10^decimals + frac == n` with `frac < 10^decimals` |
| Utils.FormatUnits | src/utils.js:15-27 | an amount BigInt rejects, or a negative `decimals`, returns the input unchanged; otherwise the amount is split at 10^decimals and rendered |
| Decimal.ToDecimal | src/utils.js:21-23 | `toString()` of a non-negative BigInt: a non-empty digit string whose value is the number |
| Decimal.PadStart | src/utils.js:22 | `padStart(k, '0')`: length k or the old length if longer, still digits |
| Decimal.TrimTrailingZeros | src/utils.js:22 | `replace(/0+$/, '')`: a prefix of the input, only '0's removed, not ending in '0' |
| Utils.FractionDigits | src/utils.js:22 | the fraction string never ends in '0' and is no longer than the padded remainder |
| Utils.RenderWhole | src/utils.js:21 | a zero remainder prints the quotient's digits alone, with no '.' |
| Utils.ScaleIsWhole | src/utils.js:17-23 | for n = whole * 10^decimals + frac with frac < 10^decimals, the amount prints as the quotient's digits alone exactly when frac is 0 |
| Js.StringToBigInt | src/utils.js:17 | `BigInt(s)` on decimal strings: every accepted string is, once trimmed, a digit string read as its value, so a blank-only string is 0; any other form is the parse failure |
| Utils.RenderShape | src/utils.js:21-23 | a zero remainder prints the quotient with no '.'; otherwise the digits after the '.' number 1 to `decimals` and do not end in '0' |
| Utils.FractionDigitsShape | src/utils.js:22 | the padded, zero-stripped remainder has 1..decimals digits, no trailing '0', and still denotes the remainder in units of 10^-decimals |
| Utils.ScaleRoundTrip | src/utils.js:17-23 | reading the printed amount back as a decimal and scaling by 10^decimals gives the original integer |
| Utils.FormatUnitsRoundTrip | src/utils.js:15-27 | the same round trip for every string BigInt accepts |
| Utils.FormatUnitsOfDecimal | src/utils.js:15-23 | on the decimal string of n, `formatUnits` is the split-and-render of n |
| Utils.FormatUnitsZero | src/utils.js:15-21 | "0" prints as "0" for every number of decimals |
| Utils.ScaleOfMultiple | src/utils.js:19-21 | an exact multiple of 10^d prints as the quotient alone |
| Utils.ScaleOfCanonical | src/utils.js:19-23 | a canonical "W.F" read as 10^-d units prints back as itself |
| Utils.FormatUnitsOfMultiple | src/utils.js:17-21 | a digit string worth whole·10^d prints, at d decimals, as the whole amount |
| Utils.FormatUnitsOfCanonical | src/utils.js:17-23 | a digit string worth the canonical "W.F" in units of 10^-d prints, at d decimals, as "W.F" |
| Utils.FormatUnitsOneToken | src/utils.js:15-21 | `formatUnits("1000000000000000000", 18)` is "1" |
| Utils.FormatUnitsFraction | src/utils.js:15-23 | `formatUnits("1234500000000000000", 18)` is "1.2345" |
| Utils.MaskAddress | src/utils.js:29-33 | falsy values, non-strings and strings of at most 10 characters are returned unchanged; a longer string becomes its first 6 characters, '…', and its last 4, 11 characters in all |
| Utils.MaskAddressIdempotent | src/utils.js:29-33 | masking twice is masking once |
| Utils.MaskAddressExample | src/utils.js:32 | an 18-character address keeps "0xBEEF" and "2233" around the ellipsis |
| DedupStoreModel.DedupStore.constructor | src/dedupStore.js:13-22 | `load()`: the stored map, or the empty map when the file cannot be read or parsed |
| DedupStoreModel.DedupStore.Add | src/dedupStore.js:34-46 | the new contents are a pruning (`Pruned`) of the old map with `key` stamped `now` |
| DedupStoreModel.Prune | src/dedupStore.js:37-45 | the map is kept whole when it has at most 5000 entries; otherwise exactly 5000 of its entries remain, unchanged, and no evicted entry is newer than a kept one |
| DedupStoreModel.KeepNewest | src/dedupStore.js:39-42 | sorting the entries by stamp and rebuilding a map from the last 5000 gives such a pruning |
| DedupStoreModel.SortedCopy | src/dedupStore.js:40 | the entries, copied into an array and sorted there: same length, a permutation, ascending by stamp |
| DedupStoreModel.SortByStamp | src/dedupStore.js:40 | in-place sort of the array: sorted by stamp and a permutation of the old contents |
| DedupStoreModel.InsertAt | src/dedupStore.js:40 | one insertion step extends the sorted prefix by one and permutes the array |
| DedupStoreModel.EntriesOf | src/dedupStore.js:37 | `Object.entries(map)`: lists every entry of the map exactly once, each key once |
| DedupStoreModel.FromEntries | src/dedupStore.js:41 | `Object.fromEntries`: inserts the pairs in order, a later pair overwriting an earlier one |
| DedupStoreModel.SortedNewestArePruned | src/dedupStore.js:39-41 | the last 5000 of any stamp-sorted permutation of the entries form a pruning of the map |
| DedupStoreModel.PrunedBound | src/dedupStore.js:37-45 | after any `add` the store holds at most 5000 entries: exactly 5000 if the map was over the bound, the whole map otherwise |
| DedupStoreModel.PrunedKeepsNewest | src/dedupStore.js:36-41 | a stamp newer than all other stamps survives pruning with its value |
| DedupStoreModel.AddThenHas | src/dedupStore.js:29-46 | after `add(key)` with a fresh non-zero stamp, `has(key)` holds |
| DedupStoreModel.DedupStore.Has | src/dedupStore.js:29-32 | `has(key)` as intended: true exactly for an own key with a non-zero stamp, and then the written lookup is true as well |
| DedupStoreModel.DedupStore.HasAsWritten | src/dedupStore.js:29-32 | `has(key)` as written: true for every stored key with a non-zero stamp; true for any other key only when it is not stored and names an inherited `Object.prototype` member |
| DedupStoreModel.HasAsWrittenAgrees | src/dedupStore.js:29-32 | `!!map[key]` agrees with the own-key lookup on every key that is not an inherited `Object.prototype` name |
| DedupStoreModel.HasAsWrittenInheritedNames | src/dedupStore.js:29-32 | an inherited name that was never added is reported as seen by `!!map[key]` but not by the own-key lookup |
| DedupStoreModel.HasAsWrittenConstructor | src/dedupStore.js:31 | on an empty store, `has("constructor")` as written is true |
| Watcher.Directory | src/watcher.js:24-25 | the base with exactly one '/' at its end: a '/' is added only when the base does not already end in one |
| Watcher.ExplorerTx | src/watcher.js:22-27 | `undefined` exactly when the base is empty; otherwise the directory followed by "tx/" and the hash |
| Watcher.ExplorerTxSlash | src/watcher.js:25 | a base with or without its trailing '/' gives the same link |
| Watcher.ExplorerTxInjective | src/watcher.js:26 | with an explorer base configured, different hashes give different links (with no base, every hash gives no link) |
| Watcher.Request | src/watcher.js:89-92 | buyer and amount come from the named fields when they are not nullish, else from positions 0 and 1; the amount is rendered by `formatUnits` with DEC; a `null` parse result throws (None) |
| Watcher.AnnouncedAmount | src/watcher.js:91-92 | a uint256 amount is announced as its decimal rendering, which reads back as the same amount |
| Watcher.EligibleMonotone | src/watcher.js:87 | an entry with enough confirmations at one height has enough at every later height |
| Watcher.Eligible | src/watcher.js:87 | with no confirmations required a log is eligible from its own block on; with some required it is never eligible in its own block |
| Watcher.CallFor | src/watcher.js:87-93 | `announce` is called for a slot exactly when it has enough confirmations and a non-null parse result |
| Watcher.Deliverer | src/watcher.js:87-94 | the slots the block handler deletes are exactly those announced successfully |
| Watcher.Survivors | src/watcher.js:94 | removing the delivered entries: every other entry stays, unchanged, and nothing is added |
| Watcher.AfterBlockEffect | src/watcher.js:85-101 | one block never adds or alters an entry, leaves every entry without enough confirmations alone, and removes an entry iff its announcement succeeded |
| Watcher.AfterBlocksShrinks | src/watcher.js:85-101 | over any run of blocks the key set only shrinks and kept entries are unchanged |
| Watcher.PendingUntilDelivered | src/watcher.js:93-98 | an entry that is not delivered in a block, because it is unconfirmed, unparsed or its announcement failed, stays pending unchanged for a later retry |
| Watcher.NullParseStaysPending | src/watcher.js:89-98 | a log whose parse result is `null` never leaves `pending` |
| Watcher.DeliveredLeaves | src/watcher.js:93-94 | a delivered entry leaves the map in that block |
| Watcher.GoneOnceDelivered | src/watcher.js:93-94 | once delivered in some block, an entry is gone for good |
| Watcher.Put | src/watcher.js:78 | `Map.set`: a new hash is appended at the end; a present hash keeps its place |
| Watcher.Replace | src/watcher.js:78 | overwriting keeps every slot's position and hash; only the slot of that hash changes |
| Watcher.PutItems | src/watcher.js:78 | as a map, `set` is the map update; the hashes stay distinct and the positions of existing slots are unchanged |
| Watcher.Keep | src/watcher.js:86-94 | the slots that survive the walk, in order; none of them is one the test removes |
| Watcher.Calls | src/watcher.js:86-93 | the `announce` calls number at most one per slot |
| Watcher.CallsMembers | src/watcher.js:86-93 | a request is announced exactly when some slot of the snapshot produces it, so every eligible entry whose log parsed gets its call and no other call is made |
| Watcher.CallsAppend | src/watcher.js:86-93 | the calls for two runs of slots are the calls for the first run followed by those for the second: the calls follow the snapshot's order |
| Watcher.KeepItems | src/watcher.js:86-94 | deleting slots along the walk and filtering the map agree |
| Watcher.KeepDistinct | src/watcher.js:94 | deleting slots keeps the hashes distinct |
| Watcher.DeleteStep | src/watcher.js:94 | `pending.delete(txHash)` during the walk removes exactly the current slot |
| Watcher.Delete | src/watcher.js:94 | `pending.delete(h)`: no slot for h remains and no slot is added |
| Watcher.Sweep | src/watcher.js:86-100 | the loop over the snapshot: the Map ends as the slots that were not delivered, and the calls are those made per eligible, parsed slot |
| Watcher.Tracker.constructor | src/watcher.js:73 | `new Map()` is empty |
| Watcher.Tracker.OnLog | src/watcher.js:75-83 | a parsed log sets `pending[txHash]` to its block number and parse result, overwriting an earlier entry; a parse error changes nothing |
| Watcher.Tracker.OnBlock | src/watcher.js:85-101 | the Map afterwards is the old one minus the delivered entries, as slots and as a map; the calls made are those for the eligible, parsed entries, in order |
| Webhook.Status | src/index.js:26-94 | the HTTP status of each reply: 200 exactly for skipped, duplicate and accepted |
| Webhook.SentSignature | src/index.js:23 | the first header with a non-empty value, else '' |
| Webhook.OrderId | src/index.js:36 | a falsy `orderId` gives ''; otherwise `String(orderId)` |
| Webhook.Decimals | src/index.js:40 | a missing `tokenDecimals` is 18; a number is taken as it is; no negative value comes from a string |
| Webhook.DecimalsOfDigits | src/index.js:40 | a digit string is read as its value |
| Webhook.AmountText | src/index.js:41 | with decimals that are NaN, `formatUnits` returns `String(amountToken ?? '0')` |
| Webhook.AmountTextMissing | src/index.js:41 | a missing amount is shown as "0" |
| Webhook.AmountTextDefault | src/index.js:40-41 | with the default 18 decimals, a decimal amount is shown as a string that reads back as the same amount |
| Webhook.UsdSourceOf | src/index.js:43-45 | the price path iff a price is present; the paid-amount path iff there is no price and the currency is 'USD'; otherwise no USD total |
| Webhook.NoUsdNoWhale | src/index.js:44-49 | without a USD total there is no whale |
| Webhook.WhaleHasUsd | src/index.js:44-49 | a whale needs a USD total: a price is present or the payment currency is 'USD' |
| Webhook.BuyerShownTruthy | src/index.js:48 | masking never changes whether the buyer is shown: the shown value is truthy iff `data.buyer` is |
| Webhook.AmountLineCaption | src/index.js:75 | the trimmed amount line always starts with "Amount:" |
| Webhook.TelegramLines | src/index.js:72-78 | six entries, the first the title with the whale or green-circle emoji |
| Webhook.TelegramLinesPresent | src/index.js:74-78 | the amount line is always there; buyer and Tx lines exactly when their values are truthy; the USD and IDR lines exactly when there is a USD total |
| Webhook.Compact | src/index.js:79 | `filter(Boolean)` keeps no empty line and no more lines than it is given |
| Webhook.CompactMembers | src/index.js:79 | a line is kept exactly when it is a non-empty `Some` entry: every shown line reaches the text and nothing else does |
| Webhook.CompactAppend | src/index.js:79 | filtering two runs of entries gives the kept lines of the first followed by those of the second: the kept lines keep their order |
| Webhook.SplitJoin | src/index.js:79 | for a non-empty list of lines none of which holds the separator, splitting the `join` at the separator gives the lines back |
| Webhook.TelegramTextLines | src/index.js:72-79 | when no entry holds a '\n', the text's lines are the title followed by the non-null, non-empty optional lines, in order (a buyer, symbol or Tx value holding '\n' adds lines in the source) |
| Webhook.TelegramTextTitle | src/index.js:72-79 | the posted text starts with the title line |
| Webhook.Checks | src/index.js:22-37 | the store-independent exits; an announced order has a non-empty id and came from a parsed body; the signature exit happens iff the signatures differ |
| Webhook.Triage | src/index.js:22-38 | adds the dedup lookup, with the corrected `has`: an announced order is non-empty and not yet seen; the duplicate exit happens iff the checks pass and the id is seen |
| Webhook.TriageAsWritten | src/index.js:22-38 | the same chain with `has` as written (`!!map[key]`): the duplicate exit happens iff the checks pass and the written lookup finds the id |
| Webhook.Posts | src/index.js:40-95 | the order is recorded iff the reply is accepted, only under its own id, and only after every configured channel succeeded; Discord is posted iff configured; Telegram is posted iff configured and Discord did not fail |
| Webhook.Expected | src/index.js:20-96 | the whole handler (corrected lookup): a recorded order is accepted and was not seen before; a duplicate reply means the checked id was seen |
| Webhook.ExpectedAsWritten | src/index.js:20-96 | the whole handler as written: a duplicate reply means the written lookup found the checked id |
| Webhook.AsWrittenAgrees | src/index.js:38 | the written and the corrected handler give the same outcome whenever the order id is not an inherited `Object.prototype` name |
| Webhook.PrototypeIdAsWritten | src/index.js:38-89 | for an unstored inherited name as order id, the written handler answers `dedup` with no post and no record, while the corrected one announces it and, when the posts succeed, records it |
| Webhook.ConstructorOrderAsWritten | src/index.js:22-89 | a signed `purchase.confirmed` event for order "constructor" on an empty store: `dedup` as written, accepted and recorded as intended |
| Webhook.SignatureFirst | src/index.js:23-27 | a bad signature is a 401 with no posts and no record, whatever the body would parse to |
| Webhook.MissingHeaderRejected | src/index.js:23-27 | with neither header the sent signature is '', and a request whose digest is non-empty is rejected |
| Webhook.EarlyExitsAreQuiet | src/index.js:26-38 | every early exit replies without posting and without recording |
| Webhook.ExitOrder | src/index.js:30-38 | once the signature is good: invalid JSON is 400, a `null` body is 500, another event is skipped, a falsy order id is 400, an id seen by the corrected lookup is a duplicate, else the order is announced |
| Webhook.DiscordFailureStopsEverything | src/index.js:51-94 | a failed Discord post is a 500; Telegram is not tried and nothing is recorded |
| Webhook.RecordedOnlyAfterPosts | src/index.js:51-95 | for the whole handler: recorded iff accepted; only after every configured post succeeded; each channel only when configured; only an announced order |
| Webhook.RecordedIsAnnounced | src/index.js:36-89 | only an order that passed every check is recorded, under its own id |
| Webhook.SeenIsDuplicate | src/index.js:38 | once an announced order's id is in the store, the same request is a duplicate |
| Webhook.RedeliveryIsDuplicate | src/index.js:38-89 | a recorded request delivered again, with the stamp the newest, is answered as a duplicate |
| Webhook.HandleWebhook | src/index.js:20-96 | the handler, with the corrected lookup, returns `Expected(...)` of the old store; the store is a pruning of the old one with the order stamped when it is recorded, and unchanged otherwise |

## Left out

- Concurrency: overlapping asynchronous block handlers and concurrent webhook requests. Each handler runs as one sequential step, so the race between `has` and `add` is not modelled.
- HMAC-SHA256 (`hmacHexSha256`) and `JSON.parse` are uninterpreted functions. The constant-time property of `crypto.timingSafeEqual` is a timing property and is not stated.
- `fmtCurrency`, `fmtIDR`, the `Number(...)` conversions of prices and paid amounts, the products and `Math.round`, and the numeric whale comparison are floating point and locale formatting. The model keeps which USD source is chosen. The formatted texts and the comparison's outcome are inputs (`Webhook.Delivery`).
- The Discord embed payloads of both files and the `announce` message texts of `src/watcher.js` (lines 29-62) are left out. The watcher's `announce` is an oracle on its arguments. For the webhook, only the fact that Discord is posted is recorded.
- `fs` details of `ensure`/`load`/`save`. The file is the `entries` field. A missing, empty or unparsable file loads as the empty map. A file that parses to a non-object (such as `null`, which makes `map[key]` throw) is not modelled.
- Express routing, the raw-body `Buffer` decoding, axios, the ethers provider, `Interface`, topic hashing, the `error`/`close` handlers and `process.exit`.
- Timestamps and `new Date()` are parameters.
- `scripts/sendTest.js` is a manual test client and is not part of this model.
- Js.StringToBigInt: `BigInt`'s hexadecimal, octal, binary and signed forms are treated as parse failures. So `formatUnits` returns those inputs unchanged rather than rendering them.
- Webhook.Decimals: only nullish values, integers and trimmed decimal-digit strings are converted; every other value is taken as NaN, so `formatUnits` returns the amount string unchanged. `Number(...)` reads more values as integers: `true` (1) and `false` (0); strings such as "18.0", "1e1", "+18", "0x12" and "-5"; and arrays such as `[18]` or `["18"]`. For these the source renders the amount at that scale, or for "-5" hits the RangeError, where the model returns the raw amount string. Numbers are integers in the model.
- Js.ToStr, Webhook.OrderId, Webhook.AmountText: `Num` stands only for integers that `String` prints digit by digit, i.e. JSON numbers below 10^21 in magnitude. A parsed JSON number of 10^21 or more prints in exponent form (`String(1e21)` is "1e+21"); the model takes it as an `Other` value carrying that text, so an `orderId` of 1e21 is recorded as "1e+21" and an `amountToken` of 1e21 is shown raw after `BigInt` rejects it. The JSON parse is a parameter, so this is a convention on its results, not something the model checks.
- Utils.FormatUnits: integers are unbounded. V8 caps BigInt size, so for `decimals` above roughly 3.2 * 10^8 `10n ** BigInt(decimals)` throws a RangeError and the source returns the raw string; the model renders the scaled value.
- Watcher.Request: `DEC` and `CONF` come from `Number(...)` of the environment. A NaN there is not modelled; both are integers.
- `MASK_BUYER` and the other environment settings are plain booleans and strings (`Webhook.Config`). The regular expression on `MASK_BUYER` is not modelled.
- Utils.TimingSafeEqualHexIsEquality: Dafny strings hold only Unicode scalar values, so the UTF-8 encoding is injective and the comparison is string equality. JavaScript strings may hold lone surrogates, which `Buffer.from(s, 'utf8')` encodes as U+FFFD, so in the source `timingSafeEqualHex("\uD800", "\uFFFD")` is true. The model does not capture this.
- Utils.MaskAddress: lengths count characters of the string. JavaScript counts UTF-16 code units, which differ for characters outside the Basic Multilingual Plane.
- DedupStoreModel.DedupStore.Add: the key `"__proto__"` is stored like any other key. On a plain JavaScript object, that assignment changes the prototype instead of adding an own entry.
- Webhook.Triage: the dedup exit uses the corrected lookup `Seen` (own keys only). As written, `dedup.has` also reports an unstored `Object.prototype` name such as "constructor" as seen, so the source answers `dedup` where the model announces the order. `Webhook.TriageAsWritten` models the code as written.
- Webhook.ExitOrder: "a seen id is a duplicate" is stated for the corrected lookup. For an unstored inherited name the source answers `dedup` while this lemma says the order is announced (`Webhook.PrototypeIdAsWritten`).
- Webhook.HandleWebhook: the method calls the corrected `DedupStore.Has`, not `HasAsWritten`, so for an unstored inherited name as order id it posts and records where the source answers `dedup` (`Webhook.ConstructorOrderAsWritten`).
- DedupStoreModel.Prune: which of several entries with the same stamp survives is left open, because it depends on the key order of `Object.entries`.
- DedupStoreModel.DedupStore.Add: a JSON file holding non-number stamps is not modelled. Stamps are integers.

## Findings

| source | as written | input that shows it | evidently intended | confidence | as-written member | corrected member |
|---|---|---|---|---|---|---|
| src/dedupStore.js:29-32 | `has` returns `!!map[key]` on a plain object, so keys inherited from `Object.prototype` read as present (`DedupStoreModel.HasAsWrittenConstructor`) | a signed `purchase.confirmed` event with order id `"constructor"` (or `"toString"`, `"__proto__"`, ...) on an empty store: `has` is true, so the webhook answers `dedup` and never announces the order | `has(key)` is true only for an own key with a truthy stamp, so the order is announced and recorded | not executed | Webhook.ConstructorOrderAsWritten | Webhook.Triage |

The webhook model uses the corrected lookup (`DedupStoreModel.Seen`): `Webhook.Triage` states that the duplicate exit happens exactly for a seen id, and `DedupStoreModel.AddThenHas` and `Webhook.RedeliveryIsDuplicate` are proved about it. `Webhook.TriageAsWritten` and `Webhook.ExpectedAsWritten` model the handler as written; `Webhook.AsWrittenAgrees` shows the two differ only on inherited names.
