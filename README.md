# Grocery price-comparison bot: a verified model of its cart and optimizer logic

This project models the core of `handlers.py`, the message handlers of a
Telegram bot. The bot keeps a per-user shopping cart and compares grocery
prices across stores. A user types a product name. The bot normalizes it
and matches it against the catalogue's product groups. The user picks a
group and a variant, types a quantity, and the line goes into the cart.
`/calculate` then prices the whole cart in each store. `/optimize` splits
the cart over at most two stores, using an integer linear program.

The model is in Dafny, one module per part of the handler code:

- `Text` (`text.dfy`): the Python string operations the handlers use.
  These are `lower`, `capitalize`, `strip`, `split`, substring tests and
  `sorted` on sets of strings.
- `Normalizer` (`normalizer.dfy`): `normalize_product_name`. It lower-cases
  and trims the name, runs six regular-expression deletions of quantities
  (percent, litres, grams, kilograms, pieces, packs), and removes trailing
  commas and whitespace.
  - Each deletion is a deterministic left-to-right pass with a greedy
    prefix match.
  - A lemma proves that this match agrees with the regular expression's
    own definition.
- `Catalog` (`catalog.dfy`): over the product rows `(name, store, price)`.
  - The grouping of raw names by normalized key, built as a dictionary of
    sets, with the keys in first-seen order.
  - The price table: the minimum price per (product, store).
- `Resolver` (`resolver.dfy`): the rest of product lookup.
  - The match test of a query against a group key.
  - The classification of `process_product_name` into its four answers.
  - The selection step of `process_product_selection`, with the state it
    reads back from the conversation.
- `ShoppingCart` (`cart.dfy`): the session cart, a `Cart` class.
  - Its fields are the quantity map and the insertion order.
  - Its methods make the in-place updates of `process_quantity`,
    `process_remove_product` and `cmd_clear`.
  - It also covers parsing the typed quantity.
- `Totals` (`totals.dfy`): `cmd_calculate`. It computes per-store totals,
  the missing products in cart order, and a cheapest store.
- `Optimizer` (`optimizer.dfy`): `cmd_optimize`.
  - The ILP's feasible set and objective, with the source's
    `prices.get(j, 0)`.
  - A verified enumeration that reaches an optimum of that ILP.
  - The reported total, per-shop costs and used shops.
  - The single-store baseline and the savings.
- `Wrappers` (`wrappers.dfy`): `Option`.

The optimizer is parameterised by a `Pricing`:
- `AsWritten` is the objective as the source states it. An item a store
  does not sell costs 0 there.
- `Covering` is the evidently intended objective. An item may only be
  assigned to a store that sells it.

The PuLP solver is replaced by the problem it solves. `Optimizer.Optimize`
tries every ordered pair of shops and, within each pair, the cheaper
allowed store for each line. It is proved to return an optimal assignment,
or none exactly when no feasible assignment exists.

Some behaviour of the code is easy to misread; the model keeps it as written:

- **Normalization is not idempotent.** `Normalizer.NormalizeNotIdempotent`
  proves that "2 1гл" normalizes to "2 л", and "2 л" normalizes to "".
- **Matching uses substrings, not shared words.** A key matches when the
  query occurs in it, it occurs in the query, or some query word occurs in
  it (handlers.py:129-131).
- **Ties are not broken by name.** Of equally cheap stores, `min` returns
  the first in dictionary order, and the solver returns whichever optimum it
  finds. The model promises *some* minimal store.
- **Unsold lines cost nothing.** The optimizer's objective prices a line
  at 0 in a store that does not sell it; see "## Findings".

## Model

| member | source | states |
|---|---|---|
| Text.Lower | handlers.py:43 | `lower()`: same length, each character mapped through the case table |
| Text.Capitalize | handlers.py:207 | `capitalize()`: the first character upper-cased, the rest equal to `Lower` of the rest |
| Text.StripMeaning | handlers.py:43 | `strip()` keeps a contiguous block of the input and removes only whitespace before and after it |
| Text.StripPadded | handlers.py:43 | whitespace around a text that neither starts nor ends with whitespace is exactly what `strip()` removes |
| Text.LStrip | handlers.py:55 | `lstrip()`: a suffix of the input obtained by dropping only whitespace, and not starting with whitespace |
| Text.RStrip | handlers.py:43 | `rstrip()`: a prefix of the input obtained by dropping only whitespace, and not ending with whitespace |
| Text.StripUnpadded | handlers.py:200 | a text without whitespace at either end is its own `strip()` |
| Text.RStripCommaSpace | handlers.py:54 | `re.sub(r'[,\s]+$', '', s)`: the longest prefix not ending in a comma or whitespace, only commas and whitespace removed |
| Text.SubstringAt | handlers.py:129-131 | Python's `a in b` holds exactly when `a` occurs at some position of `b` |
| Text.TakeWord | handlers.py:131 | the longest whitespace-free prefix, stopped by whitespace or the end |
| Text.WordsEmpty | handlers.py:131 | `split()` returns no piece exactly when the text is whitespace only |
| Text.WordsCoverText | handlers.py:131 | joined together, the pieces of `split()` are the text's non-whitespace characters in order, so each lies in exactly one piece |
| Text.WordsOfSingleWord | handlers.py:131 | a whitespace-free non-empty text splits into itself alone |
| Text.LexLeTotal | handlers.py:137 | string order is total |
| Text.LexLeAntisymmetric | handlers.py:137 | string order is antisymmetric |
| Text.LexLeTransitive | handlers.py:137 | string order is transitive |
| Text.Least | handlers.py:186 | a member of the set that is below every member |
| Text.SortSet | handlers.py:137 | `sorted(set)`: same size, same elements, strictly increasing |
| Normalizer.PatternsWellFormed | handlers.py:45-52 | the six unit patterns have non-empty units whose letters are never digits, whitespace, `.` or `,` |
| Normalizer.DigitsEnd | handlers.py:45 | the end of the run of digits starting at `i`: all digits up to it, a non-digit or the end after it |
| Normalizer.SpacesEnd | handlers.py:45 | the end of the run of whitespace starting at `i` |
| Normalizer.MatchLen | handlers.py:45-52 | the greedy match of `\d+[.,]?\d*\s*UNIT` (or `\d+\s*UNIT`) at the start: a positive length within the text |
| Normalizer.MatchLenExact | handlers.py:45-52 | the greedy match has length `n` exactly when the regular expression matches a prefix of length `n`, and it finds nothing exactly when no prefix matches |
| Normalizer.GreedyFindsSplit | handlers.py:45-52 | any decomposition of a prefix into digits, separator, digits, spaces and unit is the one the greedy match finds |
| Normalizer.Delete | handlers.py:45-52 | one `re.sub(pattern, '', s)` pass never lengthens the text |
| Normalizer.DeleteWithoutDigits | handlers.py:45-52 | a deletion pass leaves a text without digits unchanged |
| Normalizer.DeleteWithoutUnitLetter | handlers.py:45-52 | a deletion pass leaves a text without the unit's first letter unchanged |
| Normalizer.Normalize | handlers.py:42-57 | the normalized name is empty, or it does not start with whitespace and ends with neither whitespace nor a comma |
| Normalizer.StripAfterCommaStrip | handlers.py:54-55 | after the trailing-comma removal, `strip()` only strips the left end and keeps the last character |
| Normalizer.NormalizeWithoutDigits | handlers.py:42-57 | a name without digits normalizes to its lower-cased, stripped form with trailing commas and whitespace removed |
| Normalizer.NormalizeNotIdempotent | handlers.py:42-57 | normalizing twice differs from normalizing once: "2 1гл" gives "2 л", which gives "" |
| Normalizer.FirstRound | handlers.py:42-57 | "2 1гл" normalizes to "2 л": the litre pass keeps it and the gram pass deletes "1г" |
| Normalizer.SecondRound | handlers.py:42-57 | "2 л" normalizes to "": the litre pass deletes "2 л" |
| Catalog.KeyOrderOf | handlers.py:118-123 | the group keys in first-seen order: no repetition, exactly the grouping's keys |
| Catalog.NamesOfRows | handlers.py:119 | a name is among the catalogue names exactly when some row carries it |
| Catalog.GroupsOfMeaning | handlers.py:118-123 | every row's name is in the group of its normalized name, and every group member is a catalogue name with that key |
| Catalog.GroupOfEveryName | handlers.py:118-123 | every raw name lies in the group keyed by its own normalized name and in no other |
| Catalog.GroupMembersHaveKey | handlers.py:118-123 | every name in a group normalizes to the group's key and comes from a row |
| Catalog.GroupsGrowWithRows | handlers.py:118-123 | more rows never remove a key or shrink a group |
| Catalog.GroupsIgnoreRowOrder | handlers.py:118-123 | the groups depend only on the set of rows, not their order |
| Catalog.GroupByKey | handlers.py:118-123 | the loop building the dictionary of sets yields the grouping and its key order |
| Catalog.PriceTableOfMeaning | handlers.py:304-312 | the price table has an entry for (name, store) exactly when a row has that pair, and that entry is the price of such a row and no greater than any of them |
| Catalog.PriceTableMinimum | handlers.py:304-312 | the entry exists exactly when the pair occurs; it equals some row's price and is at most every row's price for the pair |
| Catalog.PriceTableEntriesNonEmpty | handlers.py:306-307 | a product in the table has at least one store |
| Catalog.IngestKeepsMinimum | handlers.py:310-312 | one more row changes a pair's entry to the minimum of the old entry and the new price, or keeps it |
| Catalog.BuildPriceTable | handlers.py:304-312 | the nested-dictionary loop yields exactly the minimum-price table |
| Resolver.SomeWordInMeaning | handlers.py:131 | `any(word in key for word in words)` holds exactly when some word is a substring of the key |
| Resolver.MatchesMeaning | handlers.py:129-131 | a key matches exactly when the query is in the key, the key is in the query, or some query word is in the key |
| Resolver.SingleWordMatch | handlers.py:129-131 | for a one-word query the word test adds nothing beyond the two containments |
| Resolver.MatchedKeys | handlers.py:127-132 | the matched keys are exactly the matching keys of the index, no more than it has |
| Resolver.MatchedKeysAppend | handlers.py:127-132 | matching distributes over concatenation of key lists, so key order is kept |
| Resolver.EmptyQueryMatchesAll | handlers.py:127-132 | an empty normalized query matches every key, in index order |
| Resolver.CollectMatches | handlers.py:127-132 | the matching loop yields the matched keys in order |
| Resolver.IndexOfRowsValid | handlers.py:118-123 | the grouping lists exactly its keys in its key order and has no empty group |
| Resolver.ClassifyQuery | handlers.py:134-190 | not found exactly when nothing matches; several groups exactly when more than one matches, with the matched list; otherwise the single match's key, with its variants when it has several and its only name when it has one |
| Resolver.Classify | handlers.py:106-190 | the empty-catalogue answer exactly when there are no rows |
| Resolver.ProcessProductName | handlers.py:106-190 | the grouping loop, the normalization of the stripped, lower-cased text and the matching loop together compute the classification |
| Resolver.ClassifyOffersCatalogNames | handlers.py:167-190 | every product offered or chosen is a catalogue name whose normalized form is the matched key |
| Resolver.QueryOffersRowNames | handlers.py:167-190 | the same for any key function: offered names come from rows with that key |
| Resolver.OfferedFromGroup | handlers.py:167-190 | offered or chosen names belong to the matched key's group |
| Resolver.NotFoundSuggestsFirstKeys | handlers.py:134-145 | the suggestions are the first ten keys in sorted order: as many as ten allow, strictly increasing, all keys, and every unlisted key is greater |
| Resolver.FirstNamed | handlers.py:206-207 | the first matched group whose capitalized key occurs in the text; none before it does |
| Resolver.GroupPick | handlers.py:206-230 | rejects exactly when no capitalized matched key occurs in the text; otherwise the answer is the choice of the first matched group it names |
| Resolver.Select | handlers.py:193-241 | cancel exactly on "Отмена"; otherwise a named group is tried first; when the text names no group, a stored variant is chosen under the stored key and anything else is rejected |
| Resolver.GroupChoice | handlers.py:208-230 | offers the variants exactly when the group has several, else chooses its only product |
| Resolver.AfterSelect | handlers.py:195-239 | a cancel clears all stored data; offering variants stores them and their key; a choice stores the product and its key; a rejection changes nothing; except after a cancel the matched groups stay stored |
| Resolver.CancelForgetsCandidates | handlers.py:195-198 | after a cancel no product is stored and no later text selects anything |
| Resolver.ChoiceIsStored | handlers.py:226 | a choice stores the chosen product and its key for the quantity step |
| Resolver.SelectVariantsFirst | handlers.py:232-239 | the corrected selection: a stored variant is chosen before any group is tried |
| Resolver.VariantPickAccepted | handlers.py:232-239 | after a group offers its variants, picking one of them is accepted by the corrected selection |
| Resolver.VariantPickReoffered | handlers.py:206-223 | after a group offers its variants, a variant that names a group re-offers the same variants under the code as written |
| Resolver.SelectOfferedByGroup | handlers.py:206-223 | an offer of variants only ever comes from a named group |
| Resolver.SelectNamedGroup | handlers.py:206-230 | when the text names a matched group, the selection is that group's choice |
| Resolver.GroupChoiceReadsGroups | handlers.py:208 | the group choice depends only on the stored groups |
| Resolver.CheeseSelectionLoops | handlers.py:206-223 | picking "Сыр 45%" after the "Сыр" group offered it re-offers the same variants |
| Resolver.CheesePickAccepted | handlers.py:232-239 | with variants tried first, the same pick chooses "Сыр 45%" |
| ShoppingCart.Without | handlers.py:550 | deletion of a key from the order: every other key kept, the key gone, distinctness kept |
| ShoppingCart.WithoutDeletesPosition | handlers.py:550 | deleting a present key removes exactly its position |
| ShoppingCart.WithAdded | handlers.py:265-270 | the line's quantity grows by q (from 0 if new), every other line unchanged, a new name appended to the order |
| ShoppingCart.WithRemoved | handlers.py:549-550 | that key gone, every other line unchanged, an absent key leaves the cart unchanged |
| ShoppingCart.Total | handlers.py:284-287 | the item count is at least the number of lines and is 0 exactly for the empty cart |
| ShoppingCart.TotalAdded | handlers.py:265-270 | adding q raises the item count by q |
| ShoppingCart.TotalRemoved | handlers.py:549-550 | removing a line lowers the item count by its quantity |
| ShoppingCart.RemovedKeepsOrder | handlers.py:550 | removing a line keeps the order of the others |
| ShoppingCart.RemoveUndoesAddOfNew | handlers.py:549-550 | removing a just-added new product restores the cart |
| ShoppingCart.DecimalOfNatToString | handlers.py:247 | the decimal digits of n read back as n |
| ShoppingCart.ParseIntToString | handlers.py:247 | `int(str(n)) == n` |
| ShoppingCart.SignedToString | handlers.py:247 | a signed decimal reads back as its value |
| ShoppingCart.QuantityReplyOf | handlers.py:244-261 | text with '.' takes the float path; otherwise not a number exactly when `int()` fails, refused exactly when it reads a value at most 0, and a line is added exactly when the value is positive and a product is stored, with that value as quantity |
| ShoppingCart.TypedPositiveIsAdded | handlers.py:244-270 | typing a positive integer for a stored product adds exactly that quantity |
| ShoppingCart.PaddedPositiveIsAdded | handlers.py:246-247 | `int()` ignores whitespace around the number, so a padded positive number adds the same quantity |
| ShoppingCart.TypedNonPositiveRefused | handlers.py:248-250 | typing a non-positive integer is refused |
| ShoppingCart.NoDigitIsNotANumber | handlers.py:245-253 | text without digits or dot is not a number |
| ShoppingCart.Cart.constructor | handlers.py:27-30 | a new session's cart is empty and well formed |
| ShoppingCart.Cart.Add | handlers.py:265-270 | the cart becomes `WithAdded` of the old cart |
| ShoppingCart.Cart.ProcessQuantity | handlers.py:244-273 | the reply is `QuantityReplyOf`; the cart changes only on an added line, by that line |
| ShoppingCart.Cart.ProcessRemove | handlers.py:539-557 | "Отмена" changes nothing; a present stripped name is deleted; an absent one changes nothing |
| ShoppingCart.Cart.Clear | handlers.py:560-563 | the cart becomes empty |
| ShoppingCart.Cart.ItemCount | handlers.py:284-287 | the loop's sum is the cart's item count |
| Totals.MissingOf | handlers.py:323-324 | the missing products are exactly the cart products without a price entry |
| Totals.MissingOfAppend | handlers.py:317-324 | the missing list keeps cart order |
| Totals.StoresOfMeaning | handlers.py:317-322 | the stores with a total are exactly those selling some cart product |
| Totals.StoreTotalOutside | handlers.py:317-322 | a store selling no cart product has total 0 |
| Totals.ShopPricesOf | handlers.py:314-322 | the per-store totals have exactly the stores selling some cart product as keys |
| Totals.ChargeStores | handlers.py:319-322 | one cart line adds price × quantity to every store selling it and leaves the others alone |
| Totals.ExtendLine | handlers.py:317-324 | one more cart line extends stores, missing list and totals as the loop does |
| Totals.Calculate | handlers.py:293-350 | empty cart, missing products in cart order, no prices, or per-store totals with a cheapest store, each exactly in its case |
| Totals.Cheapest | handlers.py:347-348 | a store with the minimal total |
| Totals.PricedCartHasStores | handlers.py:326-332 | with no product missing, some store has a total, so "no prices" cannot occur |
| Totals.StoreTotalAfterAdd | handlers.py:317-322 | adding a new product raises a store's total by its price × quantity, if it sells it |
| Totals.StoreTotalSameQty | handlers.py:317-322 | the totals depend only on the cart lines' quantities |
| Optimizer.PickAll | handlers.py:417-429 | within a pair, an assignment of every line to the pair with every line priced, or a line allowed at neither |
| Optimizer.PickAllCheapest | handlers.py:417-421 | the per-line choice within a pair costs no more than any assignment within the pair |
| Optimizer.WithinPair | handlers.py:431 | an assignment using only two shops uses at most two |
| Optimizer.PairCovers | handlers.py:424-431 | any feasible assignment lies within some pair of shops |
| Optimizer.TryPair | handlers.py:410-433 | trying one more pair keeps the best assignment no dearer than every pair tried |
| Optimizer.AllPairsTried | handlers.py:410-433 | after all pairs, the best is optimal, or nothing is feasible |
| Optimizer.Optimize | handlers.py:410-435 | an optimal assignment of the ILP, or none exactly when the ILP is infeasible |
| Optimizer.PositiveShops | handlers.py:456 | the used shops are exactly those with positive cost |
| Optimizer.Report | handlers.py:436-456 | the total, per-shop costs keyed by every shop, and used shops of the chosen assignment, skipping non-positive prices |
| Optimizer.TotalIsSumOfShopCosts | handlers.py:436-456 | `total_cost` equals the sum of `shop_costs` |
| Optimizer.SingleShopSum | handlers.py:487-491 | the baseline loop for one store sums its positive-price lines |
| Optimizer.SingleShopPrices | handlers.py:485-493 | the baseline keeps exactly the stores with a positive total, with that total |
| Optimizer.ReportedIsObjective | handlers.py:443-448 | with no negative price, the reported total is the ILP objective |
| Optimizer.SingleShopIsObjective | handlers.py:485-493 | a store's baseline is the objective of buying everything there |
| Optimizer.SingleShopIsReported | handlers.py:485-493 | a store's baseline is the reported total of buying everything there |
| Optimizer.AllAtFeasible | handlers.py:424-431 | buying everything in one store is feasible when priced |
| Optimizer.SavingsNonNegative | handlers.py:503-504 | for an optimal plan and non-negative prices, the savings against any store are never negative as written, and under the corrected pricing against any store selling every line |
| Optimizer.CoveringReportsEveryItem | handlers.py:436-456 | under the corrected pricing with positive data, every line is bought and reported, and the used shops are exactly those assigned |
| Optimizer.ShopCostPositive | handlers.py:448-456 | when every reported line costs something, a shop's cost is positive exactly when it is assigned a line |
| Optimizer.SwappedIsFree | handlers.py:417-431 | bread at "B" and salt at "A" is feasible with objective 0 as written |
| Optimizer.AsWrittenDropsEveryItem | handlers.py:417-456 | as written, the only optimum for bread at "A" and salt at "B" swaps them, reports 0 and uses no shop |
| Optimizer.CoveringBuysEveryItem | handlers.py:417-456 | under the corrected pricing the optimum buys bread at "A" and salt at "B" and reports 80 |
| Optimizer.ItemsOfComplete | handlers.py:377-392 | with no product missing, the optimizer lines are the cart lines in order |
| Optimizer.ShopsOf | handlers.py:401-404 | every store selling a line is among the shops |
| Optimizer.ShopsOfAreStores | handlers.py:401-404 | every shop sells some line |
| Optimizer.GuardsPass | handlers.py:394-408 | with no product missing, there are lines and shops |
| Optimizer.AsWrittenAlwaysSolvable | handlers.py:417-433 | as written, buying everything in one shop is feasible, so the solver always succeeds |
| Optimizer.CollectItems | handlers.py:377-388 | the loop yields the optimizer lines and the missing products |
| Optimizer.Solve | handlers.py:394-509 | no lines, no shops, no solution, no distribution or a plan, each in its case: the plan is optimal with the reported total, costs, used shops and the single-store comparison |
| Optimizer.CmdOptimize | handlers.py:355-512 | empty cart, missing products in cart order, else the solution of the cart's lines |

## Left out

- aiogram: sending messages, keyboards, response texts and their number formatting, the `[:40]` button truncation and the five-button cap (handlers.py:149-154). Handlers, commands and the FSM state changes (`set_state`, `clear`) are interaction glue; the conversation data that selection reads back is modelled as `Pending`.
- The session registry `sessions`/`get_session` (handlers.py:33-39): the model works on one session's `Cart`.
- The database (`SessionLocal`, `Product` queries): the product rows are a parameter `seq<Row>`.
- Excel upload, the administrator checks and `cmd_clear_db`: persistence outside the core.
- The PuLP solver: `Optimizer.Optimize` returns one optimum of the same problem; the solver may return another optimum of equal cost.
- The `except Exception` branch (handlers.py:511-512): no modelled step raises.
- The savings percentage (handlers.py:505-506): floating-point division and formatting.
- `shop_products` (handlers.py:438, 449-454): it only feeds the response text.
- The inner loop over shops at handlers.py:440-442 is modelled by reading the assigned shop of each line, because exactly one `x[(i, j)]` is 1 per line.
- Python set and dictionary iteration order where the source relies on it: the shop list is sorted (`Optimizer.ShopList`), examples in the not-found and several-groups texts are not modelled, and `variants[0]` of a one-element set is its only member.
- Character semantics: digits are `0`-`9`; whitespace is space, tab, line feed, carriage return, vertical tab and form feed only, while Python's `strip()`, `split()` and `\s` also accept `\x1c`-`\x1f`, `\x85` and Unicode spaces; case mapping covers Latin and Cyrillic letters only.
- Prices: `price` is a `Float` column (models.py:13); the model uses integer kopecks, so float sums and rounding are not modelled.
- `int()` details beyond an optional sign, surrounding whitespace and `_` between digit groups.
- ShoppingCart.Cart.ProcessQuantity: text containing '.' takes the `float()` path in the source and can add a fractional quantity; the model answers `Fractional` and leaves the cart unchanged, because quantities are integers.
- Text.Words: its lemmas state that every piece is a non-empty run of non-whitespace characters and that the pieces hold exactly the text's non-whitespace characters in order; that consecutive pieces are separated by whitespace in the text is not stated.
- Totals.Cheapest: returns some store with the minimal total; the source's `min` picks the first such store in dictionary order.
- Optimizer.SavingsNonNegative: under the corrected pricing it covers only stores that sell every line, because the source's baseline also sums stores that lack some line, and against those the savings can be negative.
- Optimizer.Solve: the single-store comparison picks some cheapest store; the source's `min` picks the first in dictionary order.

## Findings

| source | as written | input that shows it | evidently intended | confidence | as-written member | corrected member |
|---|---|---|---|---|---|---|
| handlers.py:417-421, 443-456 | the objective prices a line at 0 in a store that does not sell it, and the report then skips lines with price 0 | cart bread ×1 and salt ×1; bread sold only at "A" for 50, salt only at "B" for 30 | a line may only be assigned to a store that sells it, so the plan buys bread at "A" and salt at "B" for 80 | high; not executed | Optimizer.AsWrittenDropsEveryItem | Optimizer.CoveringBuysEveryItem |
| handlers.py:206-223, 232-239 | after a group pick offers its variants, `matched_groups` is still stored and is tried before `product_variants`, so a variant whose text contains the capitalized group key re-offers the same variants | groups "сыр" = {"Сыр 45%", "Сыр 50%"} and "сырок" = {"Сырок"}; the user presses the "Сыр" button, then "Сыр 45%" | the offered variant is accepted | high; not executed | Resolver.CheeseSelectionLoops | Resolver.CheesePickAccepted |
