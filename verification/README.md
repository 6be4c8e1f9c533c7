# POS and product admin: a verified model

This project models the core of a small point-of-sale web application for a café. The application has three parts:

- **The POS page** (`static/js/pos.js`). It loads the product list. It draws a sidebar of categories and a product grid. The grid is bucketed by subcategory, and then by product name into cards that have variants. The page keeps a cart of lines, adds products by id, adjusts or removes lines by index, shows the running total, and checks out by sending `{customer_name, items: [{id, quantity}]}` to the server.
- **The Flask server** (`app.py`). `to_dict` exposes a product's id, name and price. `pay()` prices an order again from the product table, skips unknown ids and records an invoice. `save_product()` creates or edits a product depending on the id it is sent. `get_history()` returns the ten newest orders.
- **The admin page** (`static/js/admin.js`). One form (hidden id, name, price) switches between create and edit mode. `editProduct` fills the form, `resetForm` clears it, and `handleFormSubmit` validates, builds the save request and reacts to the answer.

Everything is pure Dafny over immutable values:

- Lists are `seq`s. Prices and quantities are `int`.
- The database is a value passed in and returned.
- Answers from the server, ids the database assigns, and `parseFloat` are parameters.

Modules:

| module | file | what it holds |
|---|---|---|
| `Wrappers` | wrappers.dfy | `Option` |
| `Seqs` | seqs.dfy | `Distinct`, `FirstIndex`, `Count`, `Dedup` (first-seen order, the `[...new Set(s)]` idiom) |
| `Products` | products.dfy | the product record the browser sees (optional category, subcategory and variant) and `find` by id |
| `Cart` | cart.dfy | cart lines, add, update, remove, total, the cart invariant, and the result of a whole click sequence |
| `Grouping` | grouping.dfy | generic first-seen bucketing (the `{}` plus `forEach` plus `Object.entries` idiom) and the plain-object variant exactly as written |
| `Grid` | grid.dfy | sidebar categories, the category filter, subcategory sections, cards, and the product-click branch |
| `Api` | api.dfy | the JSON request bodies both pages send |
| `Checkout` | checkout.dfy | the checkout request and the page state after the answer |
| `Server` | server.dfy | the product table, `pay`, `save_product`, `get_history` |
| `Admin` | admin.dfy | the decimal text in the form's inputs, `parseInt`, the form transitions, and submit |
| `Flows` | flows.dfy | properties that cross the pages and the server |

Every definition that folds a loop's accumulator peels the last element. This mirrors the left-to-right `forEach` and `for` loops that extend the accumulator. Searches that stop at the first match (`FirstIndex`, `Find`, `DigitRun`) and the insertion step of the history sort peel the first element.

## Model

| member | source | states |
|---|---|---|
| `Seqs.Dedup` | static/js/pos.js:58 | the result holds every element of the input and nothing else, with no element twice |
| `Seqs.DedupFirstSeen` | static/js/pos.js:58 | the deduplicated elements appear in the order in which the input first shows them |
| `Seqs.FirstIndex` | static/js/pos.js:191 | the position returned holds the element, and no earlier position does |
| `Products.Find` | static/js/pos.js:187 | the lookup fails exactly when no product has the id; otherwise it returns a catalog product with that id |
| `Products.FindFirst` | static/js/pos.js:187 | `find` returns the first product carrying the id |
| `Products.FindUnique` | static/js/pos.js:187 | with unique ids, `find` returns the one product that carries the id |
| `Cart.AddToCart` | static/js/pos.js:185-197 | an unknown id leaves the cart unchanged; an id already in the cart adds 1 to that line only (same length, same product, other lines untouched); otherwise one line with quantity 1 is appended |
| `Cart.AddedIdPresent` | static/js/pos.js:191-196 | after adding a known id, the cart has a line for it |
| `Cart.AddPreservesValid` | static/js/pos.js:185-197 | adding keeps one line per id and every quantity at least 1 |
| `Cart.SpliceStart` | static/js/pos.js:240 | splice's start is the index when in range, counts from the end when negative, and is clamped to `[0, len]` |
| `Cart.RemoveFromCart` | static/js/pos.js:239-242 | a valid index removes exactly that line and keeps the others in order; an index at or past the end changes nothing; negative indexes count from the end, and one before the start removes the first line; an empty cart stays empty |
| `Cart.RemovePreservesValid` | static/js/pos.js:239-242 | removal keeps the cart invariant |
| `Cart.ValidRemoveAt` | static/js/pos.js:240 | dropping one line of a valid cart leaves a valid cart |
| `Cart.UpdateQuantity` | static/js/pos.js:233-237 | the line is removed exactly when its quantity plus the change is at most 0; otherwise only that line's quantity moves, by the change |
| `Cart.UpdatePreservesValid` | static/js/pos.js:233-237 | adjusting keeps the cart invariant |
| `Cart.TotalNonNegative` | static/js/pos.js:205-209 | the cart total (the sum over lines of price times quantity, `Cart.Total`) is never negative while no price or quantity is |
| `Cart.RenderTotal` | static/js/pos.js:205-209 | the loop's running total equals the sum of price times quantity over all lines |
| `Cart.TotalConcat` | static/js/pos.js:205-209 | the total of two carts joined is the sum of their totals |
| `Cart.TotalAround` | static/js/pos.js:205-209 | the total splits into the lines before k, line k's subtotal, and the lines after k |
| `Cart.TotalReplace` | static/js/pos.js:205-209 | replacing one line changes the total by the difference of the two subtotals |
| `Cart.SubtotalStep` | static/js/pos.js:208 | moving a quantity by c moves the line's subtotal by price times c |
| `Cart.TotalAfterAdd` | static/js/pos.js:185-209 | adding raises the total by the existing line's unit price, by the catalog price for a new line, or by 0 for an unknown id |
| `Cart.TotalAfterUpdate` | static/js/pos.js:233-237 | adjusting moves the total by price times change, or drops the line's whole subtotal when the line goes |
| `Cart.TotalAfterChange` | static/js/pos.js:233-234 | a change that keeps the line moves the total by price times change |
| `Cart.TotalAfterRemove` | static/js/pos.js:239-242 | removing a line lowers the total by exactly its subtotal |
| `Cart.KnownIds` | static/js/pos.js:187-188 | keeps exactly the clicked ids that the catalog knows |
| `Cart.KnownIdsInOrder` | static/js/pos.js:187-188 | the known clicked ids keep click order and repetitions: joining two click sequences joins their known ids, and one click is kept exactly when the catalog has a product with that id |
| `Cart.AddStepUnknown` | static/js/pos.js:187-188 | a click on an unknown id keeps the cart matching the clicks |
| `Cart.CountsAfterIncrement` | static/js/pos.js:193 | after incrementing line k, every line's quantity still equals the number of clicks on its id |
| `Cart.AddStepExisting` | static/js/pos.js:191-193 | a click on an id already in the cart keeps the cart matching the clicks |
| `Cart.CountsAfterAppend` | static/js/pos.js:196 | appending a first-clicked line with quantity 1 keeps every quantity equal to its click count |
| `Cart.ProductsAfterAppend` | static/js/pos.js:196 | appending a copy of the catalog product keeps every line's product equal to the catalog's |
| `Cart.AddStepNew` | static/js/pos.js:194-197 | a first click on a known id keeps the cart matching the clicks |
| `Cart.AddSequence` | static/js/pos.js:185-197 | after any click sequence from an empty cart: ids are distinct, the lines are the known ids in first-click order, each quantity is the number of clicks on that id, and each line holds the catalog product |
| `Grouping.Select` | static/js/pos.js:99-103 | a bucket's contents all carry the bucket's key and are no more than the input |
| `Grouping.SelectCounts` | static/js/pos.js:99-103 | a bucket holds each element with its key exactly as often as the input does, and nothing with another key |
| `Grouping.SelectConcat` | static/js/pos.js:99-103 | bucketing distributes over concatenation, so order inside a bucket is input order |
| `Grouping.SelectAbsent` | static/js/pos.js:99-103 | a key no element carries gets an empty bucket |
| `Grouping.PlaceExisting` | static/js/pos.js:101-102 | pushing onto an existing bucket keeps the buckets equal to the bucketing of the longer input |
| `Grouping.PlaceNew` | static/js/pos.js:101-102 | opening a new last bucket keeps the buckets equal to the bucketing of the longer input |
| `Grouping.Group` | static/js/pos.js:98-103 | the bucket keys are the input's distinct keys in first-seen order; each bucket holds exactly the input's elements with that key, in input order |
| `Grouping.GroupNonEmpty` | static/js/pos.js:101-102 | no bucket is empty |
| `Grouping.GroupAllNonEmpty` | static/js/pos.js:101-102 | every bucket is non-empty |
| `Grouping.GroupCovers` | static/js/pos.js:99-103 | every element's key is a bucket key, and the element sits in that bucket |
| `Grouping.GroupMember` | static/js/pos.js:99-103 | every bucketed element comes from the input and carries its bucket's key |
| `Grouping.GroupPartition` | static/js/pos.js:98-103 | the buckets partition the input: distinct keys, non-empty buckets, each element in a bucket, each bucket element from the input under its key |
| `Grouping.GroupInObject` | static/js/pos.js:98-103 | the plain-object bucketing as written throws only when some key is an inherited `Object.prototype` name |
| `Grouping.GroupInObjectAgrees` | static/js/pos.js:98-103 | the plain-object bucketing as written equals `Group` when no key is an inherited `Object.prototype` name, and throws otherwise |
| `Grouping.ConstructorNameThrows` | static/js/pos.js:123-127 | a single product named "constructor" makes the as-written bucketing throw |
| `Grid.SubKey` | static/js/pos.js:100 | a missing or empty subcategory goes to "Khác"; any other subcategory is its own key |
| `Grid.CategoryValues` | static/js/pos.js:58 | keeps exactly the non-empty categories products carry |
| `Grid.Categories` | static/js/pos.js:58 | the sidebar is "All" followed by each non-empty category exactly once, and nothing else |
| `Grid.CategoryValuesMember` | static/js/pos.js:58 | a non-empty category survives the filter exactly when some product carries it |
| `Grid.CategoryOrder` | static/js/pos.js:58 | dropping falsy categories keeps first-appearance order: two categories first appear in the filtered list in the same order as their first products in the catalog |
| `Grid.CategoriesFirstSeen` | static/js/pos.js:58 | for any two sidebar entries, the first product carrying the earlier one comes before the first product carrying the later one |
| `Grid.FilterByCategory` | static/js/pos.js:91-94 | "All" keeps every product; any other filter keeps only products with exactly that category, each as often as the catalog has it |
| `Grid.FilterInOrder` | static/js/pos.js:91-94 | the filter keeps catalog order: it distributes over concatenation and keeps a single product exactly when the choice is "All" or the product has that category |
| `Grid.FilterMember` | static/js/pos.js:93 | the filter keeps only catalog products |
| `Grid.MinPrice` | static/js/pos.js:135 | the shown price is at most every variant's price and is some variant's price |
| `Grid.MakeCard` | static/js/pos.js:130-137 | a card keeps its name and all its variants, shows the minimum variant price (at most every variant's price and equal to one of them, by `MinPrice`), and is flagged "+" exactly when it has more than one variant |
| `Grid.Cards` | static/js/pos.js:123-137 | one card per distinct name in first-seen order; each holds exactly the products of that name in order, is non-empty, is flagged "+" iff it has more than one variant, and shows the minimum price |
| `Grid.ProductGrid` | static/js/pos.js:98-130 | one section per distinct subcategory key of the filtered products in first-seen order; each section's cards are the cards of that subcategory's products; the header is hidden exactly when the only section is "Khác" |
| `Grid.GridShowsEachProduct` | static/js/pos.js:98-130 | every filtered product appears on the card named after it, in the section of its subcategory |
| `Grid.ProductOnOneCard` | static/js/pos.js:98-130 | a product appears on no other card: any card holding it is the one named after it, in the section of its subcategory |
| `Grid.CardVariantsBelong` | static/js/pos.js:123-130 | every variant on a card comes from the filtered catalog and shares the card's name and its section's subcategory |
| `Grid.VariantLabel` | static/js/pos.js:171 | a missing or empty variant is labelled "Tiêu chuẩn" |
| `Grid.HandleProductClick` | static/js/pos.js:153-179 | a card with one variant adds it to the cart directly; otherwise the modal offers every variant with its label, in order |
| `Grid.SingleVariantClickAdds` | static/js/pos.js:155-157 | clicking a single-variant card of the grid puts that product's id in the cart |
| `Checkout.CustomerName` | static/js/pos.js:251 | an empty name input becomes "Khách lẻ"; any other text is sent as typed |
| `Checkout.PayItems` | static/js/pos.js:257 | one `{id, quantity}` per cart line, in cart order; prices are not sent |
| `Checkout.PayItemsOfValidCart` | static/js/pos.js:255-258 | a valid cart's payload has distinct ids, equal to the cart's line ids, and positive quantities |
| `Checkout.CheckoutRequest` | static/js/pos.js:246-258 | nothing is sent exactly when the cart is empty; otherwise the customer name and the cart's pairs are sent |
| `Checkout.HandleCheckout` | static/js/pos.js:245-284 | an empty cart alerts and sends nothing; success empties the cart, clears the name and opens the invoice; failure or a failed request keeps the cart and name and alerts |
| `Checkout.CheckoutKeepsOrEmpties` | static/js/pos.js:271-281 | checkout either empties a non-empty cart and opens an invoice, or leaves the page state as it was |
| `Server.Get` | app.py:113 | the lookup fails exactly when no row has the key; otherwise it returns a row with that key |
| `Server.GetRow` | app.py:113 | with a unique key, the lookup returns the one row with that key |
| `Server.KnownItems` | app.py:112-114 | keeps exactly the request items whose id names a product |
| `Server.KnownItemsInOrder` | app.py:112-114 | the known items keep request order: the filter distributes over concatenation and keeps a single item exactly when the table knows its id |
| `Server.LineFor` | app.py:113-123 | an invoice line takes the table's name and price, never the client's, and its total is price times quantity |
| `Server.Billed` | app.py:112-123 | one invoice line per known item, in request order |
| `Server.AmountOfUnknownItems` | app.py:108-116 | the amount (`Server.Amount`, the sum of price times quantity over the known items) is 0 for a request none of whose ids the table knows |
| `Server.BilledTotal` | app.py:108-130 | the invoice's line totals add up to the order amount |
| `Server.AmountIgnoresUnknown` | app.py:112-116 | unknown items add nothing: the amount of a request equals the amount of its known items |
| `Server.PayStep` | app.py:112-123 | one loop iteration extends the amount and the invoice by exactly one item |
| `Server.Pay` | app.py:103-138 | the order carries the given name, or "Khách lẻ" when the key is absent; its lines are the known items' lines; its amount is their sum; the answer is success with the new id and that total |
| `Server.SaveProduct` | app.py:84-99 | a non-zero id of an existing row with a price rewrites that row's name and price only; a missing or falsy id appends one new row; an unknown edit id or a null price fails and leaves the table unchanged |
| `Server.SavePreservesWellKeyed` | app.py:84-99 | saving keeps the primary key unique |
| `Server.EditChangesOneRow` | app.py:87-92 | an edit changes exactly the row it names and no other |
| `Server.Insert` | app.py:144 | inserting keeps the list newest-first and adds exactly one order |
| `Server.SortNewestFirst` | app.py:144 | the sort is a permutation with strictly decreasing ids |
| `Server.OmittedIsOlder` | app.py:144 | an order missing from a newest-first prefix is older than every order in the prefix |
| `Server.PrefixFromTable` | app.py:144 | a prefix of the sorted orders holds only table orders |
| `Server.History` | app.py:142-145 | returns min(10, n) orders with strictly decreasing ids, all from the table; every order left out has a smaller id than every order returned |
| `Admin.NatToDecimal` | static/js/admin.js:101-103 | writes a non-negative integer as decimal digits with no leading zero |
| `Admin.IntToDecimal` | static/js/admin.js:101-103 | writes an integer as decimal text, with a leading '-' exactly for negatives |
| `Admin.DigitRun` | static/js/admin.js:66 | measures the leading run of digits, stopping at the first non-digit |
| `Admin.ParseInt` | static/js/admin.js:66 | `parseInt` yields a number exactly when a digit follows the optional sign |
| `Admin.DecimalValue` | static/js/admin.js:101-103 | the digits written for n read back as n |
| `Admin.ParseIntRoundTrip` | static/js/admin.js:66 | `parseInt` of the id written into the hidden input gives that id back |
| `Admin.ResetForm` | static/js/admin.js:112-122 | every input is cleared and the form returns to create mode |
| `Admin.ResetIdempotent` | static/js/admin.js:112-122 | resetting twice is resetting once, and a reset form is consistent |
| `Admin.EditProduct` | static/js/admin.js:95-109 | an id not in the list changes nothing; a listed id switches to edit mode with the id (reading back as that id), name and price of the first such product |
| `Admin.SubmitRequest` | static/js/admin.js:55-69 | no request exactly when the name or price input is empty (a non-numeric price passes); name and parsed price are copied; the id is sent exactly when the id input is non-empty and parses |
| `Admin.HandleFormSubmit` | static/js/admin.js:51-92 | a refused form only alerts; success resets the form and reloads the list; an error answer or a failed request keeps the form as entered |
| `Admin.SubmitAfterResetCreates` | static/js/admin.js:65-66 | after a reset, the next submit creates: the request carries no id |
| `Flows.Listing` | app.py:21-22 | the POS page receives id, name and price; category, subcategory and variant are absent |
| `Flows.ListingHasOnlyAllCategory` | static/js/pos.js:58 | with the server's listing, the sidebar holds only "All" |
| `Flows.ListingFilteredOut` | static/js/pos.js:91-94 | with the server's listing, any category other than "All" shows nothing |
| `Flows.OneSection` | static/js/pos.js:98-119 | products without a subcategory form one "Khác" section whose header is hidden |
| `Flows.ListingGrid` | static/js/pos.js:81-119 | with the server's listing, the grid is one headerless "Khác" section of all cards under "All", and empty under any other category |
| `Flows.ChargedAsShown` | app.py:108-116 | when the cart's prices match the table, the server charges exactly the cart total the POS page shows |
| `Flows.CheckoutRequestCharged` | static/js/pos.js:251-258 | the checkout request is charged the cart's total and names "Khách lẻ" when the name input is empty |
| `Flows.AdminReply` | static/js/admin.js:78-90 | a completed save reads as a JSON success with its message; a failed save reads as a failed request |
| `Flows.SaveRoundTrip` | static/js/admin.js:71-91 | the form is reset exactly when the server saved; otherwise the table is unchanged and the form is kept |
| `Flows.EditThenSave` | app.py:87-92 | editing a listed product and saving a new name and price rewrites that row only and resets the form |
| `Flows.UnparsablePriceKeepsForm` | app.py:84-99 | a price that does not parse, on a create or an edit, fails on the server; the table and the form are unchanged and the page reports a connection error |

## Left out

- DOM construction, HTML templates, CSS, the modal's show and hide, event wiring and the `btn-pay` disable guard. They are presentation only. The modal is represented by the list of variant options.
- `fetch` and `async`. The server's answer is a parameter (`PayReply`, `SaveReply`). Out-of-order or stale answers are concurrency, which a sequential model cannot express.
- `alert`, `window.open` and `console`. They appear only as the alert text and the invoice id in an outcome.
- Reloading after a change (`renderCart`, `loadHistory`, `loadProducts`). The admin page's reload is modelled as a `reload` flag; the `renderCart` and `loadHistory` calls after a successful checkout are not modelled, because the checkout outcome already carries the emptied cart.
- `formatCurrency` and `Intl.NumberFormat`. They are a library formatter, so prices are integers and the "+" is a flag.
- Floating point. `db.Float` prices and JS numbers are `int` (VND amounts). `parseFloat` on the price input is a parameter `string -> Option<int>`.
- Admin.ParseInt: leading whitespace is not skipped, and the `0x` hexadecimal prefix is not recognised. The form's own inputs never hold either.
- Admin.IntToDecimal: does not model the exponent notation JavaScript uses from 1e21 upward.
- The `Object.entries` ordering of integer-like keys (canonical array-index strings come first, in numeric order). The model uses first-seen order. It assumes no subcategory or product name is such a string.
- Persistence. Flask routing, SQLAlchemy sessions, commits and rollback are left out. A failing request is modelled as leaving the table unchanged, because the session is rolled back when the request ends.
- Id assignment. The database's new row and order ids are parameters (`freshId`, `orderId`). `freshId` is required to be unused.
- Server.History: requires distinct order ids, because they are the table's primary key.
- The invoice route, the `json.dumps` and `json.loads` round trip of the stored lines, and `created_at`. They are storage and display formats.
- Server.History: returns whole orders rather than `Order.to_dict`'s projection of them.
- Server.Pay: does not model JSON `null` values in a payment request. `None` in a `PayRequest` means the key is absent.
- Server.Pay: an `items` key holding `null` makes the loop raise `TypeError` (HTTP 500, no order). The model has no such request.
- Server.Pay: a `customer_name` key holding `null` is not modelled; the model has no such request.
- Server.Pay: an item without `id`, or with a known id and no `quantity`, raises `KeyError`; an item with an unknown id and no `quantity` is skipped. The model has no item with a missing key.
- Server.Pay: the POS page always sends an array of complete items and a string name.
- Appending the new order to the order table is not modelled. `Pay` returns the order, and `History` takes the order table as a value.
- Flows.EditThenSave: requires the edited product's id to be non-zero. The database never assigns 0, and an id of 0 would be read as "create".
- Grid.ProductGrid: models the intended bucketing (`Grouping.Group`). As written, a filtered product whose subcategory is an inherited `Object.prototype` name makes `renderProductGrid` throw instead (see "## Findings"). On first load, `loadProducts`' catch then shows its connection-error message in place of the grid.
- Grid.Cards: models the intended bucketing by name. As written, a product named after an inherited `Object.prototype` property (for example "constructor") makes the card loop throw.
- Grid.GridShowsEachProduct: holds for the intended bucketing, not for the throwing case above.
- Grid.ProductOnOneCard: holds for the intended bucketing, not for the throwing case above.
- Grid.CardVariantsBelong: holds for the intended bucketing, not for the throwing case above.
- Grid.SingleVariantClickAdds: holds for the intended bucketing, not for the throwing case above.
- Flows.OneSection: holds for the intended bucketing. The server's listing has no subcategories, but a product name can still be an inherited property name.
- Flows.ListingGrid: holds for the intended bucketing, for the same reason.

## Findings

| source | as written | input that shows it | evidently intended | confidence | as-written member | corrected member |
|---|---|---|---|---|---|---|
| static/js/pos.js:98-103 and 123-127 | buckets are plain objects `{}`, and `if (!obj[k]) obj[k] = []` treats an inherited `Object.prototype` property as an existing bucket, so `obj[k].push(p)` throws a TypeError and the grid is not drawn | one product whose name (or subcategory) is "constructor", "toString", "valueOf" or "__proto__" | every product is bucketed under its own key, as with a `Map` or `Object.create(null)` | high, not executed | `Grouping.GroupInObjectAgrees`, `Grouping.ConstructorNameThrows` | `Grouping.Group`, `Grid.ProductGrid` |
