/** Properties that span the pages and the server: what the POS page shows for the
    product list the server sends, what checkout is charged, and how an admin save
    travels from the form to the table and back. */
module Flows {
  import opened Wrappers
  import opened Seqs
  import opened Api
  import opened Products
  import opened Cart
  import opened Grouping
  import opened Grid
  import opened Checkout
  import opened Server
  import opened Admin

  // ------------------------------------------------- product list on the POS page

  /** The products `GET /api/products` hands the POS page: `to_dict` sends id, name and
      price, so category, subcategory and variant are absent. */
  function Listing(t: ProductTable): (r: seq<Product>)
    ensures |r| == |t|
    ensures forall i :: 0 <= i < |t| ==>
              r[i].id == t[i].id && r[i].name == t[i].name && r[i].price == t[i].price
    ensures forall i :: 0 <= i < |t| ==>
              r[i].category.None? && r[i].subcategory.None? && r[i].variant.None?
  {
    seq(|t|, i requires 0 <= i < |t| => Product(t[i].id, t[i].name, t[i].price, None, None, None))
  }

  /** Products without a category contribute no category names. */
  lemma {:induction false} NoCategoryValues(products: seq<Product>)
    requires forall i :: 0 <= i < |products| ==> products[i].category.None?
    ensures CategoryValues(products) == []
  {
    if |products| > 0 {
      NoCategoryValues(products[..|products| - 1]);
    }
  }

  /** With the server's listing the category bar holds only "All". */
  lemma ListingHasOnlyAllCategory(t: ProductTable)
    ensures Categories(Listing(t)) == [AllCategories]
  {
    NoCategoryValues(Listing(t));
  }

  /** A deduplicated run of one repeated key is that key alone. */
  lemma {:induction false} DedupConstant(s: seq<string>, k: string)
    requires |s| > 0
    requires forall i :: 0 <= i < |s| ==> s[i] == k
    ensures Dedup(s) == [k]
  {
    if |s| > 1 {
      DedupConstant(s[..|s| - 1], k);
    }
  }

  /** Under a category other than "All" the server's listing shows nothing. */
  lemma ListingFilteredOut(t: ProductTable, filter: string)
    requires filter != AllCategories
    ensures FilterByCategory(Listing(t), filter) == []
  {
    var ps := Listing(t);
    assert forall j :: 0 <= j < |ps| ==> KeysOf(ps, CategoryOf)[j] == None;
    SelectAbsent(ps, CategoryOf, Some(filter));
  }

  /** Products without a subcategory all fall in the one "Khác" section, whose header is
      hidden. */
  lemma OneSection(ps: seq<Product>)
    requires |ps| > 0
    requires forall i :: 0 <= i < |ps| ==> ps[i].subcategory.None?
    ensures |ProductGrid(ps, AllCategories)| == 1
    ensures ProductGrid(ps, AllCategories)[0] == Section(Uncategorised, false, Cards(ps))
  {
    var r := ProductGrid(ps, AllCategories);
    var keys := KeysOf(ps, SubKey);
    assert forall i :: 0 <= i < |ps| ==> keys[i] == Uncategorised;
    DedupConstant(keys, Uncategorised);
    assert Subcategories(r) == [Uncategorised];
    assert |r| == 1 && r[0].subcategory == Uncategorised;
    SelectAll(ps, SubKey, Uncategorised);
    assert r[0].cards == Cards(ps);
    assert !r[0].showHeader;
  }

  /** With the server's listing the grid is one headerless "Khác" section holding every
      product under "All", and empty under any other category. */
  lemma ListingGrid(t: ProductTable, filter: string)
    ensures filter == AllCategories && |t| > 0 ==>
              |ProductGrid(Listing(t), filter)| == 1 &&
              ProductGrid(Listing(t), filter)[0] == Section(Uncategorised, false, Cards(Listing(t)))
    ensures filter != AllCategories || |t| == 0 ==> ProductGrid(Listing(t), filter) == []
  {
    var r := ProductGrid(Listing(t), filter);
    if filter != AllCategories {
      ListingFilteredOut(t, filter);
      assert Subcategories(r) == [];
    } else if |t| == 0 {
      assert Subcategories(r) == [];
    } else {
      OneSection(Listing(t));
    }
  }

  // ---------------------------------------------------------------- checkout

  lemma PayItemsSnoc(cart: seq<CartLine>, line: CartLine)
    ensures PayItems(cart + [line]) == PayItems(cart) + [PayItem(line.Id(), line.quantity)]
  {
  }

  /** When every cart line's id is in the table at the price the cart shows, the server
      charges exactly the total the cart shows. */
  lemma {:induction false} ChargedAsShown(t: ProductTable, cart: seq<CartLine>)
    requires forall i :: 0 <= i < |cart| ==>
               cart[i].Id() in StoredIds(t) && Get(t, cart[i].Id()).value.price == cart[i].product.price
    ensures Amount(t, PayItems(cart)) == Total(cart)
  {
    if |cart| > 0 {
      var p, l := cart[..|cart| - 1], cart[|cart| - 1];
      assert cart == p + [l];
      ChargedAsShown(t, p);
      PayItemsSnoc(p, l);
      AmountSnoc(t, PayItems(p), PayItem(l.Id(), l.quantity));
    }
  }

  /** The request checkout sends names the walk-in placeholder when the name input is
      empty, and is charged the cart's total when the cart's prices are current. */
  lemma CheckoutRequestCharged(t: ProductTable, s: PosState)
    requires |s.cart| > 0
    requires forall i :: 0 <= i < |s.cart| ==>
               s.cart[i].Id() in StoredIds(t) && Get(t, s.cart[i].Id()).value.price == s.cart[i].product.price
    ensures var req := CheckoutRequest(s).value;
            Amount(t, req.items.GetOr([])) == Total(s.cart) &&
            (s.customerField == "" ==> req.customerName.GetOr(WalkInCustomer) == WalkInCustomer)
  {
    ChargedAsShown(t, s.cart);
  }

  // ------------------------------------------------------------- admin save

  /** How the admin page reads the save endpoint's answer: a completed save is a JSON
      success; a failed one is an error page that does not parse as JSON. */
  function AdminReply(res: SaveResult): (r: SaveReply)
    ensures res.response.Some? ==> r == Answered(true, res.response.value.message)
    ensures res.response.None? ==> r == SaveFailed
  {
    match res.response
    case Some(resp) => Answered(true, resp.message)
    case None => SaveFailed
  }

  /** A submit that reaches the server and comes back: the form afterwards and the table
      afterwards. */
  datatype RoundTrip = RoundTrip(outcome: SubmitOutcome, table: ProductTable)

  /** Submitting the form against table `t`; `freshId` is the key the database would give
      a new row. */
  function SaveRoundTrip(t: ProductTable, f: Form, parsePrice: string -> Option<int>, freshId: int): (r: RoundTrip)
    requires freshId !in StoredIds(t)
    ensures r.outcome.sent == SubmitRequest(f, parsePrice)
    ensures r.outcome.form == ResetForm(f) || r.outcome.form == f
    ensures r.outcome.reload <==> r.outcome.sent.Some? && SaveProduct(t, r.outcome.sent.value, freshId).response.Some?
    ensures !r.outcome.reload ==> r.table == t && r.outcome.form == f
    ensures r.outcome.reload ==> r.outcome.form == ResetForm(f)
  {
    match SubmitRequest(f, parsePrice)
    case None => RoundTrip(HandleFormSubmit(f, parsePrice, SaveFailed), t)
    case Some(req) =>
      var res := SaveProduct(t, req, freshId);
      RoundTrip(HandleFormSubmit(f, parsePrice, AdminReply(res)), res.table)
  }

  /** Editing a listed product, changing its name and price, and saving rewrites that one
      row and clears the form. The list the page holds is the current table, and the
      database never hands out the id 0. */
  lemma EditThenSave(t: ProductTable, i: nat, f: Form, name: string, priceText: string,
                     price: int, parsePrice: string -> Option<int>, freshId: int)
    requires WellKeyed(t) && i < |t| && t[i].id != 0 && freshId !in StoredIds(t)
    requires name != "" && priceText != "" && parsePrice(priceText) == Some(price)
    ensures var form := EditProduct(t, f, t[i].id).(nameField := name, priceField := priceText);
            var r := SaveRoundTrip(t, form, parsePrice, freshId);
            r.outcome.sent == Some(SaveRequest(Some(t[i].id), name, Some(price))) &&
            r.outcome.form == ResetForm(form) && r.outcome.alert == UpdatedMessage &&
            r.table == t[i := StoredProduct(t[i].id, name, price)]
  {
    var form := EditProduct(t, f, t[i].id).(nameField := name, priceField := priceText);
    GetRow(t, i);
    var req := SaveRequest(Some(t[i].id), name, Some(price));
    assert SubmitRequest(form, parsePrice) == Some(req);
    var res := SaveProduct(t, req, freshId);
    forall j | 0 <= j < |t|
      ensures res.table[j] == t[i := StoredProduct(t[i].id, name, price)][j]
    {
      EditChangesOneRow(t, req, freshId, j);
      if j != i {
        assert StoredIds(t)[j] != StoredIds(t)[i];
      }
    }
    assert |res.table| == |t|;
  }

  /** A form whose price input does not parse reaches the server as a `null` price, the
      save fails (create or edit alike), and the page keeps the form and reports a
      connection error. */
  lemma UnparsablePriceKeepsForm(t: ProductTable, f: Form, parsePrice: string -> Option<int>, freshId: int)
    requires freshId !in StoredIds(t)
    requires f.nameField != "" && f.priceField != "" && parsePrice(f.priceField).None?
    ensures var r := SaveRoundTrip(t, f, parsePrice, freshId);
            r.table == t && r.outcome.form == f && r.outcome.alert == ConnectionAlert
  {
  }
}
