/** The Flask back end: the product table, `POST /api/products` (create or edit),
    `POST /api/pay` (price the cart from the table and record an order) and
    `GET /api/history` (the ten newest orders). The database is a value passed in and
    returned; ids the database assigns are parameters. */
module Server {
  import opened Wrappers
  import opened Seqs
  import opened Api

  /** A row of the `product` table; `to_dict` exposes exactly these three columns. */
  datatype StoredProduct = StoredProduct(id: int, name: string, price: int)

  /** The product table in storage order, the order `Product.query.all()` lists it in. */
  type ProductTable = seq<StoredProduct>

  function StoredIds(t: ProductTable): (r: seq<int>)
    ensures |r| == |t|
    ensures forall i :: 0 <= i < |t| ==> r[i] == t[i].id
  {
    seq(|t|, i requires 0 <= i < |t| => t[i].id)
  }

  /** The primary key is unique. */
  predicate WellKeyed(t: ProductTable) {
    Distinct(StoredIds(t))
  }

  /** `Product.query.get(id)`: the row with that primary key, or `None`. */
  function Get(t: ProductTable, id: int): (r: Option<StoredProduct>)
    ensures r.None? <==> id !in StoredIds(t)
    ensures r.Some? ==> r.value in t && r.value.id == id
  {
    if id in StoredIds(t) then Some(t[FirstIndex(StoredIds(t), id)]) else None
  }

  /** In a well-keyed table `Get` returns the one row carrying the key. */
  lemma GetRow(t: ProductTable, i: nat)
    requires WellKeyed(t) && i < |t|
    ensures Get(t, t[i].id) == Some(t[i])
  {
    var ids := StoredIds(t);
    assert ids[i] == t[i].id;
    var k := FirstIndex(ids, t[i].id);
    assert ids[k] == ids[i];
  }

  // ---------------------------------------------------------------- /api/pay

  /** One line of the stored invoice, priced from the table. */
  datatype InvoiceLine = InvoiceLine(name: string, price: int, quantity: int, total: int)

  /** A row of the `order` table (the creation timestamp is not modelled). */
  datatype Order = Order(id: int, customerName: string, totalAmount: int, items: seq<InvoiceLine>)

  /** The JSON answer of `/api/pay`. */
  datatype PayResponse = PayResponse(success: bool, orderId: int, total: int)

  /** The requested items whose id names a product; the others are skipped. */
  function KnownItems(t: ProductTable, items: seq<PayItem>): (r: seq<PayItem>)
    ensures |r| <= |items|
    ensures forall i :: 0 <= i < |r| ==> r[i] in items && r[i].id in StoredIds(t)
    ensures forall i :: 0 <= i < |items| && items[i].id in StoredIds(t) ==> items[i] in r
  {
    if |items| == 0 then []
    else
      var p, x := items[..|items| - 1], items[|items| - 1];
      assert items == p + [x];
      KnownItems(t, p) + (if x.id in StoredIds(t) then [x] else [])
  }

  /** The known items keep the request's order: the filter distributes over concatenation
      and keeps a single item exactly when the table knows its id. */
  lemma {:induction false} KnownItemsInOrder(t: ProductTable, a: seq<PayItem>, b: seq<PayItem>, x: PayItem)
    ensures KnownItems(t, a + b) == KnownItems(t, a) + KnownItems(t, b)
    ensures KnownItems(t, [x]) == if x.id in StoredIds(t) then [x] else []
  {
    assert [x][..0] == [];
    if |b| == 0 {
      assert a + b == a;
    } else {
      var p, y := b[..|b| - 1], b[|b| - 1];
      assert (a + b)[..|a + b| - 1] == a + p;
      KnownItemsInOrder(t, a, p, x);
    }
  }

  /** The invoice line for a known item: the table's name and price, never the client's. */
  function LineFor(t: ProductTable, item: PayItem): (l: InvoiceLine)
    requires item.id in StoredIds(t)
    ensures l.name == Get(t, item.id).value.name && l.price == Get(t, item.id).value.price
    ensures l.quantity == item.quantity
    ensures l.total == l.price * l.quantity
  {
    var p := Get(t, item.id).value;
    InvoiceLine(p.name, p.price, item.quantity, p.price * item.quantity)
  }

  /** The invoice lines of a payment: one per known item, in request order. */
  function Billed(t: ProductTable, items: seq<PayItem>): (r: seq<InvoiceLine>)
    ensures |r| == |KnownItems(t, items)|
    ensures forall i :: 0 <= i < |r| ==> r[i] == LineFor(t, KnownItems(t, items)[i])
  {
    if |items| == 0 then []
    else
      var p, x := items[..|items| - 1], items[|items| - 1];
      Billed(t, p) + (if x.id in StoredIds(t) then [LineFor(t, x)] else [])
  }

  /** Sum of the lines' totals. */
  function LinesTotal(lines: seq<InvoiceLine>): int {
    if |lines| == 0 then 0 else LinesTotal(lines[..|lines| - 1]) + lines[|lines| - 1].total
  }

  /** No item's id names a product. */
  predicate NoneKnown(t: ProductTable, items: seq<PayItem>) {
    forall i :: 0 <= i < |items| ==> items[i].id !in StoredIds(t)
  }

  /** Reference amount: the totals of the known items' invoice lines, summed. Items the
      table does not know cost nothing. */
  function Amount(t: ProductTable, items: seq<PayItem>): int {
    if |items| == 0 then 0
    else
      var p, x := items[..|items| - 1], items[|items| - 1];
      Amount(t, p) + (if x.id in StoredIds(t) then LineFor(t, x).total else 0)
  }

  lemma LinesTotalConcat(a: seq<InvoiceLine>, b: seq<InvoiceLine>)
    ensures LinesTotal(a + b) == LinesTotal(a) + LinesTotal(b)
  {
    if |b| == 0 {
      assert a + b == a;
    } else {
      assert (a + b)[..|a + b| - 1] == a + b[..|b| - 1];
      LinesTotalConcat(a, b[..|b| - 1]);
    }
  }

  /** The invoice's line totals add up to the order amount. */
  lemma {:induction false} BilledTotal(t: ProductTable, items: seq<PayItem>)
    ensures LinesTotal(Billed(t, items)) == Amount(t, items)
  {
    if |items| > 0 {
      var p, x := items[..|items| - 1], items[|items| - 1];
      BilledTotal(t, p);
      LinesTotalConcat(Billed(t, p), if x.id in StoredIds(t) then [LineFor(t, x)] else []);
    }
  }

  /** Items naming no product contribute nothing: the amount of a request equals the
      amount of its known items. */
  lemma {:induction false} AmountIgnoresUnknown(t: ProductTable, items: seq<PayItem>)
    ensures Amount(t, KnownItems(t, items)) == Amount(t, items)
  {
    if |items| > 0 {
      var p, x := items[..|items| - 1], items[|items| - 1];
      AmountIgnoresUnknown(t, p);
      AmountSnoc(t, p, x);
      assert items == p + [x];
      if x.id in StoredIds(t) {
        assert KnownItems(t, items) == KnownItems(t, p) + [x];
        AmountSnoc(t, KnownItems(t, p), x);
      } else {
        assert KnownItems(t, items) == KnownItems(t, p) + [];
        assert KnownItems(t, p) + [] == KnownItems(t, p);
      }
    }
  }

  /** A request none of whose ids the table knows is charged 0. */
  lemma {:induction false} AmountOfUnknownItems(t: ProductTable, items: seq<PayItem>)
    requires NoneKnown(t, items)
    ensures Amount(t, items) == 0
  {
    if |items| > 0 {
      var p := items[..|items| - 1];
      assert NoneKnown(t, p) by {
        assert forall i :: 0 <= i < |p| ==> p[i] == items[i];
      }
      AmountOfUnknownItems(t, p);
    }
  }

  lemma AmountSnoc(t: ProductTable, p: seq<PayItem>, x: PayItem)
    ensures Amount(t, p + [x]) == Amount(t, p) + (if x.id in StoredIds(t) then LineFor(t, x).total else 0)
  {
    assert (p + [x])[..|p|] == p;
  }

  lemma BilledSnoc(t: ProductTable, p: seq<PayItem>, x: PayItem)
    ensures Billed(t, p + [x]) == Billed(t, p) + (if x.id in StoredIds(t) then [LineFor(t, x)] else [])
  {
    assert (p + [x])[..|p|] == p;
  }

  /** One iteration of `pay()`'s loop extends the amount and the invoice by one item. */
  lemma PayStep(t: ProductTable, items: seq<PayItem>, i: nat)
    requires i < |items|
    ensures Amount(t, items[..i + 1]) ==
            Amount(t, items[..i]) + (if items[i].id in StoredIds(t) then LineFor(t, items[i]).total else 0)
    ensures Billed(t, items[..i + 1]) ==
            Billed(t, items[..i]) + (if items[i].id in StoredIds(t) then [LineFor(t, items[i])] else [])
  {
    assert items[..i + 1] == items[..i] + [items[i]];
    AmountSnoc(t, items[..i], items[i]);
    BilledSnoc(t, items[..i], items[i]);
  }

  /** `pay()`: walks the request's items (none when the key is absent), prices each known
      one from the table, and records an order under the id the database assigns. The
      customer name defaults to the walk-in placeholder when its key is absent. */
  method Pay(t: ProductTable, req: PayRequest, orderId: int) returns (order: Order, response: PayResponse)
    ensures order.id == orderId
    ensures order.customerName == req.customerName.GetOr(WalkInCustomer)
    ensures order.items == Billed(t, req.items.GetOr([]))
    ensures order.totalAmount == Amount(t, req.items.GetOr([]))
    ensures order.totalAmount == LinesTotal(order.items)
    ensures response == PayResponse(true, orderId, order.totalAmount)
  {
    var items := req.items.GetOr([]);
    var customer := req.customerName.GetOr(WalkInCustomer);
    var total := 0;
    var lines: seq<InvoiceLine> := [];
    var i := 0;
    while i < |items|
      invariant 0 <= i <= |items|
      invariant total == Amount(t, items[..i])
      invariant lines == Billed(t, items[..i])
    {
      var item := items[i];
      PayStep(t, items, i);
      if Get(t, item.id).Some? {
        var line := LineFor(t, item);
        total := total + line.total;
        lines := lines + [line];
      }
      i := i + 1;
    }
    assert items[..|items|] == items;
    BilledTotal(t, items);
    order := Order(orderId, customer, total, lines);
    response := PayResponse(true, orderId, total);
  }

  // ----------------------------------------------------------- /api/products

  const UpdatedMessage := "Đã cập nhật sản phẩm!"
  const CreatedMessage := "Đã thêm sản phẩm mới!"

  /** The JSON answer of a save that completed (it always says `success: true`). */
  datatype SaveResponse = SaveResponse(message: string)

  /** The table after the request and the answer; `None` is an HTTP 500 from an uncaught
      exception, after which the session is rolled back. */
  datatype SaveResult = SaveResult(table: ProductTable, response: Option<SaveResponse>)

  /** `'id' in data and data['id']`: a present, non-null, non-zero id selects an edit. */
  predicate IsEdit(req: SaveRequest) {
    req.id.Some? && req.id.value != 0
  }

  /** `save_product()`. An edit of a known id with a price rewrites that row's name and
      price. An edit of an unknown id leaves `message` unbound and fails; a missing price
      fails in `float(None)`. Anything else appends a row under `freshId`, the key the
      database assigns. */
  function SaveProduct(t: ProductTable, req: SaveRequest, freshId: int): (r: SaveResult)
    requires freshId !in StoredIds(t)
    ensures r.response.Some? <==>
              req.price.Some? && (IsEdit(req) ==> req.id.value in StoredIds(t))
    ensures r.response.None? ==> r.table == t
    ensures r.response.Some? && IsEdit(req) ==>
              r.response.value.message == UpdatedMessage &&
              StoredIds(r.table) == StoredIds(t) &&
              Get(r.table, req.id.value) == Some(StoredProduct(req.id.value, req.name, req.price.value))
    ensures r.response.Some? && IsEdit(req) ==>
              forall i :: 0 <= i < |t| && t[i] != Get(t, req.id.value).value ==> r.table[i] == t[i]
    ensures r.response.Some? && !IsEdit(req) ==>
              r.response.value.message == CreatedMessage &&
              r.table == t + [StoredProduct(freshId, req.name, req.price.value)]
  {
    if IsEdit(req) then
      var id := req.id.value;
      if id in StoredIds(t) && req.price.Some? then
        var k := FirstIndex(StoredIds(t), id);
        var t' := t[k := t[k].(name := req.name, price := req.price.value)];
        assert StoredIds(t') == StoredIds(t);
        SaveResult(t', Some(SaveResponse(UpdatedMessage)))
      else SaveResult(t, None)
    else if req.price.Some? then
      SaveResult(t + [StoredProduct(freshId, req.name, req.price.value)], Some(SaveResponse(CreatedMessage)))
    else SaveResult(t, None)
  }

  /** Saving keeps the primary key unique. */
  lemma SavePreservesWellKeyed(t: ProductTable, req: SaveRequest, freshId: int)
    requires WellKeyed(t) && freshId !in StoredIds(t)
    ensures WellKeyed(SaveProduct(t, req, freshId).table)
  {
    var r := SaveProduct(t, req, freshId);
    if r.response.Some? && !IsEdit(req) {
      var s := StoredProduct(freshId, req.name, req.price.value);
      assert StoredIds(t + [s]) == StoredIds(t) + [freshId];
    }
  }

  /** With a unique key an edit changes exactly the row it names. */
  lemma EditChangesOneRow(t: ProductTable, req: SaveRequest, freshId: int, i: nat)
    requires WellKeyed(t) && freshId !in StoredIds(t) && i < |t|
    requires IsEdit(req) && SaveProduct(t, req, freshId).response.Some?
    ensures SaveProduct(t, req, freshId).table[i] ==
            (if t[i].id == req.id.value then StoredProduct(t[i].id, req.name, req.price.value) else t[i])
  {
    GetRow(t, i);
  }

  // ------------------------------------------------------------ /api/history

  const HistoryLimit := 10

  function OrderIds(orders: seq<Order>): (r: seq<int>)
    ensures |r| == |orders|
    ensures forall i :: 0 <= i < |orders| ==> r[i] == orders[i].id
  {
    seq(|orders|, i requires 0 <= i < |orders| => orders[i].id)
  }

  /** Newest first: ids strictly decrease. */
  predicate NewestFirst(s: seq<Order>) {
    forall i, j :: 0 <= i < j < |s| ==> s[i].id > s[j].id
  }

  lemma ConsNewestFirst(a: Order, s: seq<Order>)
    requires NewestFirst(s)
    requires forall j :: 0 <= j < |s| ==> a.id > s[j].id
    ensures NewestFirst([a] + s)
  {
    forall i, j | 0 <= i < j < |[a] + s| ensures ([a] + s)[i].id > ([a] + s)[j].id {
      assert ([a] + s)[j] == s[j - 1];
      if i > 0 {
        assert ([a] + s)[i] == s[i - 1];
      }
    }
  }

  /** Whatever goes after the head of a newest-first list, with `o` among it, is older
      than the head when `o` is. */
  lemma OlderThanHead(s: seq<Order>, o: Order, rest: seq<Order>)
    requires |s| > 0 && NewestFirst(s) && o.id < s[0].id
    requires multiset(rest) == multiset(s[1..]) + multiset{o}
    ensures forall j :: 0 <= j < |rest| ==> s[0].id > rest[j].id
  {
    forall j | 0 <= j < |rest| ensures s[0].id > rest[j].id {
      assert rest[j] in multiset(rest);
      if rest[j] != o {
        assert rest[j] in s[1..];
      }
    }
  }

  /** Inserts `o` into a newest-first list that does not hold its id. */
  function Insert(s: seq<Order>, o: Order): (r: seq<Order>)
    requires NewestFirst(s)
    requires forall j :: 0 <= j < |s| ==> s[j].id != o.id
    ensures NewestFirst(r)
    ensures multiset(r) == multiset(s) + multiset{o}
  {
    if |s| == 0 || o.id > s[0].id then
      ConsNewestFirst(o, s);
      [o] + s
    else
      var rest := Insert(s[1..], o);
      OlderThanHead(s, o, rest);
      ConsNewestFirst(s[0], rest);
      assert s == [s[0]] + s[1..];
      [s[0]] + rest
  }

  /** `ORDER BY id DESC` on a table whose ids are unique. */
  function SortNewestFirst(orders: seq<Order>): (r: seq<Order>)
    requires Distinct(OrderIds(orders))
    ensures NewestFirst(r)
    ensures multiset(r) == multiset(orders)
  {
    if |orders| == 0 then []
    else
      var p, o := orders[..|orders| - 1], orders[|orders| - 1];
      assert orders == p + [o];
      assert forall i :: 0 <= i < |p| ==> OrderIds(p)[i] == OrderIds(orders)[i];
      var s := SortNewestFirst(p);
      forall j | 0 <= j < |s| ensures s[j].id != o.id {
        assert s[j] in multiset(p);
        var i :| 0 <= i < |p| && p[i] == s[j];
        assert OrderIds(orders)[i] != OrderIds(orders)[|orders| - 1];
      }
      Insert(s, o)
  }

  /** An order of the table missing from a newest-first prefix of it is older than every
      order the prefix holds. */
  lemma OmittedIsOlder(orders: seq<Order>, s: seq<Order>, n: nat, o: Order)
    requires NewestFirst(s) && multiset(s) == multiset(orders) && n <= |s|
    requires o in orders && o !in s[..n]
    ensures forall x :: x in s[..n] ==> o.id < x.id
  {
    assert o in multiset(s);
    var j :| 0 <= j < |s| && s[j] == o;
    forall k | 0 <= k < n ensures s[k] != o {
      assert s[k] == s[..n][k];
    }
  }

  /** The first `n` orders of a rearrangement of `orders` all come from `orders`. */
  lemma PrefixFromTable(orders: seq<Order>, s: seq<Order>, n: nat)
    requires multiset(s) == multiset(orders) && n <= |s|
    ensures forall i :: 0 <= i < n ==> s[..n][i] in orders
  {
    forall i | 0 <= i < n ensures s[..n][i] in orders {
      assert s[i] in multiset(orders);
    }
  }

  /** `get_history()`: the `HistoryLimit` orders with the largest ids, newest first. */
  function History(orders: seq<Order>): (r: seq<Order>)
    requires Distinct(OrderIds(orders))
    ensures |r| == if |orders| < HistoryLimit then |orders| else HistoryLimit
    ensures NewestFirst(r)
    ensures forall i :: 0 <= i < |r| ==> r[i] in orders
    ensures forall o :: o in orders && o !in r ==> forall x :: x in r ==> o.id < x.id
  {
    var s := SortNewestFirst(orders);
    assert |s| == |orders| by {
      assert |multiset(s)| == |multiset(orders)|;
    }
    var n := if |s| < HistoryLimit then |s| else HistoryLimit;
    PrefixFromTable(orders, s, n);
    forall o | o in orders && o !in s[..n]
      ensures forall x :: x in s[..n] ==> o.id < x.id
    {
      OmittedIsOlder(orders, s, n, o);
    }
    s[..n]
  }
}
