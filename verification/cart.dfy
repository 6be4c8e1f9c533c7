/** The POS cart: an ordered list of lines, one per product id, each holding a copy of the
    product taken when it was first added and a quantity. */
module Cart {
  import opened Wrappers
  import opened Seqs
  import opened Products

  datatype CartLine = CartLine(product: Product, quantity: int) {
    function Id(): int { product.id }
    /** What the cart table shows in a line's total column. */
    function Subtotal(): int { product.price * quantity }
  }

  function LineIds(cart: seq<CartLine>): (r: seq<int>)
    ensures |r| == |cart|
    ensures forall i :: 0 <= i < |cart| ==> r[i] == cart[i].Id()
  {
    seq(|cart|, i requires 0 <= i < |cart| => cart[i].Id())
  }

  lemma LineIdsSnoc(cart: seq<CartLine>, line: CartLine)
    ensures LineIds(cart + [line]) == LineIds(cart) + [line.Id()]
  {
  }

  /** The cart invariant: at most one line per product id, and no line with a quantity
      of zero or less (such a line is removed). */
  predicate Valid(cart: seq<CartLine>) {
    && Distinct(LineIds(cart))
    && forall i :: 0 <= i < |cart| ==> cart[i].quantity >= 1
  }

  /** `addToCart(id)`: an id missing from the catalog is ignored; an id already in the cart
      adds one to that line only; otherwise a copy of the product is appended with
      quantity 1. */
  function AddToCart(catalog: seq<Product>, cart: seq<CartLine>, id: int): (r: seq<CartLine>)
    ensures Find(catalog, id).None? ==> r == cart
    ensures Find(catalog, id).Some? && id in LineIds(cart) ==>
              var k := FirstIndex(LineIds(cart), id);
              && |r| == |cart|
              && r[k].product == cart[k].product
              && r[k].quantity == cart[k].quantity + 1
              && forall j :: 0 <= j < |cart| && j != k ==> r[j] == cart[j]
    ensures Find(catalog, id).Some? && id !in LineIds(cart) ==>
              r == cart + [CartLine(Find(catalog, id).value, 1)]
  {
    match Find(catalog, id)
    case None => cart
    case Some(p) =>
      if id in LineIds(cart) then
        var k := FirstIndex(LineIds(cart), id);
        cart[k := cart[k].(quantity := cart[k].quantity + 1)]
      else
        cart + [CartLine(p, 1)]
  }

  /** After adding a known id the cart has a line for it. */
  lemma AddedIdPresent(catalog: seq<Product>, cart: seq<CartLine>, id: int)
    requires Find(catalog, id).Some?
    ensures id in LineIds(AddToCart(catalog, cart, id))
  {
    var r := AddToCart(catalog, cart, id);
    if id in LineIds(cart) {
      var k := FirstIndex(LineIds(cart), id);
      assert r[k].Id() == cart[k].Id();
      assert LineIds(r)[k] == id;
    } else {
      LineIdsSnoc(cart, CartLine(Find(catalog, id).value, 1));
    }
  }

  /** Array.prototype.splice's start position for a one-element deletion: a negative index
      counts from the end, and the result is clamped to [0, len]. */
  function SpliceStart(len: nat, index: int): (s: nat)
    ensures s <= len
    ensures 0 <= index <= len ==> s == index
    ensures index > len ==> s == len
    ensures index < 0 <= len + index ==> s == len + index
    ensures len + index < 0 ==> s == 0
  {
    if index < 0 then (if len + index < 0 then 0 else len + index)
    else if index > len then len
    else index
  }

  /** `removeFromCart(index)`, i.e. `cart.splice(index, 1)`. */
  function RemoveFromCart(cart: seq<CartLine>, index: int): (r: seq<CartLine>)
    ensures 0 <= index < |cart| ==> r == cart[..index] + cart[index + 1..]
    ensures index >= |cart| ==> r == cart
    ensures -|cart| <= index < 0 ==> r == cart[..|cart| + index] + cart[|cart| + index + 1..]
    ensures |cart| > 0 && index < -|cart| ==> r == cart[1..]
    ensures |cart| == 0 ==> r == cart
  {
    var s := SpliceStart(|cart|, index);
    if s < |cart| then cart[..s] + cart[s + 1..] else cart
  }

  /** `updateQuantity(index, change)`: the line's quantity moves by `change` and the line
      is removed when the new quantity is zero or less. `cart[index]` must exist. */
  function UpdateQuantity(cart: seq<CartLine>, index: int, change: int): (r: seq<CartLine>)
    requires 0 <= index < |cart|
    ensures cart[index].quantity + change <= 0 ==> r == cart[..index] + cart[index + 1..]
    ensures cart[index].quantity + change > 0 ==>
              && |r| == |cart|
              && r[index].product == cart[index].product
              && r[index].quantity == cart[index].quantity + change
              && forall j :: 0 <= j < |cart| && j != index ==> r[j] == cart[j]
  {
    var q := cart[index].quantity + change;
    if q <= 0 then RemoveFromCart(cart, index)
    else cart[index := cart[index].(quantity := q)]
  }

  /** No line has a negative price or quantity. */
  predicate NonNegative(cart: seq<CartLine>) {
    forall i :: 0 <= i < |cart| ==> cart[i].product.price >= 0 && cart[i].quantity >= 0
  }

  /** The cart total: the sum of price * quantity over the lines. */
  function Total(cart: seq<CartLine>): int {
    if |cart| == 0 then 0 else Total(cart[..|cart| - 1]) + cart[|cart| - 1].Subtotal()
  }

  /** The total is never negative while no price or quantity is. */
  lemma {:induction false} TotalNonNegative(cart: seq<CartLine>)
    requires NonNegative(cart)
    ensures Total(cart) >= 0
  {
    if |cart| > 0 {
      var p := cart[..|cart| - 1];
      assert NonNegative(p) by {
        assert forall i :: 0 <= i < |p| ==> p[i] == cart[i];
      }
      TotalNonNegative(p);
      var l := cart[|cart| - 1];
      assert l.product.price >= 0 && l.quantity >= 0;
      MulNonNegative(l.product.price, l.quantity);
    }
  }

  lemma MulNonNegative(a: int, b: int)
    requires a >= 0 && b >= 0
    ensures a * b >= 0
  {
  }

  /** The running total `renderCart` accumulates while drawing each line. */
  method RenderTotal(cart: seq<CartLine>) returns (total: int)
    ensures total == Total(cart)
  {
    total := 0;
    var i := 0;
    while i < |cart|
      invariant 0 <= i <= |cart|
      invariant total == Total(cart[..i])
    {
      assert cart[..i + 1][..i] == cart[..i];
      total := total + cart[i].Subtotal();
      i := i + 1;
    }
    assert cart[..i] == cart;
  }

  lemma MulDistrib(p: int, q: int, c: int)
    ensures p * (q + c) == p * q + p * c
  {
  }

  /** Moving a line's quantity by `change` moves its subtotal by price * change. */
  lemma SubtotalStep(line: CartLine, change: int)
    ensures line.(quantity := line.quantity + change).Subtotal() == line.Subtotal() + line.product.price * change
  {
    MulDistrib(line.product.price, line.quantity, change);
  }

  lemma {:induction false} TotalConcat(a: seq<CartLine>, b: seq<CartLine>)
    ensures Total(a + b) == Total(a) + Total(b)
    decreases |b|
  {
    if |b| > 0 {
      var b' := b[..|b| - 1];
      assert (a + b)[..|a + b| - 1] == a + b';
      assert (a + b)[|a + b| - 1] == b[|b| - 1];
      TotalConcat(a, b');
    } else {
      assert a + b == a;
    }
  }

  /** Total of a cart split around line k. */
  lemma TotalAround(cart: seq<CartLine>, k: nat)
    requires k < |cart|
    ensures Total(cart) == Total(cart[..k]) + cart[k].Subtotal() + Total(cart[k + 1..])
  {
    assert cart == cart[..k] + [cart[k]] + cart[k + 1..];
    TotalConcat(cart[..k] + [cart[k]], cart[k + 1..]);
    TotalConcat(cart[..k], [cart[k]]);
    TotalSingle(cart[k]);
  }

  lemma TotalSingle(line: CartLine)
    ensures Total([line]) == line.Subtotal()
  {
    assert [line][..0] == [];
  }

  /** Adding a known product raises the total by one unit price: the price copied into the
      existing line for that id, or the catalog price for a new line. An unknown id leaves
      the total alone. */
  lemma TotalAfterAdd(catalog: seq<Product>, cart: seq<CartLine>, id: int)
    ensures Total(AddToCart(catalog, cart, id)) ==
            Total(cart) + (if Find(catalog, id).None? then 0
                           else if id in LineIds(cart) then cart[FirstIndex(LineIds(cart), id)].product.price
                           else Find(catalog, id).value.price)
  {
    var r := AddToCart(catalog, cart, id);
    if Find(catalog, id).Some? {
      var p := Find(catalog, id).value;
      if id in LineIds(cart) {
        var k := FirstIndex(LineIds(cart), id);
        var line' := cart[k].(quantity := cart[k].quantity + 1);
        assert r == cart[k := line'];
        TotalReplace(cart, k, line');
        SubtotalStep(cart[k], 1);
      } else {
        TotalConcat(cart, [CartLine(p, 1)]);
        assert r == cart + [CartLine(p, 1)];
        assert Total([CartLine(p, 1)]) == p.price by {
          assert [CartLine(p, 1)][..0] == [];
        }
      }
    }
  }

  /** Replacing one line changes the total by the difference of the two subtotals. */
  lemma TotalReplace(cart: seq<CartLine>, k: nat, line: CartLine)
    requires k < |cart|
    ensures Total(cart[k := line]) == Total(cart) - cart[k].Subtotal() + line.Subtotal()
  {
    var r := cart[k := line];
    TotalAround(cart, k);
    TotalAround(r, k);
    assert r[..k] == cart[..k];
    assert r[k + 1..] == cart[k + 1..];
  }

  /** Changing a quantity moves the total by price * change, or drops the line's whole
      subtotal when the line is removed. */
  lemma TotalAfterUpdate(cart: seq<CartLine>, index: nat, change: int)
    requires index < |cart|
    ensures cart[index].quantity + change <= 0 ==>
              Total(UpdateQuantity(cart, index, change)) == Total(cart) - cart[index].Subtotal()
    ensures cart[index].quantity + change > 0 ==>
              Total(UpdateQuantity(cart, index, change)) == Total(cart) + cart[index].product.price * change
  {
    var line := cart[index];
    var r := UpdateQuantity(cart, index, change);
    if line.quantity + change <= 0 {
      assert r == RemoveFromCart(cart, index);
      TotalAfterRemove(cart, index);
    } else {
      TotalAfterChange(cart, index, change);
    }
  }

  lemma TotalAfterChange(cart: seq<CartLine>, index: nat, change: int)
    requires index < |cart|
    requires cart[index].quantity + change > 0
    ensures Total(UpdateQuantity(cart, index, change)) == Total(cart) + cart[index].product.price * change
  {
    var line := cart[index];
    var line' := line.(quantity := line.quantity + change);
    assert UpdateQuantity(cart, index, change) == cart[index := line'];
    TotalReplace(cart, index, line');
    SubtotalStep(line, change);
  }

  /** Removing line `index` drops exactly its subtotal. */
  lemma TotalAfterRemove(cart: seq<CartLine>, index: nat)
    requires index < |cart|
    ensures Total(RemoveFromCart(cart, index)) == Total(cart) - cart[index].Subtotal()
  {
    TotalAround(cart, index);
    TotalConcat(cart[..index], cart[index + 1..]);
  }

  lemma AddPreservesValid(catalog: seq<Product>, cart: seq<CartLine>, id: int)
    requires Valid(cart)
    ensures Valid(AddToCart(catalog, cart, id))
  {
    var r := AddToCart(catalog, cart, id);
    if Find(catalog, id).Some? && id !in LineIds(cart) {
      forall i, j | 0 <= i < j < |r| ensures LineIds(r)[i] != LineIds(r)[j] {
        if j == |cart| {
          assert LineIds(cart)[i] == LineIds(r)[i];
        } else {
          assert LineIds(cart)[i] != LineIds(cart)[j];
        }
      }
    } else if Find(catalog, id).Some? {
      var k := FirstIndex(LineIds(cart), id);
      assert forall i :: 0 <= i < |r| ==> LineIds(r)[i] == LineIds(cart)[i];
    }
  }

  lemma RemovePreservesValid(cart: seq<CartLine>, index: int)
    requires Valid(cart)
    ensures Valid(RemoveFromCart(cart, index))
  {
    var s := SpliceStart(|cart|, index);
    if s < |cart| {
      ValidRemoveAt(cart, s);
    }
  }

  lemma ValidRemoveAt(cart: seq<CartLine>, k: nat)
    requires Valid(cart)
    requires k < |cart|
    ensures Valid(cart[..k] + cart[k + 1..])
  {
    var r := cart[..k] + cart[k + 1..];
    var ids := LineIds(cart);
    assert |r| == |cart| - 1;
    assert forall i :: 0 <= i < |r| ==> r[i] == cart[if i < k then i else i + 1];
    assert LineIds(r) == ids[..k] + ids[k + 1..];
    DistinctRemove(ids, k);
  }

  /** `updateQuantity` keeps the cart invariant: the lines it keeps still have positive
      quantities and distinct ids. */
  lemma UpdatePreservesValid(cart: seq<CartLine>, index: nat, change: int)
    requires Valid(cart)
    requires index < |cart|
    ensures Valid(UpdateQuantity(cart, index, change))
  {
    if cart[index].quantity + change <= 0 {
      RemovePreservesValid(cart, index);
    } else {
      var r := UpdateQuantity(cart, index, change);
      assert forall i :: 0 <= i < |r| ==> LineIds(r)[i] == LineIds(cart)[i];
    }
  }

  /** The cart after the given clicks, starting from `cart`. */
  function AddAll(catalog: seq<Product>, cart: seq<CartLine>, ids: seq<int>): seq<CartLine> {
    if |ids| == 0 then cart
    else AddToCart(catalog, AddAll(catalog, cart, ids[..|ids| - 1]), ids[|ids| - 1])
  }

  /** The clicked ids that the catalog knows, in click order. */
  function KnownIds(catalog: seq<Product>, ids: seq<int>): (r: seq<int>)
    ensures forall i :: 0 <= i < |r| ==> r[i] in ids && Find(catalog, r[i]).Some?
    ensures forall i :: 0 <= i < |ids| && Find(catalog, ids[i]).Some? ==> ids[i] in r
  {
    if |ids| == 0 then []
    else
      var k := KnownIds(catalog, ids[..|ids| - 1]);
      assert forall i :: 0 <= i < |ids| - 1 ==> ids[i] == ids[..|ids| - 1][i];
      if Find(catalog, ids[|ids| - 1]).Some? then k + [ids[|ids| - 1]] else k
  }

  /** `KnownIds` keeps click order and multiplicity: it distributes over joined click
      sequences, and a single click is kept exactly when the catalog knows its id. */
  lemma {:induction false} KnownIdsInOrder(catalog: seq<Product>, a: seq<int>, b: seq<int>, x: int)
    ensures KnownIds(catalog, a + b) == KnownIds(catalog, a) + KnownIds(catalog, b)
    ensures KnownIds(catalog, [x]) == if Find(catalog, x).Some? then [x] else []
  {
    assert [x][..0] == [];
    if |b| == 0 {
      assert a + b == a;
    } else {
      var p := b[..|b| - 1];
      assert (a + b)[..|a + b| - 1] == a + p;
      KnownIdsInOrder(catalog, a, p, x);
    }
  }

  /** `cart` is what the clicks `ids` produce: a valid cart whose lines are the known
      clicked ids in first-click order, each with as many units as clicks on its id and
      holding the catalog's product for that id. */
  ghost predicate Reflects(catalog: seq<Product>, cart: seq<CartLine>, ids: seq<int>) {
    && Valid(cart)
    && LineIds(cart) == Dedup(KnownIds(catalog, ids))
    && forall j :: 0 <= j < |cart| ==>
         cart[j].quantity == Count(ids, cart[j].Id()) && Find(catalog, cart[j].Id()) == Some(cart[j].product)
  }

  lemma AddStepUnknown(catalog: seq<Product>, cart: seq<CartLine>, ids: seq<int>, x: int)
    requires Reflects(catalog, cart, ids)
    requires Find(catalog, x).None?
    ensures Reflects(catalog, AddToCart(catalog, cart, x), ids + [x])
  {
    assert (ids + [x])[..|ids|] == ids;
    assert KnownIds(catalog, ids + [x]) == KnownIds(catalog, ids);
    forall j | 0 <= j < |cart| ensures Count(ids + [x], cart[j].Id()) == Count(ids, cart[j].Id()) {
      CountSnoc(ids, x, cart[j].Id());
    }
  }

  /** Quantities still count clicks after one more click on the id of line k. */
  lemma CountsAfterIncrement(cart: seq<CartLine>, r: seq<CartLine>, ids: seq<int>, k: nat)
    requires k < |cart| == |r|
    requires Distinct(LineIds(cart))
    requires r[k].product == cart[k].product && r[k].quantity == cart[k].quantity + 1
    requires forall j :: 0 <= j < |cart| && j != k ==> r[j] == cart[j]
    requires forall j :: 0 <= j < |cart| ==> cart[j].quantity == Count(ids, cart[j].Id())
    ensures forall j :: 0 <= j < |r| ==> r[j].quantity == Count(ids + [cart[k].Id()], r[j].Id())
  {
    forall j | 0 <= j < |r|
      ensures r[j].quantity == Count(ids + [cart[k].Id()], r[j].Id())
    {
      CountSnoc(ids, cart[k].Id(), r[j].Id());
      if j != k {
        assert LineIds(cart)[j] != LineIds(cart)[k];
      }
    }
  }

  lemma ReflectsIntro(catalog: seq<Product>, cart: seq<CartLine>, ids: seq<int>)
    requires Valid(cart)
    requires LineIds(cart) == Dedup(KnownIds(catalog, ids))
    requires forall j :: 0 <= j < |cart| ==> cart[j].quantity == Count(ids, cart[j].Id())
    requires forall j :: 0 <= j < |cart| ==> Find(catalog, cart[j].Id()) == Some(cart[j].product)
    ensures Reflects(catalog, cart, ids)
  {
  }

  /** Changing only line k's quantity keeps every line's product, hence the ids. */
  lemma SameProducts(cart: seq<CartLine>, r: seq<CartLine>, k: nat)
    requires k < |cart| == |r|
    requires r[k].product == cart[k].product
    requires forall j :: 0 <= j < |cart| && j != k ==> r[j] == cart[j]
    ensures forall j :: 0 <= j < |r| ==> r[j].product == cart[j].product
    ensures LineIds(r) == LineIds(cart)
  {
    assert forall j :: 0 <= j < |r| ==> LineIds(r)[j] == LineIds(cart)[j];
  }

  /** A repeated click adds no new id: the lines' ids stay the first-seen known ids. */
  lemma IdsAfterExisting(catalog: seq<Product>, cart: seq<CartLine>, ids: seq<int>, x: int)
    requires Reflects(catalog, cart, ids)
    requires Find(catalog, x).Some?
    requires x in LineIds(cart)
    ensures LineIds(AddToCart(catalog, cart, x)) == Dedup(KnownIds(catalog, ids + [x]))
  {
    var r := AddToCart(catalog, cart, x);
    var kp := KnownIds(catalog, ids);
    assert (ids + [x])[..|ids|] == ids;
    assert KnownIds(catalog, ids + [x]) == kp + [x];
    assert x in kp;
    DedupSnoc(kp, x);
    SameProducts(cart, r, FirstIndex(LineIds(cart), x));
  }

  lemma AddStepExisting(catalog: seq<Product>, cart: seq<CartLine>, ids: seq<int>, x: int)
    requires Reflects(catalog, cart, ids)
    requires Find(catalog, x).Some?
    requires x in LineIds(cart)
    ensures Reflects(catalog, AddToCart(catalog, cart, x), ids + [x])
  {
    var r := AddToCart(catalog, cart, x);
    AddPreservesValid(catalog, cart, x);
    IdsAfterExisting(catalog, cart, ids, x);
    var k := FirstIndex(LineIds(cart), x);
    SameProducts(cart, r, k);
    CountsAfterIncrement(cart, r, ids, k);
    ReflectsIntro(catalog, r, ids + [x]);
  }

  /** Quantities still count clicks after a first click on a new id appends its line. */
  lemma CountsAfterAppend(cart: seq<CartLine>, ids: seq<int>, line: CartLine)
    requires line.Id() !in LineIds(cart) && line.Id() !in ids
    requires line.quantity == 1
    requires forall j :: 0 <= j < |cart| ==> cart[j].quantity == Count(ids, cart[j].Id())
    ensures forall j :: 0 <= j < |cart| + 1 ==>
              (cart + [line])[j].quantity == Count(ids + [line.Id()], (cart + [line])[j].Id())
  {
    var r := cart + [line];
    forall j | 0 <= j < |r|
      ensures r[j].quantity == Count(ids + [line.Id()], r[j].Id())
    {
      CountSnoc(ids, line.Id(), r[j].Id());
      if j < |cart| {
        assert LineIds(cart)[j] == r[j].Id();
      }
    }
  }

  /** Lines still hold the catalog's product after appending a line that does too. */
  lemma ProductsAfterAppend(catalog: seq<Product>, cart: seq<CartLine>, line: CartLine)
    requires forall j :: 0 <= j < |cart| ==> Find(catalog, cart[j].Id()) == Some(cart[j].product)
    requires Find(catalog, line.Id()) == Some(line.product)
    ensures forall j :: 0 <= j < |cart| + 1 ==>
              Find(catalog, (cart + [line])[j].Id()) == Some((cart + [line])[j].product)
  {
    forall j | 0 <= j < |cart| + 1
      ensures Find(catalog, (cart + [line])[j].Id()) == Some((cart + [line])[j].product)
    {
      if j < |cart| {
        assert (cart + [line])[j] == cart[j];
      }
    }
  }

  lemma AddStepNew(catalog: seq<Product>, cart: seq<CartLine>, ids: seq<int>, x: int)
    requires Reflects(catalog, cart, ids)
    requires Find(catalog, x).Some?
    requires x !in LineIds(cart)
    ensures Reflects(catalog, AddToCart(catalog, cart, x), ids + [x])
  {
    var r := AddToCart(catalog, cart, x);
    var kp := KnownIds(catalog, ids);
    assert (ids + [x])[..|ids|] == ids;
    assert KnownIds(catalog, ids + [x]) == kp + [x];
    assert x !in kp;
    assert x !in ids;
    DedupSnoc(kp, x);
    AddPreservesValid(catalog, cart, x);
    LineIdsSnoc(cart, CartLine(Find(catalog, x).value, 1));
    CountsAfterAppend(cart, ids, CartLine(Find(catalog, x).value, 1));
    ProductsAfterAppend(catalog, cart, CartLine(Find(catalog, x).value, 1));
  }

  /** After any sequence of clicks on an empty cart: the cart is valid (one line per id),
      its lines are the known clicked ids in first-click order, each line's quantity is the
      number of clicks on its id, and each line holds the catalog's product for that id. */
  lemma {:induction false} AddSequence(catalog: seq<Product>, ids: seq<int>)
    ensures Reflects(catalog, AddAll(catalog, [], ids), ids)
  {
    if |ids| > 0 {
      var p, x := ids[..|ids| - 1], ids[|ids| - 1];
      assert ids == p + [x];
      AddSequence(catalog, p);
      var c := AddAll(catalog, [], p);
      if Find(catalog, x).None? {
        AddStepUnknown(catalog, c, p, x);
      } else if x in LineIds(c) {
        AddStepExisting(catalog, c, p, x);
      } else {
        AddStepNew(catalog, c, p, x);
      }
    }
  }
}
