/** The POS product grid: the category sidebar, the category filter, the subcategory
    sections, and one card per product name whose variants are merged. */
module Grid {
  import opened Wrappers
  import opened Seqs
  import opened Products
  import opened Grouping
  import opened Cart

  /** The sidebar entry and filter value that stands for "no filter". */
  const AllCategories := "All"
  /** The section a product without a subcategory falls into. */
  const Uncategorised := "Khác"
  /** The option label of a variant with no variant text. */
  const StandardVariant := "Tiêu chuẩn"

  function CategoryOf(p: Product): Option<string> { p.category }
  function NameOf(p: Product): string { p.name }

  /** The section a product is drawn in: its subcategory, or `Uncategorised` when the
      subcategory is missing or empty. */
  function SubKey(p: Product): (k: string)
    ensures Truthy(p.subcategory) ==> k == p.subcategory.value
    ensures !Truthy(p.subcategory) ==> k == Uncategorised
  {
    if Truthy(p.subcategory) then p.subcategory.value else Uncategorised
  }

  /** `products.map(p => p.category).filter(Boolean)`. */
  function CategoryValues(products: seq<Product>): (r: seq<string>)
    ensures forall i :: 0 <= i < |r| ==> r[i] != "" && Some(r[i]) in KeysOf(products, CategoryOf)
    ensures forall j :: 0 <= j < |products| && Truthy(products[j].category) ==> products[j].category.value in r
  {
    if |products| == 0 then []
    else
      var p := products[..|products| - 1];
      var rest := CategoryValues(p);
      assert forall j :: 0 <= j < |p| ==> KeysOf(p, CategoryOf)[j] == KeysOf(products, CategoryOf)[j];
      assert KeysOf(products, CategoryOf)[|p|] == products[|p|].category;
      if Truthy(products[|p|].category) then rest + [products[|p|].category.value] else rest
  }

  /** The sidebar: "All", then each distinct non-empty category, once. */
  function Categories(products: seq<Product>): (r: seq<string>)
    ensures |r| >= 1 && r[0] == AllCategories
    ensures Distinct(r[1..])
    ensures forall i :: 1 <= i < |r| ==> r[i] != "" && Some(r[i]) in KeysOf(products, CategoryOf)
    ensures forall j :: 0 <= j < |products| && Truthy(products[j].category) ==> products[j].category.value in r[1..]
  {
    var d := Dedup(CategoryValues(products));
    assert ([AllCategories] + d)[1..] == d;
    [AllCategories] + d
  }

  /** A non-empty category is among the filtered values exactly when some product has it. */
  lemma CategoryValuesMember(products: seq<Product>, c: string)
    requires c != ""
    ensures c in CategoryValues(products) <==> Some(c) in KeysOf(products, CategoryOf)
  {
    if Some(c) in KeysOf(products, CategoryOf) {
      var j :| 0 <= j < |products| && KeysOf(products, CategoryOf)[j] == Some(c);
      assert Truthy(products[j].category);
    }
  }

  /** Filtering out the falsy categories keeps the order of first appearance: two
      categories come first in the filtered values in the same order as their first
      products do in the catalog. */
  lemma {:induction false} CategoryOrder(products: seq<Product>, c: string, d: string)
    requires c in CategoryValues(products) && d in CategoryValues(products)
    ensures Some(c) in KeysOf(products, CategoryOf) && Some(d) in KeysOf(products, CategoryOf)
    ensures FirstIndex(CategoryValues(products), c) < FirstIndex(CategoryValues(products), d) <==>
            FirstIndex(KeysOf(products, CategoryOf), Some(c)) < FirstIndex(KeysOf(products, CategoryOf), Some(d))
  {
    var p, x := products[..|products| - 1], products[|products| - 1];
    assert products == p + [x];
    CategorySnoc(p, x);
    var cv, kp := CategoryValues(p), KeysOf(p, CategoryOf);
    CategoryValuesMember(p, c);
    CategoryValuesMember(p, d);
    CategoryValuesMember(products, c);
    CategoryValuesMember(products, d);
    FirstIndexSnoc(kp, x.category, Some(c));
    FirstIndexSnoc(kp, x.category, Some(d));
    if Truthy(x.category) {
      FirstIndexSnoc(cv, x.category.value, c);
      FirstIndexSnoc(cv, x.category.value, d);
    }
    if c in cv && d in cv {
      CategoryOrder(p, c, d);
    }
  }

  /** One more product extends the category keys by its category, and the filtered values
      by that category when it is non-empty. */
  lemma CategorySnoc(p: seq<Product>, x: Product)
    ensures KeysOf(p + [x], CategoryOf) == KeysOf(p, CategoryOf) + [x.category]
    ensures CategoryValues(p + [x]) ==
            CategoryValues(p) + (if Truthy(x.category) then [x.category.value] else [])
  {
    assert (p + [x])[..|p|] == p;
  }

  /** The sidebar lists categories in the order in which products first show them: for two
      sidebar entries, the first product carrying the earlier one comes before the first
      product carrying the later one. */
  lemma CategoriesFirstSeen(products: seq<Product>)
    ensures forall i, j :: 1 <= i < j < |Categories(products)| ==>
              FirstIndex(CategoryValues(products), Categories(products)[i]) <
              FirstIndex(CategoryValues(products), Categories(products)[j])
    ensures forall i, j :: 1 <= i < j < |Categories(products)| ==>
              Some(Categories(products)[i]) in KeysOf(products, CategoryOf) &&
              Some(Categories(products)[j]) in KeysOf(products, CategoryOf) &&
              FirstIndex(KeysOf(products, CategoryOf), Some(Categories(products)[i])) <
              FirstIndex(KeysOf(products, CategoryOf), Some(Categories(products)[j]))
  {
    var r := Categories(products);
    var d := Dedup(CategoryValues(products));
    DedupFirstSeen(CategoryValues(products));
    assert forall i :: 1 <= i < |r| ==> r[i] == d[i - 1];
    forall i, j | 1 <= i < j < |r|
      ensures Some(r[i]) in KeysOf(products, CategoryOf) && Some(r[j]) in KeysOf(products, CategoryOf)
      ensures FirstIndex(KeysOf(products, CategoryOf), Some(r[i])) <
              FirstIndex(KeysOf(products, CategoryOf), Some(r[j]))
    {
      CategoryOrder(products, r[i], r[j]);
    }
  }

  /** The products the grid shows for a sidebar choice: all of them for "All", otherwise
      those whose category is exactly `filter`, in catalog order. */
  function FilterByCategory(products: seq<Product>, filter: string): (r: seq<Product>)
    ensures filter == AllCategories ==> r == products
    ensures filter != AllCategories ==> forall i :: 0 <= i < |r| ==> r[i].category == Some(filter)
    ensures filter != AllCategories ==> forall j :: 0 <= j < |products| && products[j].category == Some(filter) ==>
              Count(r, products[j]) == Count(products, products[j])
  {
    if filter == AllCategories then products
    else
      var r := Select(products, CategoryOf, Some(filter));
      assert forall j :: 0 <= j < |products| && products[j].category == Some(filter) ==>
               Count(r, products[j]) == Count(products, products[j]) by {
        forall j | 0 <= j < |products| && products[j].category == Some(filter)
          ensures Count(r, products[j]) == Count(products, products[j])
        {
          SelectCounts(products, CategoryOf, Some(filter), products[j]);
        }
      }
      r
  }

  /** The filter keeps catalog order: it distributes over concatenation, and keeps a
      single product exactly when the choice is "All" or the product has that category. */
  lemma FilterInOrder(a: seq<Product>, b: seq<Product>, filter: string, x: Product)
    ensures FilterByCategory(a + b, filter) == FilterByCategory(a, filter) + FilterByCategory(b, filter)
    ensures FilterByCategory([x], filter) ==
            if filter == AllCategories || x.category == Some(filter) then [x] else []
  {
    if filter != AllCategories {
      SelectConcat(a, b, CategoryOf, Some(filter));
      assert [x][..0] == [];
    }
  }

  /** Every product the filter keeps comes from the catalog. */
  lemma FilterMember(products: seq<Product>, filter: string, x: Product)
    requires x in FilterByCategory(products, filter)
    ensures x in products
  {
    if filter != AllCategories {
      SelectCounts(products, CategoryOf, Some(filter), x);
      assert Count(FilterByCategory(products, filter), x) > 0;
    }
  }

  /** One grid card: a product name, its variants, the price shown and the "+" flag. */
  datatype Card = Card(name: string, variants: seq<Product>, price: int, plus: bool)

  /** One grid section: a subcategory, whether its header is drawn, and its cards. */
  datatype Section = Section(subcategory: string, showHeader: bool, cards: seq<Card>)

  /** `Math.min(...variants.map(v => v.price))`. */
  function MinPrice(vs: seq<Product>): (m: int)
    requires |vs| > 0
    ensures forall i :: 0 <= i < |vs| ==> m <= vs[i].price
    ensures exists i :: 0 <= i < |vs| && m == vs[i].price
  {
    if |vs| == 1 then vs[0].price
    else
      var m := MinPrice(vs[..|vs| - 1]);
      assert forall i :: 0 <= i < |vs| - 1 ==> vs[..|vs| - 1][i] == vs[i];
      if vs[|vs| - 1].price < m then vs[|vs| - 1].price else m
  }

  /** The card for the variants sharing one name: it shows the cheapest variant's price and
      is flagged "+" exactly when there is more than one variant. */
  function MakeCard(b: Bucket<string, Product>): (c: Card)
    requires |b.items| > 0
    ensures c.name == b.key && c.variants == b.items
    ensures c.plus <==> |c.variants| > 1
    ensures c.price == MinPrice(c.variants)
  {
    Card(b.key, b.items, MinPrice(b.items), |b.items| > 1)
  }

  function CardNames(cards: seq<Card>): (r: seq<string>)
    ensures |r| == |cards|
    ensures forall i :: 0 <= i < |cards| ==> r[i] == cards[i].name
  {
    seq(|cards|, i requires 0 <= i < |cards| => cards[i].name)
  }

  /** The cards of one section: one per distinct name in first-seen order, each holding
      exactly the products of that name in their original order. */
  function Cards(products: seq<Product>): (r: seq<Card>)
    ensures CardNames(r) == Dedup(KeysOf(products, NameOf))
    ensures forall j :: 0 <= j < |r| ==> r[j].variants == Select(products, NameOf, r[j].name)
    ensures forall j :: 0 <= j < |r| ==> |r[j].variants| > 0
    ensures forall j :: 0 <= j < |r| ==> (r[j].plus <==> |r[j].variants| > 1)
    ensures forall j :: 0 <= j < |r| ==> r[j].price == MinPrice(r[j].variants)
  {
    var g := Group(products, NameOf);
    GroupAllNonEmpty(products, NameOf);
    var r := seq(|g|, i requires 0 <= i < |g| => MakeCard(g[i]));
    assert CardNames(r) == Keys(g);
    r
  }

  function Subcategories(sections: seq<Section>): (r: seq<string>)
    ensures |r| == |sections|
    ensures forall i :: 0 <= i < |sections| ==> r[i] == sections[i].subcategory
  {
    seq(|sections|, i requires 0 <= i < |sections| => sections[i].subcategory)
  }

  /** `renderProductGrid(filter)`: filter, bucket by subcategory, then build the cards of
      each bucket. A section's header is hidden exactly when it is the only section and it
      is the uncategorised one. */
  function ProductGrid(products: seq<Product>, filter: string): (r: seq<Section>)
    ensures Subcategories(r) == Dedup(KeysOf(FilterByCategory(products, filter), SubKey))
    ensures forall i :: 0 <= i < |r| ==>
              r[i].cards == Cards(Select(FilterByCategory(products, filter), SubKey, r[i].subcategory))
    ensures forall i :: 0 <= i < |r| ==>
              (!r[i].showHeader <==> |r| == 1 && r[i].subcategory == Uncategorised)
  {
    Sections(Group(FilterByCategory(products, filter), SubKey))
  }

  /** One section per bucket, keeping the bucket's key and building its cards. */
  function Sections(g: seq<Bucket<string, Product>>): (r: seq<Section>)
    ensures |r| == |g| && Subcategories(r) == Keys(g)
    ensures forall i :: 0 <= i < |g| ==>
              r[i] == Section(g[i].key, |g| > 1 || g[i].key != Uncategorised, Cards(g[i].items))
  {
    var r := seq(|g|, i requires 0 <= i < |g| =>
                   Section(g[i].key, |g| > 1 || g[i].key != Uncategorised, Cards(g[i].items)));
    assert Subcategories(r) == Keys(g);
    r
  }

  /** Every product the filter keeps is shown on the card named after it in the section of
      its subcategory; `ProductOnOneCard` shows it is on no other card. */
  lemma GridShowsEachProduct(products: seq<Product>, filter: string, x: Product)
    requires x in FilterByCategory(products, filter)
    ensures SubKey(x) in Subcategories(ProductGrid(products, filter))
    ensures var r := ProductGrid(products, filter);
            var i := FirstIndex(Subcategories(r), SubKey(x));
            && x.name in CardNames(r[i].cards)
            && x in r[i].cards[FirstIndex(CardNames(r[i].cards), x.name)].variants
  {
    var shown := FilterByCategory(products, filter);
    var sub := Select(shown, SubKey, SubKey(x));
    SectionOf(products, filter, x);
    SelectCounts(shown, SubKey, SubKey(x), x);
    assert Count(sub, x) > 0;
    CardOf(sub, x);
  }

  /** The section of a shown product's subcategory exists and holds the cards of that
      subcategory's products. */
  lemma SectionOf(products: seq<Product>, filter: string, x: Product)
    requires x in FilterByCategory(products, filter)
    ensures var r := ProductGrid(products, filter);
            && SubKey(x) in Subcategories(r)
            && r[FirstIndex(Subcategories(r), SubKey(x))].cards ==
               Cards(Select(FilterByCategory(products, filter), SubKey, SubKey(x)))
  {
    var shown := FilterByCategory(products, filter);
    var r := ProductGrid(products, filter);
    var k := FirstIndex(shown, x);
    assert KeysOf(shown, SubKey)[k] == SubKey(x);
    var i := FirstIndex(Subcategories(r), SubKey(x));
    assert r[i].subcategory == SubKey(x);
  }

  /** A product among a section's products sits on the card named after it. */
  lemma CardOf(ps: seq<Product>, x: Product)
    requires x in ps
    ensures x.name in CardNames(Cards(ps))
    ensures x in Cards(ps)[FirstIndex(CardNames(Cards(ps)), x.name)].variants
  {
    var cards := Cards(ps);
    var m := FirstIndex(ps, x);
    assert KeysOf(ps, NameOf)[m] == x.name;
    var j := FirstIndex(CardNames(cards), x.name);
    assert cards[j].name == x.name;
    SelectCounts(ps, NameOf, x.name, x);
  }

  /** A card's variants all come from the filtered catalog and share its section's
      subcategory and its name. */
  lemma CardVariantsBelong(products: seq<Product>, filter: string, i: nat, j: nat, v: Product)
    requires i < |ProductGrid(products, filter)|
    requires j < |ProductGrid(products, filter)[i].cards|
    requires v in ProductGrid(products, filter)[i].cards[j].variants
    ensures v in FilterByCategory(products, filter) && v in products
    ensures SubKey(v) == ProductGrid(products, filter)[i].subcategory
    ensures v.name == ProductGrid(products, filter)[i].cards[j].name
  {
    var shown := FilterByCategory(products, filter);
    var s := ProductGrid(products, filter)[i];
    var sub := Select(shown, SubKey, s.subcategory);
    var c := s.cards[j];
    SelectCounts(sub, NameOf, c.name, v);
    assert Count(c.variants, v) > 0;
    SelectCounts(shown, SubKey, s.subcategory, v);
    assert Count(shown, v) > 0;
    FilterMember(products, filter, v);
  }

  /** A product is on one card only: any card holding it is the card named after it in the
      section of its subcategory. */
  lemma ProductOnOneCard(products: seq<Product>, filter: string, i: nat, j: nat, x: Product)
    requires i < |ProductGrid(products, filter)|
    requires j < |ProductGrid(products, filter)[i].cards|
    requires x in ProductGrid(products, filter)[i].cards[j].variants
    ensures var r := ProductGrid(products, filter);
            && SubKey(x) in Subcategories(r) && i == FirstIndex(Subcategories(r), SubKey(x))
            && x.name in CardNames(r[i].cards) && j == FirstIndex(CardNames(r[i].cards), x.name)
  {
    var r := ProductGrid(products, filter);
    CardVariantsBelong(products, filter, i, j, x);
    assert Subcategories(r)[i] == SubKey(x);
    FirstIndexDistinct(Subcategories(r), i);
    assert CardNames(r[i].cards)[j] == x.name;
    FirstIndexDistinct(CardNames(r[i].cards), j);
  }

  /** An option of the variant prompt. */
  datatype VariantOption = VariantOption(caption: string, product: Product)

  /** What clicking a card does: add its only variant directly, or open the prompt. */
  datatype ClickOutcome = Added(cart: seq<CartLine>) | ChooseVariant(options: seq<VariantOption>)

  /** The prompt's label for a variant: its variant text, or `StandardVariant`. */
  function VariantLabel(p: Product): (s: string)
    ensures Truthy(p.variant) ==> s == p.variant.value
    ensures !Truthy(p.variant) ==> s == StandardVariant
  {
    if Truthy(p.variant) then p.variant.value else StandardVariant
  }

  /** `handleProductClick(name, variants)`. Choosing an option of the prompt is
      `AddToCart` with that option's product id. */
  function HandleProductClick(catalog: seq<Product>, cart: seq<CartLine>, card: Card): (r: ClickOutcome)
    ensures |card.variants| == 1 <==> r.Added?
    ensures |card.variants| == 1 ==> r.cart == AddToCart(catalog, cart, card.variants[0].id)
    ensures r.ChooseVariant? ==> |r.options| == |card.variants|
    ensures r.ChooseVariant? ==> forall i :: 0 <= i < |r.options| ==>
              r.options[i] == VariantOption(VariantLabel(card.variants[i]), card.variants[i])
  {
    if |card.variants| == 1 then Added(AddToCart(catalog, cart, card.variants[0].id))
    else ChooseVariant(seq(|card.variants|, i requires 0 <= i < |card.variants| =>
                           VariantOption(VariantLabel(card.variants[i]), card.variants[i])))
  }

  /** Clicking a single-variant card of the grid puts a line for that very product in the
      cart. */
  lemma SingleVariantClickAdds(catalog: seq<Product>, cart: seq<CartLine>, filter: string, i: nat, j: nat)
    requires UniqueIds(catalog)
    requires i < |ProductGrid(catalog, filter)|
    requires j < |ProductGrid(catalog, filter)[i].cards|
    requires |ProductGrid(catalog, filter)[i].cards[j].variants| == 1
    ensures var card := ProductGrid(catalog, filter)[i].cards[j];
            var r := HandleProductClick(catalog, cart, card);
            && r.Added?
            && Find(catalog, card.variants[0].id) == Some(card.variants[0])
            && card.variants[0].id in LineIds(r.cart)
  {
    var card := ProductGrid(catalog, filter)[i].cards[j];
    var v := card.variants[0];
    CardVariantsBelong(catalog, filter, i, j, v);
    var k :| 0 <= k < |catalog| && catalog[k] == v;
    FindUnique(catalog, k);
    AddedIdPresent(catalog, cart, v.id);
  }
}
