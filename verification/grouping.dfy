/** First-seen bucketing, the pattern `renderProductGrid` uses twice: walk the list once,
    and for each element append it to the bucket of its key, opening a new bucket (at the
    end) for a key not seen before. */
module Grouping {
  import opened Wrappers
  import opened Seqs

  datatype Bucket<K, T> = Bucket(key: K, items: seq<T>)

  function Keys<K, T>(bs: seq<Bucket<K, T>>): (r: seq<K>)
    ensures |r| == |bs|
    ensures forall i :: 0 <= i < |bs| ==> r[i] == bs[i].key
  {
    seq(|bs|, i requires 0 <= i < |bs| => bs[i].key)
  }

  /** The key of every element, position by position. */
  function KeysOf<K, T>(xs: seq<T>, key: T -> K): (r: seq<K>)
    ensures |r| == |xs|
    ensures forall i :: 0 <= i < |xs| ==> r[i] == key(xs[i])
  {
    seq(|xs|, i requires 0 <= i < |xs| => key(xs[i]))
  }

  /** The elements whose key is `k`, in their original order (`xs.filter(x => key(x) === k)`). */
  function Select<K(==), T>(xs: seq<T>, key: T -> K, k: K): (r: seq<T>)
    ensures |r| <= |xs|
    ensures forall i :: 0 <= i < |r| ==> key(r[i]) == k
  {
    if |xs| == 0 then []
    else
      var s := Select(xs[..|xs| - 1], key, k);
      if key(xs[|xs| - 1]) == k then s + [xs[|xs| - 1]] else s
  }

  /** `Select` keeps every element with key `k` exactly as often as it occurs, and nothing
      else. */
  lemma {:induction false} SelectCounts<K, T>(xs: seq<T>, key: T -> K, k: K, x: T)
    ensures Count(Select(xs, key, k), x) == if key(x) == k then Count(xs, x) else 0
  {
    if |xs| > 0 {
      var p, l := xs[..|xs| - 1], xs[|xs| - 1];
      assert xs == p + [l];
      SelectCounts(p, key, k, x);
      CountSnoc(p, l, x);
      CountSnoc(Select(p, key, k), l, x);
    }
  }

  lemma SelectSnoc<K, T>(xs: seq<T>, key: T -> K, k: K, x: T)
    ensures Select(xs + [x], key, k) == Select(xs, key, k) + (if key(x) == k then [x] else [])
  {
    assert (xs + [x])[..|xs|] == xs;
  }

  /** `Select` distributes over concatenation, so it keeps the original order. */
  lemma {:induction false} SelectConcat<K, T>(xs: seq<T>, ys: seq<T>, key: T -> K, k: K)
    ensures Select(xs + ys, key, k) == Select(xs, key, k) + Select(ys, key, k)
    decreases |ys|
  {
    if |ys| == 0 {
      assert xs + ys == xs;
    } else {
      var p, l := ys[..|ys| - 1], ys[|ys| - 1];
      assert ys == p + [l];
      assert xs + ys == (xs + p) + [l];
      SelectConcat(xs, p, key, k);
      SelectSnoc(xs + p, key, k, l);
      SelectSnoc(p, key, k, l);
    }
  }

  /** A key no element carries selects nothing. */
  lemma {:induction false} SelectAbsent<K, T>(xs: seq<T>, key: T -> K, k: K)
    requires k !in KeysOf(xs, key)
    ensures Select(xs, key, k) == []
  {
    if |xs| > 0 {
      var p := xs[..|xs| - 1];
      assert KeysOf(xs, key)[|xs| - 1] != k;
      assert forall i :: 0 <= i < |p| ==> KeysOf(p, key)[i] == KeysOf(xs, key)[i];
      SelectAbsent(p, key, k);
    }
  }

  /** When every element carries key `k`, `Select` keeps them all. */
  lemma {:induction false} SelectAll<K, T>(xs: seq<T>, key: T -> K, k: K)
    requires forall i :: 0 <= i < |xs| ==> key(xs[i]) == k
    ensures Select(xs, key, k) == xs
  {
    if |xs| > 0 {
      var p := xs[..|xs| - 1];
      SelectAll(p, key, k);
      assert xs == p + [xs[|xs| - 1]];
    }
  }

  /** One step of the loop: put `x` in the bucket of its key, or open a new last bucket. */
  function Place<K(==), T>(bs: seq<Bucket<K, T>>, x: T, key: T -> K): seq<Bucket<K, T>> {
    if key(x) in Keys(bs) then
      var i := FirstIndex(Keys(bs), key(x));
      bs[i := Bucket(key(x), bs[i].items + [x])]
    else
      bs + [Bucket(key(x), [x])]
  }

  /** `bs` is the bucketing of `xs`: its keys are the distinct keys of `xs` in first-seen
      order, and each bucket holds exactly the elements with its key, in original order. */
  ghost predicate Buckets<K, T>(bs: seq<Bucket<K, T>>, xs: seq<T>, key: T -> K) {
    && Keys(bs) == Dedup(KeysOf(xs, key))
    && forall j :: 0 <= j < |bs| ==> bs[j].items == Select(xs, key, bs[j].key)
  }

  lemma KeysUpdate<K, T>(bs: seq<Bucket<K, T>>, i: nat, b: Bucket<K, T>)
    requires i < |bs| && b.key == bs[i].key
    ensures Keys(bs[i := b]) == Keys(bs)
  {
    assert forall j :: 0 <= j < |bs| ==> Keys(bs[i := b])[j] == Keys(bs)[j];
  }

  lemma KeysSnoc<K, T>(bs: seq<Bucket<K, T>>, b: Bucket<K, T>)
    ensures Keys(bs + [b]) == Keys(bs) + [b.key]
  {
  }

  lemma PlaceExisting<K, T>(bs: seq<Bucket<K, T>>, xs: seq<T>, x: T, key: T -> K)
    requires Buckets(bs, xs, key)
    requires key(x) in Keys(bs)
    ensures Buckets(Place(bs, x, key), xs + [x], key)
  {
    var kx := key(x);
    var i := FirstIndex(Keys(bs), kx);
    var r := Place(bs, x, key);
    assert KeysOf(xs + [x], key) == KeysOf(xs, key) + [kx];
    assert Keys(bs)[i] == kx;
    assert kx in KeysOf(xs, key);
    DedupSnoc(KeysOf(xs, key), kx);
    assert Dedup(KeysOf(xs + [x], key)) == Keys(bs);
    var b := Bucket(kx, bs[i].items + [x]);
    assert r == bs[i := b];
    KeysUpdate(bs, i, b);
    forall j | 0 <= j < |r| ensures r[j].items == Select(xs + [x], key, r[j].key) {
      SelectSnoc(xs, key, r[j].key, x);
      if j != i {
        assert Keys(bs)[j] != Keys(bs)[i];
      }
    }
  }

  lemma PlaceNewKeys<K, T>(bs: seq<Bucket<K, T>>, xs: seq<T>, x: T, key: T -> K)
    requires Keys(bs) == Dedup(KeysOf(xs, key))
    requires key(x) !in Keys(bs)
    ensures Place(bs, x, key) == bs + [Bucket(key(x), [x])]
    ensures Keys(Place(bs, x, key)) == Dedup(KeysOf(xs + [x], key))
  {
    var kx := key(x);
    assert KeysOf(xs + [x], key) == KeysOf(xs, key) + [kx];
    assert kx !in KeysOf(xs, key);
    DedupSnoc(KeysOf(xs, key), kx);
    KeysSnoc(bs, Bucket(kx, [x]));
  }

  lemma PlaceNewItems<K, T>(bs: seq<Bucket<K, T>>, xs: seq<T>, x: T, key: T -> K)
    requires Buckets(bs, xs, key)
    requires key(x) !in Keys(bs)
    ensures var r := bs + [Bucket(key(x), [x])];
            forall j :: 0 <= j < |r| ==> r[j].items == Select(xs + [x], key, r[j].key)
  {
    var kx := key(x);
    var r := bs + [Bucket(kx, [x])];
    assert kx !in KeysOf(xs, key);
    SelectAbsent(xs, key, kx);
    SelectSnoc(xs, key, kx, x);
    forall j | 0 <= j < |r| ensures r[j].items == Select(xs + [x], key, r[j].key) {
      if j < |bs| {
        assert r[j] == bs[j];
        assert Keys(bs)[j] == bs[j].key;
        SelectSnoc(xs, key, bs[j].key, x);
      }
    }
  }

  lemma PlaceNew<K, T>(bs: seq<Bucket<K, T>>, xs: seq<T>, x: T, key: T -> K)
    requires Buckets(bs, xs, key)
    requires key(x) !in Keys(bs)
    ensures Buckets(Place(bs, x, key), xs + [x], key)
  {
    PlaceNewKeys(bs, xs, x, key);
    PlaceNewItems(bs, xs, x, key);
  }

  /** The buckets of `xs`, keyed by `key`, in first-seen order. */
  function Group<K(==), T>(xs: seq<T>, key: T -> K): (r: seq<Bucket<K, T>>)
    ensures Keys(r) == Dedup(KeysOf(xs, key))
    ensures forall j :: 0 <= j < |r| ==> r[j].items == Select(xs, key, r[j].key)
  {
    if |xs| == 0 then []
    else
      var p, x := xs[..|xs| - 1], xs[|xs| - 1];
      assert xs == p + [x];
      var g := Group(p, key);
      if key(x) in Keys(g) then
        PlaceExisting(g, p, x, key);
        Place(g, x, key)
      else
        PlaceNew(g, p, x, key);
        Place(g, x, key)
  }

  /** Every bucket is non-empty. */
  lemma GroupNonEmpty<K, T>(xs: seq<T>, key: T -> K, j: nat)
    requires j < |Group(xs, key)|
    ensures |Group(xs, key)[j].items| > 0
  {
    var g := Group(xs, key);
    var ks := KeysOf(xs, key);
    var k := g[j].key;
    assert Keys(g)[j] == k;
    assert k in ks;
    var i := FirstIndex(ks, k);
    SelectCounts(xs, key, k, xs[i]);
    assert Count(g[j].items, xs[i]) > 0;
  }

  lemma GroupAllNonEmpty<K, T>(xs: seq<T>, key: T -> K)
    ensures forall j :: 0 <= j < |Group(xs, key)| ==> |Group(xs, key)[j].items| > 0
  {
    forall j | 0 <= j < |Group(xs, key)| ensures |Group(xs, key)[j].items| > 0 {
      GroupNonEmpty(xs, key, j);
    }
  }

  /** Every input element sits in the bucket of its own key. */
  lemma GroupCovers<K, T>(xs: seq<T>, key: T -> K, i: nat)
    requires i < |xs|
    ensures key(xs[i]) in Keys(Group(xs, key))
    ensures xs[i] in Group(xs, key)[FirstIndex(Keys(Group(xs, key)), key(xs[i]))].items
  {
    var g := Group(xs, key);
    var ks := KeysOf(xs, key);
    assert ks[i] == key(xs[i]);
    var j := FirstIndex(Keys(g), ks[i]);
    SelectCounts(xs, key, ks[i], xs[i]);
    assert Count(g[j].items, xs[i]) > 0;
  }

  /** A bucket holds only input elements that carry its key. */
  lemma GroupMember<K, T>(xs: seq<T>, key: T -> K, j: nat, x: T)
    requires j < |Group(xs, key)|
    requires x in Group(xs, key)[j].items
    ensures x in xs && key(x) == Group(xs, key)[j].key
  {
    var g := Group(xs, key);
    SelectCounts(xs, key, g[j].key, x);
    assert Count(g[j].items, x) > 0;
  }

  /** The buckets partition the input: their keys are distinct, each is non-empty, every
      element sits in the bucket of its own key, and buckets hold nothing else. */
  lemma GroupPartition<K, T>(xs: seq<T>, key: T -> K)
    ensures Distinct(Keys(Group(xs, key)))
    ensures forall j :: 0 <= j < |Group(xs, key)| ==> |Group(xs, key)[j].items| > 0
    ensures forall i :: 0 <= i < |xs| ==>
              exists j :: 0 <= j < |Group(xs, key)| && Group(xs, key)[j].key == key(xs[i]) &&
                          xs[i] in Group(xs, key)[j].items
    ensures forall j, x :: 0 <= j < |Group(xs, key)| && x in Group(xs, key)[j].items ==>
              x in xs && key(x) == Group(xs, key)[j].key
  {
    var g := Group(xs, key);
    GroupAllNonEmpty(xs, key);
    forall i | 0 <= i < |xs|
      ensures exists j :: 0 <= j < |g| && g[j].key == key(xs[i]) && xs[i] in g[j].items
    {
      GroupCovers(xs, key, i);
      var j := FirstIndex(Keys(g), key(xs[i]));
      assert g[j].key == Keys(g)[j];
    }
    forall j, x | 0 <= j < |g| && x in g[j].items ensures x in xs && key(x) == g[j].key {
      GroupMember(xs, key, j, x);
    }
  }

  /** Property names every plain JavaScript object `{}` inherits from `Object.prototype`.
      Reading one of them from a fresh object yields a truthy function or object, never
      `undefined`. */
  const ObjectPrototypeNames: set<string> := {
    "constructor", "__proto__", "hasOwnProperty", "isPrototypeOf", "propertyIsEnumerable",
    "toLocaleString", "toString", "valueOf", "__defineGetter__", "__defineSetter__",
    "__lookupGetter__", "__lookupSetter__"}

  /** One step of `renderProductGrid`'s bucketing loop over a plain object:
      `if (!obj[k]) obj[k] = []; obj[k].push(x)`. An own bucket is extended; an inherited
      property is truthy, so no array is created and `.push` is not a function: the loop
      throws (`None`). */
  function PlaceInObject<T>(bs: seq<Bucket<string, T>>, x: T, key: T -> string): Option<seq<Bucket<string, T>>> {
    if key(x) in Keys(bs) then Some(Place(bs, x, key))
    else if key(x) in ObjectPrototypeNames then None
    else Some(Place(bs, x, key))
  }

  /** The bucketing `renderProductGrid` performs, with a plain `{}` as the dictionary. It
      throws only when some key is an inherited property name. */
  function GroupInObject<T>(xs: seq<T>, key: T -> string): (r: Option<seq<Bucket<string, T>>>)
    ensures r.None? ==> !OwnKeysOnly(xs, key)
  {
    if |xs| == 0 then Some([])
    else
      match GroupInObject(xs[..|xs| - 1], key)
      case None => None
      case Some(g) => PlaceInObject(g, xs[|xs| - 1], key)
  }

  /** One more element places it into the buckets of the prefix. */
  lemma GroupSnoc<K, T>(p: seq<T>, x: T, key: T -> K)
    ensures Group(p + [x], key) == Place(Group(p, key), x, key)
  {
    assert (p + [x])[..|p|] == p;
  }

  /** No element's key is an inherited property name. */
  predicate OwnKeysOnly<T>(xs: seq<T>, key: T -> string) {
    forall i :: 0 <= i < |xs| ==> key(xs[i]) !in ObjectPrototypeNames
  }

  /** The plain-object bucketing agrees with `Group` when no key is an inherited property
      name, and throws otherwise. */
  lemma {:induction false} GroupInObjectAgrees<T>(xs: seq<T>, key: T -> string)
    ensures GroupInObject(xs, key) == if OwnKeysOnly(xs, key) then Some(Group(xs, key)) else None
  {
    if |xs| > 0 {
      var p, x := xs[..|xs| - 1], xs[|xs| - 1];
      assert xs == p + [x];
      GroupInObjectAgrees(p, key);
      if !OwnKeysOnly(p, key) {
        var i :| 0 <= i < |p| && key(p[i]) in ObjectPrototypeNames;
        assert key(xs[i]) in ObjectPrototypeNames;
        assert GroupInObject(xs, key) == None;
      } else {
        GroupInObjectStep(p, x, key);
      }
    }
  }

  lemma OwnKeysSnoc<T>(p: seq<T>, x: T, key: T -> string)
    ensures OwnKeysOnly(p + [x], key) <==> OwnKeysOnly(p, key) && key(x) !in ObjectPrototypeNames
  {
    var xs := p + [x];
    assert xs[|p|] == x;
    assert forall j :: 0 <= j < |p| ==> xs[j] == p[j];
  }

  /** The inductive step when the prefix has only own keys. */
  lemma GroupInObjectStep<T>(p: seq<T>, x: T, key: T -> string)
    requires OwnKeysOnly(p, key)
    requires GroupInObject(p, key) == Some(Group(p, key))
    ensures GroupInObject(p + [x], key) == if OwnKeysOnly(p + [x], key) then Some(Group(p + [x], key)) else None
  {
    var xs := p + [x];
    assert xs[..|p|] == p;
    var g := Group(p, key);
    assert GroupInObject(xs, key) == PlaceInObject(g, x, key);
    GroupSnoc(p, x, key);
    OwnKeysSnoc(p, x, key);
    if key(x) in Keys(g) {
      assert key(x) in KeysOf(p, key);
      var i := FirstIndex(KeysOf(p, key), key(x));
      assert key(p[i]) == key(x);
    }
  }

  /** A product named "constructor" makes the plain-object bucketing throw. */
  lemma ConstructorNameThrows<T>(x: T, key: T -> string)
    requires key(x) == "constructor"
    ensures GroupInObject([x], key) == None
  {
    assert [x][..0] == [];
    assert Keys<string, T>([]) == [];
  }
}
