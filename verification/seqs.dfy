/** Sequence helpers shared by the cart, the grid and the server model. Every definition
    that folds a loop's accumulator peels the LAST element, mirroring a left-to-right
    `forEach` / `for` loop that extends it one element at a time; searches that stop at
    the first match (`FirstIndex`) peel the first. */
module Seqs {

  /** No element occurs twice. */
  predicate Distinct<T(==)>(s: seq<T>) {
    forall i, j :: 0 <= i < j < |s| ==> s[i] != s[j]
  }

  /** Position of the first occurrence of `x` (what `Array.prototype.find` stops at). */
  function FirstIndex<T(==)>(s: seq<T>, x: T): (i: nat)
    requires x in s
    ensures i < |s| && s[i] == x
    ensures x !in s[..i]
  {
    if s[0] == x then 0
    else
      assert x in s[1..];
      var k := FirstIndex(s[1..], x);
      assert s[1..][..k] == s[1..k + 1];
      1 + k
  }

  /** In a sequence without repeats, an element's first occurrence is its position. */
  lemma FirstIndexDistinct<T>(s: seq<T>, i: nat)
    requires Distinct(s) && i < |s|
    ensures FirstIndex(s, s[i]) == i
  {
  }

  /** Past a non-matching head, the first occurrence is one further than in the tail. */
  lemma FirstIndexTail<T>(s: seq<T>, x: T)
    requires x in s && s[0] != x
    ensures x in s[1..] && FirstIndex(s, x) == 1 + FirstIndex(s[1..], x)
  {
  }

  /** Number of occurrences of `x` in `s`. */
  function Count<T(==)>(s: seq<T>, x: T): (n: nat)
    ensures n <= |s|
    ensures n == 0 <==> x !in s
  {
    if |s| == 0 then 0
    else
      assert s == s[..|s| - 1] + [s[|s| - 1]];
      Count(s[..|s| - 1], x) + (if s[|s| - 1] == x then 1 else 0)
  }

  /** The distinct elements of `s` in first-seen order, as `[...new Set(s)]` yields them. */
  function Dedup<T(==)>(s: seq<T>): (r: seq<T>)
    ensures forall i :: 0 <= i < |r| ==> r[i] in s
    ensures forall i :: 0 <= i < |s| ==> s[i] in r
    ensures Distinct(r)
    ensures |r| <= |s|
  {
    if |s| == 0 then []
    else
      var d := Dedup(s[..|s| - 1]);
      assert s == s[..|s| - 1] + [s[|s| - 1]];
      if s[|s| - 1] in d then d else d + [s[|s| - 1]]
  }

  /** Appending an element does not move the first occurrence of an element already present. */
  lemma FirstIndexExtend<T>(p: seq<T>, l: T, x: T)
    requires x in p
    ensures FirstIndex(p + [l], x) == FirstIndex(p, x)
  {
    var s := p + [l];
    var i := FirstIndex(s, x);
    var k := FirstIndex(p, x);
    assert s[k] == x;
  }

  /** The first occurrence in a sequence extended by one element: unchanged when the
      prefix has it, otherwise the new last position. */
  lemma FirstIndexSnoc<T>(p: seq<T>, l: T, x: T)
    requires x in p + [l]
    ensures FirstIndex(p + [l], x) == if x in p then FirstIndex(p, x) else |p|
  {
    if x in p {
      FirstIndexExtend(p, l, x);
    } else {
      assert (p + [l])[..|p|] == p;
    }
  }

  /** `Dedup` keeps the order in which elements are first seen. */
  lemma {:induction false} DedupFirstSeen<T>(s: seq<T>)
    ensures forall i, j :: 0 <= i < j < |Dedup(s)| ==>
              FirstIndex(s, Dedup(s)[i]) < FirstIndex(s, Dedup(s)[j])
  {
    if |s| > 0 {
      var p, l := s[..|s| - 1], s[|s| - 1];
      assert s == p + [l];
      var d := Dedup(p);
      DedupFirstSeen(p);
      forall x | x in p ensures FirstIndex(s, x) == FirstIndex(p, x) {
        FirstIndexExtend(p, l, x);
      }
      if l !in d {
        assert l !in p;
      }
    }
  }

  /** Appending an element that is already present changes nothing; appending a new one
      puts it last. */
  lemma DedupSnoc<T>(s: seq<T>, x: T)
    ensures Dedup(s + [x]) == if x in s then Dedup(s) else Dedup(s) + [x]
  {
    assert (s + [x])[..|s|] == s;
  }

  lemma CountSnoc<T>(s: seq<T>, y: T, x: T)
    ensures Count(s + [y], x) == Count(s, x) + (if y == x then 1 else 0)
  {
    assert (s + [y])[..|s|] == s;
  }

  /** Deleting one position keeps a sequence free of duplicates. */
  lemma DistinctRemove<T>(s: seq<T>, k: nat)
    requires Distinct(s)
    requires k < |s|
    ensures Distinct(s[..k] + s[k + 1..])
  {
    var r := s[..k] + s[k + 1..];
    forall i, j | 0 <= i < j < |r| ensures r[i] != r[j] {
      var i' := if i < k then i else i + 1;
      var j' := if j < k then j else j + 1;
      assert r[i] == s[i'] && r[j] == s[j'];
    }
  }
}
