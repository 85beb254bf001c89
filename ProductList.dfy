/**
 * The product list page: the search-and-category filter over the fetched products, the
 * category choices offered by the filter, and the owner test that shows edit and delete
 * buttons.
 */
module ProductList {
  import opened Wrappers
  import opened Text
  import Products

  /** A product as the page receives it: `user` is the populated owner's `_id`, or None for `null`. */
  datatype Item = Item(name: string, description: string, category: string, user: Option<Products.Id>)

  /** The list page's view of a stored product whose owner still exists. */
  function Shown(p: Products.Product): (it: Item)
    ensures it.user == Some(p.owner)
  {
    Item(p.name, p.description, p.category, Some(p.owner))
  }

  /** The lower-cased name or the lower-cased description contains the lower-cased term. */
  predicate MatchesSearch(it: Item, term: string) {
    Contains(Lower(it.name), Lower(term)) || Contains(Lower(it.description), Lower(term))
  }

  /** No category chosen, or exactly the chosen one. */
  predicate MatchesCategory(it: Item, category: string) {
    category == [] || it.category == category
  }

  /**
   * The filter's test: the lower-cased term occurs somewhere in the lower-cased name or
   * description, and the category is the chosen one or none is chosen.
   */
  predicate Keep(it: Item, term: string, category: string)
    ensures Keep(it, term, category) <==>
      && ((exists i :: OccursAt(Lower(it.name), Lower(term), i))
          || (exists i :: OccursAt(Lower(it.description), Lower(term), i)))
      && (category == [] || it.category == category)
  {
    ContainsIff(Lower(it.name), Lower(term));
    ContainsIff(Lower(it.description), Lower(term));
    MatchesSearch(it, term) && MatchesCategory(it, category)
  }

  /** `filteredProducts`. */
  function Filter(items: seq<Item>, term: string, category: string): (r: seq<Item>)
    ensures |r| <= |items|
    ensures forall it :: it in r <==> it in items && Keep(it, term, category)
    ensures forall it :: multiset(r)[it] == if Keep(it, term, category) then multiset(items)[it] else 0
  {
    if items == [] then []
    else
      assert items == [items[0]] + items[1..];
      (if Keep(items[0], term, category) then [items[0]] else []) + Filter(items[1..], term, category)
  }

  /** `xs` is `ys` with some elements dropped, the rest in their order. */
  predicate Subsequence<T(==)>(xs: seq<T>, ys: seq<T>)
    decreases |ys|
  {
    xs == [] || (ys != [] && ((xs[0] == ys[0] && Subsequence(xs[1..], ys[1..])) || Subsequence(xs, ys[1..])))
  }

  /** Filtering keeps the relative order of the products it keeps. */
  lemma {:induction false} FilterSubsequence(items: seq<Item>, term: string, category: string)
    ensures Subsequence(Filter(items, term, category), items)
  {
    if items != [] {
      FilterSubsequence(items[1..], term, category);
      var rest := Filter(items[1..], term, category);
      if Keep(items[0], term, category) {
        assert Filter(items, term, category) == [items[0]] + rest;
        assert ([items[0]] + rest)[1..] == rest;
      } else {
        assert Filter(items, term, category) == rest;
      }
    }
  }

  /** Filtering an already filtered list changes nothing. */
  lemma {:induction false} FilterIdempotent(items: seq<Item>, term: string, category: string)
    ensures Filter(Filter(items, term, category), term, category) == Filter(items, term, category)
  {
    if items != [] {
      FilterIdempotent(items[1..], term, category);
      var rest := Filter(items[1..], term, category);
      if Keep(items[0], term, category) {
        var r := [items[0]] + rest;
        assert Filter(items, term, category) == r;
        assert r[0] == items[0] && r[1..] == rest;
        assert Filter(r, term, category) == [r[0]] + Filter(r[1..], term, category);
        assert Filter(r, term, category) == r;
      } else {
        assert Filter(items, term, category) == rest;
      }
    }
  }

  /** With an empty search box and no category, the page shows every product. */
  lemma {:induction false} FilterNoCriteria(items: seq<Item>)
    ensures Filter(items, "", "") == items
  {
    if items != [] {
      FilterNoCriteria(items[1..]);
      assert Lower("") == "";
      assert IsPrefix("", Lower(items[0].name));
      assert Keep(items[0], "", "");
      assert items == [items[0]] + items[1..];
    }
  }

  /** Typing the search term in capitals keeps the same products. */
  lemma SearchIgnoresCase(it: Item, term: string, category: string)
    ensures Keep(it, Upper(term), category) <==> Keep(it, term, category)
  {
    LowerOfUpper(term);
  }

  /** A name or description in capitals matches the same terms. */
  lemma SearchIgnoresItemCase(it: Item, term: string, category: string)
    ensures Keep(it.(name := Upper(it.name), description := Upper(it.description)), term, category)
        <==> Keep(it, term, category)
  {
    LowerOfUpper(it.name);
    LowerOfUpper(it.description);
  }

  /** A chosen category is compared exactly: a product whose category differs, even only in case, is dropped. */
  lemma CategoryIsExact(it: Item, term: string, category: string)
    requires category != [] && it.category != category
    ensures !Keep(it, term, category)
  {
  }

  /** `new Set(xs)` spread back into an array: each value once, at its first appearance. */
  function Distinct(xs: seq<string>): (r: seq<string>)
    ensures forall c :: c in r <==> c in xs
    ensures forall i, j :: 0 <= i < j < |r| ==> r[i] != r[j]
    decreases |xs|
  {
    if xs == [] then []
    else
      var d := Distinct(xs[..|xs| - 1]);
      var c := xs[|xs| - 1];
      assert xs == xs[..|xs| - 1] + [c];
      if c in d then d else d + [c]
  }

  /** The position of the first occurrence of `c` in `xs`. */
  function FirstIndex(xs: seq<string>, c: string): (k: nat)
    requires c in xs
    ensures k < |xs| && xs[k] == c
    ensures forall i :: 0 <= i < k ==> xs[i] != c
  {
    if xs[0] == c then 0 else 1 + FirstIndex(xs[1..], c)
  }

  /** Extending a sequence does not move first occurrences already in it. */
  lemma FirstIndexOfPrefix(xs: seq<string>, c: string)
    requires xs != [] && c in xs[..|xs| - 1]
    ensures FirstIndex(xs, c) == FirstIndex(xs[..|xs| - 1], c)
  {
    var k := FirstIndex(xs[..|xs| - 1], c);
    var m := FirstIndex(xs, c);
    assert xs[k] == c;
  }

  /** The categories come in the order in which they first appear. */
  lemma {:induction false} DistinctKeepsFirstOrder(xs: seq<string>)
    ensures forall i, j :: 0 <= i < j < |Distinct(xs)| ==>
      FirstIndex(xs, Distinct(xs)[i]) < FirstIndex(xs, Distinct(xs)[j])
    decreases |xs|
  {
    if xs != [] {
      var pre := xs[..|xs| - 1];
      var d := Distinct(pre);
      var c := xs[|xs| - 1];
      DistinctKeepsFirstOrder(pre);
      forall e | e in d
        ensures FirstIndex(xs, e) == FirstIndex(pre, e) < |pre|
      {
        FirstIndexOfPrefix(xs, e);
      }
      if c !in d {
        assert c !in pre;
        assert FirstIndex(xs, c) == |pre|;
        var r := d + [c];
        assert Distinct(xs) == r;
        forall i, j | 0 <= i < j < |r|
          ensures FirstIndex(xs, r[i]) < FirstIndex(xs, r[j])
        {
          assert r[i] == d[i];
          if j < |d| {
            assert r[j] == d[j];
          }
        }
      }
    }
  }

  /** `products.map(product => product.category)`. */
  function CategoryOf(items: seq<Item>): (r: seq<string>)
    ensures |r| == |items|
    ensures forall i :: 0 <= i < |items| ==> r[i] == items[i].category
  {
    seq(|items|, i requires 0 <= i < |items| => items[i].category)
  }

  /** `categories`: every product's category, once each. */
  function Categories(items: seq<Item>): (r: seq<string>)
    ensures forall c :: c in r <==> exists it :: it in items && it.category == c
    ensures forall i, j :: 0 <= i < j < |r| ==> r[i] != r[j]
  {
    var cs := CategoryOf(items);
    assert forall c :: c in cs <==> exists it :: it in items && it.category == c by {
      forall c | c in cs
        ensures exists it :: it in items && it.category == c
      {
        var i :| 0 <= i < |cs| && cs[i] == c;
        assert items[i] in items;
      }
      forall it | it in items
        ensures it.category in cs
      {
        var i :| 0 <= i < |items| && items[i] == it;
        assert cs[i] == it.category;
      }
    }
    Distinct(cs)
  }

  /** `isProductOwner`. */
  predicate IsProductOwner(showMyProducts: bool, currentUser: Option<Products.Id>, it: Item)
    ensures showMyProducts ==> IsProductOwner(showMyProducts, currentUser, it)
    ensures !showMyProducts ==>
      (IsProductOwner(showMyProducts, currentUser, it) <==> currentUser.Some? && it.user == currentUser)
  {
    showMyProducts || (currentUser.Some? && it.user.Some? && it.user.value == currentUser.value)
  }

  /**
   * The shortcut taken while "my products" is on agrees with the id comparison: every
   * product the backend lists for that view belongs to the signed-in user.
   */
  lemma OwnerShortcutAgrees(ps: seq<Products.Product>, requester: Products.Id, p: Products.Product)
    requires var r := Products.List(ps, requester, Some("true"), None); r.Ok? && p in r.value
    ensures IsProductOwner(true, Some(requester), Shown(p)) == IsProductOwner(false, Some(requester), Shown(p))
  {
    Products.ListMine(ps, requester);
  }

  /** Without the shortcut, nobody owns a product whose owner is gone, and a signed-out page owns nothing. */
  lemma OwnerNeedsBothIds(currentUser: Option<Products.Id>, it: Item)
    requires currentUser.None? || it.user.None?
    ensures !IsProductOwner(false, currentUser, it)
  {
  }
}
