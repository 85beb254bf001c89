/**
 * The product routes of the backend: a collection of products in which every request
 * comes from an already-authenticated user and is scoped by ownership.
 * Listing and reading one product are queries; create, update and delete change the
 * collection held by `ProductStore`.
 */
module Products {
  import opened Wrappers

  /** A document id or a user id. */
  type Id = string

  datatype Product = Product(
    id: Id,
    name: string,
    description: string,
    price: string,
    quantity: string,
    category: string,
    image: string,
    owner: Id,
    createdAt: int)

  /** The multipart form fields of a create or update request; "" is an absent field. */
  datatype Form = Form(name: string, description: string, price: string, quantity: string, category: string)

  /** An HTTP answer: a status with a body, or a failure status with its `message`. */
  datatype Reply<T> = Ok(status: nat, value: T) | Fail(status: nat, message: string)

  const NotFound: string := "Product not found"
  const NotAuthorized: string := "Not authorized"
  const Deleted: string := "Product deleted"

  /** No two stored products share an id. */
  ghost predicate UniqueIds(ps: seq<Product>) {
    forall i, j :: 0 <= i < j < |ps| ==> ps[i].id != ps[j].id
  }

  /** The position of the product with id `id`, as `findById` locates it. */
  function Find(ps: seq<Product>, id: Id): (r: Option<nat>)
    ensures r.Some? ==> r.value < |ps| && ps[r.value].id == id
    ensures r.Some? ==> forall i :: 0 <= i < r.value ==> ps[i].id != id
    ensures r.None? ==> forall i :: 0 <= i < |ps| ==> ps[i].id != id
  {
    if ps == [] then None
    else if ps[0].id == id then Some(0)
    else match Find(ps[1..], id)
      case None => None
      case Some(k) => Some(k + 1)
  }

  /** A product matches the query `{}` (None) or `{user: u}` (Some(u)). */
  predicate Matches(p: Product, owner: Option<Id>) {
    owner.None? || p.owner == owner.value
  }

  /** The documents a query selects, in stored order. */
  function Select(ps: seq<Product>, owner: Option<Id>): (r: seq<Product>)
    ensures |r| <= |ps|
    ensures forall p :: p in r <==> p in ps && Matches(p, owner)
    ensures forall p :: multiset(r)[p] == if Matches(p, owner) then multiset(ps)[p] else 0
  {
    if ps == [] then []
    else
      assert ps == [ps[0]] + ps[1..];
      (if Matches(ps[0], owner) then [ps[0]] else []) + Select(ps[1..], owner)
  }

  /** The empty query selects everything, in stored order. */
  lemma {:induction false} SelectAll(ps: seq<Product>)
    ensures Select(ps, None) == ps
  {
    if ps != [] {
      SelectAll(ps[1..]);
    }
  }

  /** Ordered by `createdAt`, descending. */
  predicate NewestFirst(ps: seq<Product>) {
    forall i, j :: 0 <= i < j < |ps| ==> ps[i].createdAt >= ps[j].createdAt
  }

  /** A product no older than everything after it can go in front. */
  lemma ConsNewestFirst(x: Product, rest: seq<Product>)
    requires NewestFirst(rest)
    requires forall q :: q in rest ==> q.createdAt <= x.createdAt
    ensures NewestFirst([x] + rest)
  {
    var r := [x] + rest;
    forall i, j | 0 <= i < j < |r|
      ensures r[i].createdAt >= r[j].createdAt
    {
      assert r[j] == rest[j - 1];
      if i > 0 {
        assert r[i] == rest[i - 1];
      } else {
        assert rest[j - 1] in rest;
      }
    }
  }

  /** `p` placed into a newest-first sequence, keeping it newest first. */
  function Insert(p: Product, ps: seq<Product>): (r: seq<Product>)
    requires NewestFirst(ps)
    ensures NewestFirst(r)
    ensures multiset(r) == multiset(ps) + multiset{p}
    ensures forall q :: q in r ==> q == p || q in ps
  {
    if ps == [] || p.createdAt >= ps[0].createdAt then
      ConsNewestFirst(p, ps);
      [p] + ps
    else
      var x, tail := ps[0], ps[1..];
      assert ps == [x] + tail;
      NewestFirstTail(ps);
      var rest := Insert(p, tail);
      ConsNewestFirst(x, rest);
      [x] + rest
  }

  /** The tail of a newest-first sequence is newest first, and its head is no older than any of it. */
  lemma NewestFirstTail(ps: seq<Product>)
    requires ps != [] && NewestFirst(ps)
    ensures NewestFirst(ps[1..])
    ensures forall q :: q in ps[1..] ==> q.createdAt <= ps[0].createdAt
  {
    var tail := ps[1..];
    forall i, j | 0 <= i < j < |tail|
      ensures tail[i].createdAt >= tail[j].createdAt
    {
      assert tail[i] == ps[i + 1] && tail[j] == ps[j + 1];
    }
    forall q | q in tail
      ensures q.createdAt <= ps[0].createdAt
    {
      var i :| 0 <= i < |tail| && tail[i] == q;
      assert ps[i + 1] == q;
    }
  }

  /** `sort({createdAt: -1})`: the same products, newest first. */
  function SortNewestFirst(ps: seq<Product>): (r: seq<Product>)
    ensures NewestFirst(r)
    ensures multiset(r) == multiset(ps)
  {
    if ps == [] then []
    else
      assert ps == [ps[0]] + ps[1..];
      Insert(ps[0], SortNewestFirst(ps[1..]))
  }

  /** The query `GET /?showMyProducts=...` builds: only the requester's own, or everything. */
  function ListQuery(requester: Id, showMyProducts: Option<string>): (r: Option<Id>)
    ensures forall p :: Matches(p, r) <==> (showMyProducts == Some("true") ==> p.owner == requester)
  {
    if showMyProducts == Some("true") then Some(requester) else None
  }

  /** `GET /`: a database fault answers 500 with its message. */
  function List(ps: seq<Product>, requester: Id, showMyProducts: Option<string>, fault: Option<string>): (r: Reply<seq<Product>>)
    ensures fault.Some? <==> r.Fail?
    ensures r.Fail? ==> r.status == 500 && r.message == fault.value
    ensures r.Ok? ==> r.status == 200 && NewestFirst(r.value)
  {
    if fault.Some? then Fail(500, fault.value)
    else Ok(200, SortNewestFirst(Select(ps, ListQuery(requester, showMyProducts))))
  }

  /**
   * With `showMyProducts` exactly "true" the list holds the requester's products and only
   * those, each as many times as it is stored.
   */
  lemma ListMine(ps: seq<Product>, requester: Id)
    ensures var r := List(ps, requester, Some("true"), None);
      && r.Ok?
      && (forall p :: p in r.value <==> p in ps && p.owner == requester)
      && (forall p :: multiset(r.value)[p] == if p.owner == requester then multiset(ps)[p] else 0)
  {
    var sel := Select(ps, Some(requester));
    var r := SortNewestFirst(sel);
    forall p
      ensures p in r <==> p in sel
    {
      assert p in r <==> p in multiset(r);
    }
  }

  /** Any other value of `showMyProducts`, or none, lists every product, each once. */
  lemma ListEverything(ps: seq<Product>, requester: Id, showMyProducts: Option<string>)
    requires showMyProducts != Some("true")
    ensures var r := List(ps, requester, showMyProducts, None);
      && r.Ok?
      && multiset(r.value) == multiset(ps)
  {
    SelectAll(ps);
  }

  /** `GET /:id`: `findOne({_id: id, user: requester})`. */
  function GetOne(ps: seq<Product>, requester: Id, id: Id, fault: Option<string>): (r: Reply<Product>)
    ensures fault.Some? ==> r == Fail(500, fault.value)
    ensures fault.None? && r.Fail? ==> r == Fail(404, NotFound)
    ensures r.Ok? ==> r.status == 200 && r.value in ps && r.value.id == id && r.value.owner == requester
  {
    if fault.Some? then Fail(500, fault.value)
    else
      var mine := Select(ps, Some(requester));
      match Find(mine, id)
      case None => Fail(404, NotFound)
      case Some(k) => Ok(200, mine[k])
  }

  /** A product owned by the requester is found by its id. */
  lemma GetOneOwned(ps: seq<Product>, requester: Id, k: nat)
    requires UniqueIds(ps)
    requires k < |ps| && ps[k].owner == requester
    ensures GetOne(ps, requester, ps[k].id, None) == Ok(200, ps[k])
  {
    var mine := Select(ps, Some(requester));
    assert ps[k] in mine;
    var j :| 0 <= j < |mine| && mine[j] == ps[k];
    var f := Find(mine, ps[k].id);
    assert f.Some?;
    assert mine[f.value] in ps;
    var i :| 0 <= i < |ps| && ps[i] == mine[f.value];
    assert i == k;
  }

  /** Someone else's product answers 404, exactly as a missing one does, never 403. */
  lemma GetOneOthers(ps: seq<Product>, requester: Id, k: nat)
    requires UniqueIds(ps)
    requires k < |ps| && ps[k].owner != requester
    ensures GetOne(ps, requester, ps[k].id, None) == Fail(404, NotFound)
  {
    var r := GetOne(ps, requester, ps[k].id, None);
    if r.Ok? {
      assert false;
    }
  }

  /** The document `POST /` saves: the form fields, the uploaded path or "", the requester as owner. */
  function NewProduct(form: Form, file: Option<string>, requester: Id, id: Id, createdAt: int): (p: Product)
    ensures p.owner == requester && p.id == id && p.createdAt == createdAt
    ensures p.image == (if file.Some? then file.value else "")
    ensures p.name == form.name && p.description == form.description && p.price == form.price
    ensures p.quantity == form.quantity && p.category == form.category
  {
    Product(id, form.name, form.description, form.price, form.quantity, form.category,
      if file.Some? then file.value else "", requester, createdAt)
  }

  /** `req.body.f || product.f`: a non-empty field replaces, an empty one keeps. */
  function OrKeep(given: string, current: string): (v: string)
    ensures given != [] ==> v == given
    ensures given == [] ==> v == current
  {
    if given != [] then given else current
  }

  /** The document `PUT /:id` saves, as a function of the stored one. */
  function Merge(p: Product, form: Form, file: Option<string>): (q: Product)
    ensures q.id == p.id && q.owner == p.owner && q.createdAt == p.createdAt
    ensures q.image == (if file.Some? then file.value else p.image)
    ensures q.name == OrKeep(form.name, p.name) && q.description == OrKeep(form.description, p.description)
    ensures q.price == OrKeep(form.price, p.price) && q.quantity == OrKeep(form.quantity, p.quantity)
    ensures q.category == OrKeep(form.category, p.category)
  {
    p.(name := OrKeep(form.name, p.name),
       description := OrKeep(form.description, p.description),
       price := OrKeep(form.price, p.price),
       quantity := OrKeep(form.quantity, p.quantity),
       category := OrKeep(form.category, p.category),
       image := if file.Some? then file.value else p.image)
  }

  /** Sending the same update twice stores what sending it once does. */
  lemma MergeIdempotent(p: Product, form: Form, file: Option<string>)
    ensures Merge(Merge(p, form, file), form, file) == Merge(p, form, file)
  {
  }

  /** An update with every field empty and no file leaves the product as it was. */
  lemma MergeEmpty(p: Product)
    ensures Merge(p, Form("", "", "", "", ""), None) == p
  {
  }

  /** The collection without its `k`-th document. */
  function RemoveAt(ps: seq<Product>, k: nat): (r: seq<Product>)
    requires k < |ps|
    ensures |r| == |ps| - 1
    ensures multiset(r) == multiset(ps) - multiset{ps[k]}
  {
    assert ps == ps[..k] + [ps[k]] + ps[k + 1..];
    ps[..k] + ps[k + 1..]
  }

  /** Deleting by id removes exactly that product: every other one stays. */
  lemma RemoveAtExactly(ps: seq<Product>, k: nat)
    requires UniqueIds(ps) && k < |ps|
    ensures UniqueIds(RemoveAt(ps, k))
    ensures forall p :: p in RemoveAt(ps, k) <==> p in ps && p.id != ps[k].id
  {
    var r := RemoveAt(ps, k);
    assert forall i :: 0 <= i < k ==> r[i] == ps[i];
    assert forall i :: k <= i < |r| ==> r[i] == ps[i + 1];
    forall p | p in ps && p.id != ps[k].id
      ensures p in r
    {
      var i :| 0 <= i < |ps| && ps[i] == p;
      if i < k {
        assert r[i] == p;
      } else {
        assert i != k;
        assert r[i - 1] == p;
      }
    }
  }

  /** Storing a product back under its own id keeps ids unique. */
  lemma ReplaceKeepsUnique(ps: seq<Product>, k: nat, q: Product)
    requires UniqueIds(ps) && k < |ps| && q.id == ps[k].id
    ensures UniqueIds(ps[k := q])
  {
  }

  /** Appending a product under a fresh id keeps ids unique. */
  lemma AppendKeepsUnique(ps: seq<Product>, q: Product)
    requires UniqueIds(ps) && forall p :: p in ps ==> p.id != q.id
    ensures UniqueIds(ps + [q])
  {
    var r := ps + [q];
    forall i, j | 0 <= i < j < |r|
      ensures r[i].id != r[j].id
    {
      if j == |ps| {
        assert r[i] in ps;
      }
    }
  }

  /** A created product is readable by its creator and answers 404 to everybody else. */
  lemma CreatedIsPrivate(ps: seq<Product>, form: Form, file: Option<string>, requester: Id, other: Id, id: Id, createdAt: int)
    requires UniqueIds(ps) && forall p :: p in ps ==> p.id != id
    requires other != requester
    ensures var p := NewProduct(form, file, requester, id, createdAt);
      && GetOne(ps + [p], requester, id, None) == Ok(200, p)
      && GetOne(ps + [p], other, id, None) == Fail(404, NotFound)
  {
    var p := NewProduct(form, file, requester, id, createdAt);
    AppendKeepsUnique(ps, p);
    GetOneOwned(ps + [p], requester, |ps|);
    GetOneOthers(ps + [p], other, |ps|);
  }

  /** The product collection of the database, with the write routes as methods. */
  class ProductStore {
    var products: seq<Product>

    ghost predicate Valid()
      reads this
    {
      UniqueIds(products)
    }

    constructor ()
      ensures Valid() && products == []
    {
      products := [];
    }

    /**
     * `POST /`. The id and the creation time come from the database and the clock; a
     * fault in `save` (a validation failure) answers 400 and stores nothing.
     */
    method Create(requester: Id, form: Form, file: Option<string>, id: Id, createdAt: int, fault: Option<string>)
      returns (r: Reply<Product>)
      requires Valid()
      requires forall p :: p in products ==> p.id != id
      modifies this
      ensures Valid()
      ensures fault.Some? ==> r == Fail(400, fault.value) && products == old(products)
      ensures fault.None? ==> r == Ok(201, NewProduct(form, file, requester, id, createdAt))
      ensures fault.None? ==> products == old(products) + [r.value]
    {
      var product := Product(id, form.name, form.description, form.price, form.quantity, form.category,
        "", requester, createdAt);
      if file.Some? {
        product := product.(image := file.value);
      }
      if fault.Some? {
        return Fail(400, fault.value);
      }
      AppendKeepsUnique(products, product);
      products := products + [product];
      r := Ok(201, product);
    }

    /**
     * `PUT /:id`. A fault in `findById` (a malformed id) or in `save` answers 400; a
     * missing product 404; someone else's product 403. Only success changes the store.
     */
    method Update(requester: Id, id: Id, form: Form, file: Option<string>, findFault: Option<string>, saveFault: Option<string>)
      returns (r: Reply<Product>)
      requires Valid()
      modifies this
      ensures Valid()
      ensures r.Fail? ==> products == old(products)
      ensures findFault.Some? ==> r == Fail(400, findFault.value)
      ensures findFault.None? && Find(old(products), id).None? ==> r == Fail(404, NotFound)
      ensures findFault.None? && Find(old(products), id).Some? ==>
        var k := Find(old(products), id).value;
        && (old(products)[k].owner != requester ==> r == Fail(403, NotAuthorized))
        && (old(products)[k].owner == requester && saveFault.Some? ==> r == Fail(400, saveFault.value))
        && (old(products)[k].owner == requester && saveFault.None? ==>
              r == Ok(200, Merge(old(products)[k], form, file)) && products == old(products)[k := r.value])
    {
      if findFault.Some? {
        return Fail(400, findFault.value);
      }
      var found := Find(products, id);
      if found.None? {
        return Fail(404, NotFound);
      }
      var k := found.value;
      var product := products[k];
      if product.owner != requester {
        return Fail(403, NotAuthorized);
      }
      product := product.(name := OrKeep(form.name, product.name));
      product := product.(description := OrKeep(form.description, product.description));
      product := product.(price := OrKeep(form.price, product.price));
      product := product.(quantity := OrKeep(form.quantity, product.quantity));
      product := product.(category := OrKeep(form.category, product.category));
      if file.Some? {
        product := product.(image := file.value);
      }
      if saveFault.Some? {
        return Fail(400, saveFault.value);
      }
      ReplaceKeepsUnique(products, k, product);
      products := products[k := product];
      r := Ok(200, product);
    }

    /**
     * `DELETE /:id`. A fault in `findById` or in the deletion answers 500; a missing
     * product 404; someone else's product 403. Only success changes the store.
     */
    method Delete(requester: Id, id: Id, findFault: Option<string>, deleteFault: Option<string>)
      returns (r: Reply<string>)
      requires Valid()
      modifies this
      ensures Valid()
      ensures r.Fail? ==> products == old(products)
      ensures findFault.Some? ==> r == Fail(500, findFault.value)
      ensures findFault.None? && Find(old(products), id).None? ==> r == Fail(404, NotFound)
      ensures findFault.None? && Find(old(products), id).Some? ==>
        var k := Find(old(products), id).value;
        && (old(products)[k].owner != requester ==> r == Fail(403, NotAuthorized))
        && (old(products)[k].owner == requester && deleteFault.Some? ==> r == Fail(500, deleteFault.value))
        && (old(products)[k].owner == requester && deleteFault.None? ==>
              r == Ok(200, Deleted) && products == RemoveAt(old(products), k))
    {
      if findFault.Some? {
        return Fail(500, findFault.value);
      }
      var found := Find(products, id);
      if found.None? {
        return Fail(404, NotFound);
      }
      var k := found.value;
      if products[k].owner != requester {
        return Fail(403, NotAuthorized);
      }
      if deleteFault.Some? {
        return Fail(500, deleteFault.value);
      }
      RemoveAtExactly(products, k);
      products := products[..k] + products[k + 1..];
      r := Ok(200, Deleted);
    }
  }
}
