/** The catalog: product records, the availability rules and the per-id
    updates the storefront applies to its list of products.
    Prices are whole pence (25.99 GBP is 2599). */
module Catalog {

  datatype Option<T> = None | Some(value: T)

  datatype Product = Product(
    id: int,
    name: string,
    price: int,
    images: seq<string>,
    description: string,
    stock: int,
    inStock: bool)

  /** A product may be added to the cart: the negation of addToCart's refusal test. */
  predicate Available(p: Product)
  {
    p.inStock && p.stock >= 1
  }

  /** The stock invariant of a single catalog entry. */
  predicate Consistent(p: Product)
  {
    p.inStock <==> p.stock >= 1
  }

  predicate AllConsistent(ps: seq<Product>)
  {
    forall i :: 0 <= i < |ps| ==> Consistent(ps[i])
  }

  /** Every stock is 0 or 1: the only values the storefront ever writes. */
  predicate StockBounded(ps: seq<Product>)
  {
    forall i :: 0 <= i < |ps| ==> 0 <= ps[i].stock <= 1
  }

  /** No id occurs at two positions. */
  predicate UniqueIds(ps: seq<Product>)
  {
    forall i, j :: 0 <= i < j < |ps| ==> ps[i].id != ps[j].id
  }

  predicate HasId(ps: seq<Product>, id: int)
  {
    exists i :: 0 <= i < |ps| && ps[i].id == id
  }

  /** Everything but the two availability fields agrees. */
  predicate SameListing(p: Product, q: Product)
  {
    p.id == q.id && p.name == q.name && p.price == q.price &&
    p.images == q.images && p.description == q.description
  }

  /** Two catalogs list the same products in the same order, availability aside. */
  predicate SameListings(ps: seq<Product>, qs: seq<Product>)
  {
    |ps| == |qs| && forall i :: 0 <= i < |ps| ==> SameListing(ps[i], qs[i])
  }

  /** The record addToCart writes for the added product. */
  function Reserve(p: Product): (r: Product)
    ensures SameListing(p, r) && Consistent(r) && !Available(r) && r.stock == 0
  {
    p.(stock := 0, inStock := false)
  }

  /** The record removeFromCart writes for the removed id. */
  function Release(p: Product): (r: Product)
    ensures SameListing(p, r) && Consistent(r) && Available(r) && r.stock == 1
  {
    p.(stock := 1, inStock := true)
  }

  /** The record toggleStock writes: availability flips, stock follows it. */
  function Toggle(p: Product): (r: Product)
    ensures SameListing(p, r) && Consistent(r)
    ensures r.inStock == !p.inStock
    ensures r.stock == if p.inStock then 0 else 1
  {
    p.(inStock := !p.inStock, stock := if p.inStock then 0 else 1)
  }

  /** `ps.map(p => p.id === id ? f(p) : p)`: every entry with the id is
      rewritten by f, every other entry is kept, length and order are kept. */
  function MapWhere(ps: seq<Product>, id: int, f: Product -> Product): (r: seq<Product>)
    ensures |r| == |ps|
    ensures forall i :: 0 <= i < |ps| ==> r[i] == if ps[i].id == id then f(ps[i]) else ps[i]
  {
    if ps == [] then []
    else [if ps[0].id == id then f(ps[0]) else ps[0]] + MapWhere(ps[1..], id, f)
  }

  /** The catalog after a successful addToCart of a product with this id. */
  function ReserveId(ps: seq<Product>, id: int): (r: seq<Product>)
    ensures SameListings(ps, r)
    ensures forall i :: 0 <= i < |ps| && ps[i].id == id ==> r[i].stock == 0 && !r[i].inStock
    ensures forall i :: 0 <= i < |ps| && ps[i].id != id ==> r[i] == ps[i]
    ensures AllConsistent(ps) ==> AllConsistent(r)
    ensures StockBounded(ps) ==> StockBounded(r)
  {
    MapWhere(ps, id, Reserve)
  }

  /** The catalog after removeFromCart(id), whether or not the cart held the id. */
  function ReleaseId(ps: seq<Product>, id: int): (r: seq<Product>)
    ensures SameListings(ps, r)
    ensures forall i :: 0 <= i < |ps| && ps[i].id == id ==> r[i].stock == 1 && r[i].inStock
    ensures forall i :: 0 <= i < |ps| && ps[i].id != id ==> r[i] == ps[i]
    ensures AllConsistent(ps) ==> AllConsistent(r)
    ensures StockBounded(ps) ==> StockBounded(r)
  {
    MapWhere(ps, id, Release)
  }

  /** The catalog after toggleStock(id). A toggled entry is consistent
      afterwards even if it was not before. */
  function ToggleId(ps: seq<Product>, id: int): (r: seq<Product>)
    ensures SameListings(ps, r)
    ensures forall i :: 0 <= i < |ps| && ps[i].id == id ==>
      r[i].inStock == !ps[i].inStock && r[i].stock == (if ps[i].inStock then 0 else 1) && Consistent(r[i])
    ensures forall i :: 0 <= i < |ps| && ps[i].id != id ==> r[i] == ps[i]
    ensures AllConsistent(ps) ==> AllConsistent(r)
    ensures StockBounded(ps) ==> StockBounded(r)
  {
    MapWhere(ps, id, Toggle)
  }

  /** `ps.find(p => p.id === id)`: the first entry with the id, or None. */
  function Find(ps: seq<Product>, id: int): (r: Option<Product>)
    ensures r.None? <==> !HasId(ps, id)
    ensures r.Some? ==> r.value.id == id && r.value in ps
    ensures r.Some? ==> exists k :: 0 <= k < |ps| && ps[k] == r.value &&
                                    forall j :: 0 <= j < k ==> ps[j].id != id
  {
    if ps == [] then None
    else if ps[0].id == id then Some(ps[0])
    else
      var r := Find(ps[1..], id);
      assert r.Some? ==> exists k :: 0 <= k < |ps[1..]| && ps[1..][k] == r.value &&
                                     forall j :: 0 <= j < k ==> ps[1..][j].id != id;
      if r.Some? then
        var k :| 0 <= k < |ps[1..]| && ps[1..][k] == r.value && forall j :: 0 <= j < k ==> ps[1..][j].id != id;
        assert ps[k + 1] == r.value && forall j :: 0 <= j < k + 1 ==> ps[j].id != id;
        r
      else
        r
  }

  /** `products.find(p => p.id === selectedProductId) || null`: a null id
      matches no product. */
  function Selected(ps: seq<Product>, sel: Option<int>): (r: Option<Product>)
    ensures sel.None? ==> r.None?
    ensures r.Some? ==> sel.Some? && r.value.id == sel.value && r.value in ps
    ensures sel.Some? && HasId(ps, sel.value) ==> r.Some?
  {
    match sel
    case None => None
    case Some(id) => Find(ps, id)
  }

  /** With unique ids, looking up a listed product's id yields that product. */
  lemma FindListed(ps: seq<Product>, p: Product)
    requires UniqueIds(ps) && p in ps
    ensures Find(ps, p.id) == Some(p)
  {
    var m :| 0 <= m < |ps| && ps[m] == p;
    var r := Find(ps, p.id);
    assert r.Some?;
    var k :| 0 <= k < |ps| && ps[k] == r.value && forall j :: 0 <= j < k ==> ps[j].id != p.id;
    assert k == m;
  }

  /** Lookup ignores availability: two catalogs with the same listings find
      entries at the same position, and those entries have the same listing. */
  lemma {:induction false} FindSameListing(ps: seq<Product>, qs: seq<Product>, id: int)
    requires SameListings(ps, qs)
    ensures Find(qs, id).Some? == Find(ps, id).Some?
    ensures Find(ps, id).Some? ==> SameListing(Find(ps, id).value, Find(qs, id).value)
  {
    if ps != [] {
      assert SameListing(ps[0], qs[0]);
      FindSameListing(ps[1..], qs[1..], id);
    }
  }

  /** Reservation followed by release restores every entry that was in stock
      with stock 1, which is how every seed entry starts. */
  lemma ReleaseUndoesReserve(ps: seq<Product>, id: int)
    requires forall i :: 0 <= i < |ps| && ps[i].id == id ==> ps[i].stock == 1 && ps[i].inStock
    ensures ReleaseId(ReserveId(ps, id), id) == ps
  {
    var r := ReleaseId(ReserveId(ps, id), id);
    forall i | 0 <= i < |ps|
      ensures r[i] == ps[i]
    {
      if ps[i].id == id {
        assert ReserveId(ps, id)[i].id == id;
      }
    }
  }

  /** Releasing is idempotent: a second removeFromCart(id) writes the same catalog. */
  lemma ReleaseIdempotent(ps: seq<Product>, id: int)
    ensures ReleaseId(ReleaseId(ps, id), id) == ReleaseId(ps, id)
  {
    var once := ReleaseId(ps, id);
    var twice := ReleaseId(once, id);
    forall i | 0 <= i < |ps|
      ensures twice[i] == once[i]
    {
      assert once[i].id == ps[i].id;
    }
  }

  /** Toggling twice restores every entry whose stock is 1 when in stock and 0
      otherwise. */
  lemma ToggleTwice(ps: seq<Product>, id: int)
    requires forall i :: 0 <= i < |ps| && ps[i].id == id ==> ps[i].stock == (if ps[i].inStock then 1 else 0)
    ensures ToggleId(ToggleId(ps, id), id) == ps
  {
    var r := ToggleId(ToggleId(ps, id), id);
    forall i | 0 <= i < |ps|
      ensures r[i] == ps[i]
    {
      assert ToggleId(ps, id)[i].id == ps[i].id;
    }
  }

  /** The seed catalog: three tees and hoodies, each in stock with stock 1. */
  function InitialProducts(): (r: seq<Product>)
    ensures |r| == 3 && AllConsistent(r) && UniqueIds(r) && StockBounded(r)
    ensures forall i :: 0 <= i < |r| ==> Available(r[i]) && r[i].stock == 1 && |r[i].images| > 0
  {
    [ Product(1, "Angel Tee", 2599,
              ["/blvd_saint_product_1.png", "/blvd_saint_product_2.png"],
              "Premium cotton tee with Angel graphic.", 1, true),
      Product(2, "Where Is My Mind Hoodie", 5999,
              ["/blvd_saint_product_3.png", "/blvd_saint_product_4.png"],
              "Heavyweight premium hoodie.", 1, true),
      Product(3, "Duck Tee", 2599,
              ["/blvd_saint_product_5.png", "/blvd_saint_product_6.png"],
              "Soft cotton tee.", 1, true) ]
  }
}
