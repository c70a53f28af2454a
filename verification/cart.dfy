/** The cart: an ordered list of whole product snapshots, its removal filter,
    its running total, and the reservation invariant that ties it to the catalog. */
module ShoppingCart {
  import opened Catalog

  /** `cart.filter(p => p.id !== id)`. */
  function RemoveId(cart: seq<Product>, id: int): (r: seq<Product>)
    ensures |r| <= |cart|
    ensures forall q :: q in r <==> q in cart && q.id != id
  {
    if cart == [] then []
    else
      var rest := RemoveId(cart[1..], id);
      assert forall q :: q in cart <==> q == cart[0] || q in cart[1..];
      (if cart[0].id == id then [] else [cart[0]]) + rest
  }

  /** The filter keeps every entry whose id differs, as often as it occurs,
      and drops every entry with the id. */
  lemma {:induction false} RemoveIdCounts(cart: seq<Product>, id: int)
    ensures forall q :: multiset(RemoveId(cart, id))[q] == if q.id == id then 0 else multiset(cart)[q]
  {
    if cart != [] {
      RemoveIdCounts(cart[1..], id);
      assert cart == [cart[0]] + cart[1..];
    }
  }

  /** The filter keeps order: it distributes over concatenation. */
  lemma {:induction false} RemoveIdAppend(a: seq<Product>, b: seq<Product>, id: int)
    ensures RemoveId(a + b, id) == RemoveId(a, id) + RemoveId(b, id)
  {
    if a != [] {
      var head := if a[0].id == id then [] else [a[0]];
      assert (a + b)[0] == a[0] && (a + b)[1..] == a[1..] + b;
      assert RemoveId(a + b, id) == head + RemoveId(a[1..] + b, id);
      assert RemoveId(a, id) == head + RemoveId(a[1..], id);
      RemoveIdAppend(a[1..], b, id);
      assert head + (RemoveId(a[1..], id) + RemoveId(b, id)) == (head + RemoveId(a[1..], id)) + RemoveId(b, id);
    } else {
      assert a + b == b;
    }
  }

  /** Removing an id that no entry carries leaves the cart as it is. */
  lemma {:induction false} RemoveIdAbsent(cart: seq<Product>, id: int)
    requires !HasId(cart, id)
    ensures RemoveId(cart, id) == cart
  {
    if cart != [] {
      assert cart[0].id != id;
      assert !HasId(cart[1..], id) by {
        forall i | 0 <= i < |cart[1..]| ensures cart[1..][i].id != id {
          assert cart[1..][i] == cart[i + 1];
        }
      }
      RemoveIdAbsent(cart[1..], id);
      assert cart == [cart[0]] + cart[1..];
    }
  }

  /** The filter keeps a cart free of repeated ids. */
  lemma {:induction false} RemoveIdKeepsUnique(cart: seq<Product>, id: int)
    requires UniqueIds(cart)
    ensures UniqueIds(RemoveId(cart, id))
  {
    if cart != [] {
      var tail := cart[1..];
      assert UniqueIds(tail) by {
        forall i, j | 0 <= i < j < |tail| ensures tail[i].id != tail[j].id {
          assert tail[i] == cart[i + 1] && tail[j] == cart[j + 1];
        }
      }
      RemoveIdKeepsUnique(tail, id);
      var rest := RemoveId(tail, id);
      if cart[0].id != id {
        var r := [cart[0]] + rest;
        forall j | 0 < j < |r| ensures r[0].id != r[j].id {
          assert r[j] in tail;
        }
      }
    }
  }

  /** `cart.reduce((sum, item) => sum + item.price, 0)`, folded left to right. */
  function Total(cart: seq<Product>): (r: int)
    ensures cart == [] ==> r == 0
    ensures (forall i :: 0 <= i < |cart| ==> cart[i].price >= 0) ==> r >= 0
  {
    if cart == [] then 0 else Total(cart[..|cart| - 1]) + cart[|cart| - 1].price
  }

  /** The total of a concatenation is the sum of the totals. */
  lemma {:induction false} TotalAppend(a: seq<Product>, b: seq<Product>)
    ensures Total(a + b) == Total(a) + Total(b)
  {
    if b != [] {
      var ab := a + b;
      assert ab[..|ab| - 1] == a + b[..|b| - 1];
      assert ab[|ab| - 1] == b[|b| - 1];
      TotalAppend(a, b[..|b| - 1]);
    } else {
      assert a + b == a;
    }
  }

  /** Removing the only entry with an id takes out exactly that position. */
  lemma {:induction false} RemoveOnlyEntry(cart: seq<Product>, k: int)
    requires 0 <= k < |cart|
    requires forall j :: 0 <= j < |cart| && j != k ==> cart[j].id != cart[k].id
    ensures RemoveId(cart, cart[k].id) == cart[..k] + cart[k + 1..]
  {
    var id, tail := cart[k].id, cart[1..];
    if k == 0 {
      assert !HasId(tail, id) by {
        forall i | 0 <= i < |tail| ensures tail[i].id != id { assert tail[i] == cart[i + 1]; }
      }
      RemoveIdAbsent(tail, id);
    } else {
      assert tail[k - 1] == cart[k];
      forall j | 0 <= j < |tail| && j != k - 1 ensures tail[j].id != id {
        assert tail[j] == cart[j + 1];
      }
      RemoveOnlyEntry(tail, k - 1);
      assert cart[..k] + cart[k + 1..] == [cart[0]] + (tail[..k - 1] + tail[k..]);
    }
  }

  /** The total splits around any position. */
  lemma TotalAround(cart: seq<Product>, k: int)
    requires 0 <= k < |cart|
    ensures Total(cart) == Total(cart[..k]) + cart[k].price + Total(cart[k + 1..])
  {
    var a, b := cart[..k], cart[k + 1..];
    assert cart == (a + [cart[k]]) + b;
    TotalAppend(a + [cart[k]], b);
    TotalAppend(a, [cart[k]]);
    assert Total([cart[k]]) == cart[k].price by {
      assert [cart[k]][..0] == [];
    }
  }

  /** Removing the only entry with an id lowers the total by that entry's price. */
  lemma RemoveOnlyEntryTotal(cart: seq<Product>, k: int)
    requires 0 <= k < |cart|
    requires forall j :: 0 <= j < |cart| && j != k ==> cart[j].id != cart[k].id
    ensures Total(RemoveId(cart, cart[k].id)) == Total(cart) - cart[k].price
  {
    RemoveOnlyEntry(cart, k);
    TotalAround(cart, k);
    TotalAppend(cart[..k], cart[k + 1..]);
  }

  /** In a cart without repeated ids, removing an id lowers the total by the
      price of the entry that carried it. */
  lemma RemoveUniqueTotal(cart: seq<Product>, id: int)
    requires UniqueIds(cart)
    ensures forall k :: 0 <= k < |cart| && cart[k].id == id ==>
              Total(RemoveId(cart, id)) == Total(cart) - cart[k].price
  {
    forall k | 0 <= k < |cart| && cart[k].id == id
      ensures Total(RemoveId(cart, id)) == Total(cart) - cart[k].price
    {
      RemoveOnlyEntryTotal(cart, k);
    }
  }

  /** Every catalog entry carrying this id is unavailable. */
  predicate ReservedIn(ps: seq<Product>, id: int)
  {
    forall j :: 0 <= j < |ps| && ps[j].id == id ==> !ps[j].inStock
  }

  /** Every cart entry's id is listed in the catalog and reserved there. */
  predicate CartReserved(cart: seq<Product>, ps: seq<Product>)
  {
    forall i :: 0 <= i < |cart| ==> HasId(ps, cart[i].id) && ReservedIn(ps, cart[i].id)
  }

  /** The invariant that add and remove keep: reservations hold and no id is in the cart twice. */
  predicate Reservations(cart: seq<Product>, ps: seq<Product>)
  {
    CartReserved(cart, ps) && UniqueIds(cart)
  }

  /** A successful add of a listed product keeps the reservation invariant;
      in particular the product was not in the cart before. */
  lemma AddKeepsReservations(cart: seq<Product>, ps: seq<Product>, p: Product)
    requires Reservations(cart, ps) && p in ps && Available(p)
    ensures !HasId(cart, p.id)
    ensures Reservations(cart + [p], ReserveId(ps, p.id))
  {
    var m :| 0 <= m < |ps| && ps[m] == p;
    assert !ReservedIn(ps, p.id);
    var c, r := cart + [p], ReserveId(ps, p.id);
    forall i | 0 <= i < |c|
      ensures HasId(r, c[i].id) && ReservedIn(r, c[i].id)
    {
      if i < |cart| {
        var n :| 0 <= n < |ps| && ps[n].id == cart[i].id;
        assert r[n].id == ps[n].id;
        forall j | 0 <= j < |r| && r[j].id == c[i].id ensures !r[j].inStock {
          assert ps[j].id == r[j].id;
        }
      } else {
        assert r[m].id == p.id;
        forall j | 0 <= j < |r| && r[j].id == p.id ensures !r[j].inStock {
          assert ps[j].id == r[j].id;
        }
      }
    }
  }

  /** removeFromCart keeps the reservation invariant and leaves no entry with the id. */
  lemma RemoveKeepsReservations(cart: seq<Product>, ps: seq<Product>, id: int)
    requires Reservations(cart, ps)
    ensures !HasId(RemoveId(cart, id), id)
    ensures Reservations(RemoveId(cart, id), ReleaseId(ps, id))
  {
    var c, r := RemoveId(cart, id), ReleaseId(ps, id);
    RemoveIdKeepsUnique(cart, id);
    forall i | 0 <= i < |c|
      ensures c[i].id != id && HasId(r, c[i].id) && ReservedIn(r, c[i].id)
    {
      assert c[i] in cart;
      var k :| 0 <= k < |cart| && cart[k] == c[i];
      var n :| 0 <= n < |ps| && ps[n].id == cart[k].id;
      assert r[n].id == ps[n].id;
      forall j | 0 <= j < |r| && r[j].id == c[i].id ensures !r[j].inStock {
        assert ps[j].id == r[j].id;
      }
    }
  }

  /** Adding an in-stock product with stock 1 and then removing it restores
      both the cart and the catalog exactly. */
  lemma AddThenRemoveRestores(cart: seq<Product>, ps: seq<Product>, p: Product)
    requires Reservations(cart, ps) && UniqueIds(ps)
    requires p in ps && p.inStock && p.stock == 1
    ensures RemoveId(cart + [p], p.id) == cart
    ensures ReleaseId(ReserveId(ps, p.id), p.id) == ps
  {
    var m :| 0 <= m < |ps| && ps[m] == p;
    assert !HasId(cart, p.id) by {
      forall i | 0 <= i < |cart| ensures cart[i].id != p.id {
        assert ReservedIn(ps, cart[i].id);
        assert ps[m].inStock;
      }
    }
    RemoveIdAppend(cart, [p], p.id);
    RemoveIdAbsent(cart, p.id);
    assert RemoveId([p], p.id) == [];
    forall i | 0 <= i < |ps| && ps[i].id == p.id ensures ps[i].stock == 1 && ps[i].inStock {
      assert i == m;
    }
    ReleaseUndoesReserve(ps, p.id);
  }

  /** A second removeFromCart with the same id changes neither cart nor catalog. */
  lemma RemoveTwice(cart: seq<Product>, ps: seq<Product>, id: int)
    ensures RemoveId(RemoveId(cart, id), id) == RemoveId(cart, id)
    ensures ReleaseId(ReleaseId(ps, id), id) == ReleaseId(ps, id)
  {
    var once := RemoveId(cart, id);
    assert !HasId(once, id) by {
      forall i | 0 <= i < |once| ensures once[i].id != id { assert once[i] in once; }
    }
    RemoveIdAbsent(once, id);
    ReleaseIdempotent(ps, id);
  }
}
