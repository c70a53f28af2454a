/** The session state held by the App component and the event handlers that
    change it. Each handler is one atomic transition. */
module Storefront {
  import opened Catalog
  import opened ShoppingCart

  /** The three views: "shop", "product" and "cart". */
  datatype Page = ShopPage | ProductPage | CartPage

  /** What every handler keeps: the stock invariant, stocks of 0 or 1, unique
      listings with at least one image, a product page only for a listed
      product, and an image index that is a valid index into the selected
      product's images. */
  ghost predicate SessionValid(page: Page, ps: seq<Product>, sel: Option<int>, activeImage: nat)
  {
    && AllConsistent(ps)
    && StockBounded(ps)
    && UniqueIds(ps)
    && (forall i :: 0 <= i < |ps| ==> |ps[i].images| > 0)
    && (page == ProductPage ==> Selected(ps, sel).Some?)
    && (Selected(ps, sel).Some? ==> activeImage < |Selected(ps, sel).value.images|)
  }

  /** An availability update that keeps every listing and the stock invariant
      keeps the session invariant: the selected product is still found and
      still has the same images. */
  lemma ListingsKeepSession(page: Page, ps: seq<Product>, qs: seq<Product>, sel: Option<int>, activeImage: nat)
    requires SessionValid(page, ps, sel, activeImage)
    requires SameListings(ps, qs) && AllConsistent(qs) && StockBounded(qs)
    ensures SessionValid(page, qs, sel, activeImage)
  {
    assert UniqueIds(qs) by {
      forall i, j | 0 <= i < j < |qs| ensures qs[i].id != qs[j].id {
        assert SameListing(ps[i], qs[i]) && SameListing(ps[j], qs[j]);
      }
    }
    assert forall i :: 0 <= i < |qs| ==> |qs[i].images| > 0 by {
      forall i | 0 <= i < |qs| ensures |qs[i].images| > 0 {
        assert SameListing(ps[i], qs[i]);
      }
    }
    if sel.Some? {
      FindSameListing(ps, qs, sel.value);
    }
  }

  /** In a valid session an available listed product has stock 1, so adding
      it and then removing it restores both the cart and the catalog. */
  lemma SessionAddThenRemove(page: Page, cart: seq<Product>, ps: seq<Product>, sel: Option<int>,
                             activeImage: nat, p: Product)
    requires SessionValid(page, ps, sel, activeImage) && Reservations(cart, ps)
    requires p in ps && Available(p)
    ensures RemoveId(cart + [p], p.id) == cart
    ensures ReleaseId(ReserveId(ps, p.id), p.id) == ps
  {
    assert p.stock == 1;
    AddThenRemoveRestores(cart, ps, p);
  }

  /** In a valid session toggling the same id twice restores the catalog. */
  lemma SessionToggleTwice(page: Page, ps: seq<Product>, sel: Option<int>, activeImage: nat, id: int)
    requires SessionValid(page, ps, sel, activeImage)
    ensures ToggleId(ToggleId(ps, id), id) == ps
  {
    forall i | 0 <= i < |ps| && ps[i].id == id
      ensures ps[i].stock == (if ps[i].inStock then 1 else 0)
    {
      assert Consistent(ps[i]);
    }
    ToggleTwice(ps, id);
  }

  class App {
    var page: Page
    var cart: seq<Product>
    var products: seq<Product>
    var selectedProductId: Option<int>
    var activeImage: nat

    /** The derived `selectedProduct`. */
    function SelectedProduct(): Option<Product>
      reads this
    {
      Selected(products, selectedProductId)
    }

    /** The session invariant every handler keeps. */
    ghost predicate Valid()
      reads this
    {
      SessionValid(page, products, selectedProductId, activeImage)
    }

    /** What add and remove keep, and a manual toggle of a product in the
        cart can break. */
    ghost predicate Reserving()
      reads this
    {
      Reservations(cart, products)
    }

    /** What holds in every session the buttons can produce: the cart is
        empty off the cart page and holds at most one entry, and its entry
        is reserved. The toggle button sits on the product page, where the
        cart is empty, so a manual toggle never breaks a reservation. */
    ghost predicate Reachable()
      reads this
    {
      (page != CartPage ==> cart == []) && |cart| <= 1 && Reserving()
    }

    constructor ()
      ensures Valid() && Reserving() && Reachable()
      ensures page == ShopPage && cart == [] && products == InitialProducts()
      ensures selectedProductId == None && activeImage == 0
    {
      page := ShopPage;
      cart := [];
      products := InitialProducts();
      selectedProductId := None;
      activeImage := 0;
    }

    /** addToCart(product): refused when the product is unavailable; otherwise
        the snapshot is appended, its catalog entry reserved and the cart shown. */
    method AddToCart(product: Product)
      requires Valid()
      modifies this
      ensures Valid()
      ensures !Available(product) ==> cart == old(cart) && products == old(products) && page == old(page)
      ensures Available(product) ==>
                cart == old(cart) + [product] && products == ReserveId(old(products), product.id) &&
                page == CartPage && Total(cart) == old(Total(cart)) + product.price
      ensures selectedProductId == old(selectedProductId) && activeImage == old(activeImage)
      ensures old(Reserving()) && product in old(products) ==> Reserving()
      ensures old(Reachable()) && product in old(products) && old(page) != CartPage ==> Reachable()
    {
      if !Available(product) {
        return;
      }
      ghost var before := products;
      ghost var reserving := Reserving();
      TotalAppend(cart, [product]);
      assert Total([product]) == product.price by { assert [product][..0] == []; }
      if reserving && product in products {
        AddKeepsReservations(cart, products, product);
      }
      cart := cart + [product];
      products := ReserveId(products, product.id);
      page := CartPage;
      ListingsKeepSession(page, before, products, selectedProductId, activeImage);
    }

    /** removeFromCart(id): every entry with the id leaves the cart and the
        catalog entry is released, whether or not the cart held the id. */
    method RemoveFromCart(id: int)
      requires Valid()
      modifies this
      ensures Valid()
      ensures cart == RemoveId(old(cart), id) && products == ReleaseId(old(products), id)
      ensures !HasId(cart, id)
      ensures page == old(page) && selectedProductId == old(selectedProductId) && activeImage == old(activeImage)
      ensures old(Reserving()) ==> Reserving()
      ensures old(Reachable()) ==> Reachable()
      ensures old(Reserving()) ==> forall k :: 0 <= k < |old(cart)| && old(cart)[k].id == id ==>
                Total(cart) == old(Total(cart)) - old(cart)[k].price
    {
      ghost var before := products;
      ghost var reserving := Reserving();
      if reserving {
        RemoveKeepsReservations(cart, products, id);
        RemoveUniqueTotal(cart, id);
      }
      assert RemoveId([], id) == [];
      cart := RemoveId(cart, id);
      products := ReleaseId(products, id);
      ListingsKeepSession(page, before, products, selectedProductId, activeImage);
    }

    /** toggleStock(id): flips availability of the entry with the id, keeping
        the stock invariant. The cart is not reconciled. */
    method ToggleStock(id: int)
      requires Valid()
      modifies this
      ensures Valid()
      ensures products == ToggleId(old(products), id)
      ensures cart == old(cart) && page == old(page)
      ensures selectedProductId == old(selectedProductId) && activeImage == old(activeImage)
      ensures old(Reachable()) && old(page) == ProductPage ==> Reachable()
    {
      ghost var before := products;
      products := ToggleId(products, id);
      ListingsKeepSession(page, before, products, selectedProductId, activeImage);
    }

    /** The "View" button of a catalog card: select the product and show its
        page. The image index is reset only when the selected id changes. */
    method ViewProduct(p: Product)
      requires Valid() && p in products
      modifies this
      ensures Valid()
      ensures page == ProductPage && selectedProductId == Some(p.id) && SelectedProduct() == Some(p)
      ensures activeImage == if old(selectedProductId) == Some(p.id) then old(activeImage) else 0
      ensures cart == old(cart) && products == old(products)
      ensures old(Reachable()) && old(page) == ShopPage ==> Reachable()
    {
      FindListed(products, p);
      if selectedProductId != Some(p.id) {
        activeImage := 0;
      }
      selectedProductId := Some(p.id);
      page := ProductPage;
    }

    /** The "Back" button of the product page. */
    method Back()
      requires Valid()
      modifies this
      ensures Valid()
      ensures page == ShopPage
      ensures cart == old(cart) && products == old(products)
      ensures selectedProductId == old(selectedProductId) && activeImage == old(activeImage)
      ensures old(Reachable()) && old(page) == ProductPage ==> Reachable()
    {
      page := ShopPage;
    }

    /** A thumbnail click: show image i of the selected product. */
    method SelectImage(i: nat)
      requires Valid() && SelectedProduct().Some? && i < |SelectedProduct().value.images|
      modifies this
      ensures Valid()
      ensures activeImage == i
      ensures page == old(page) && cart == old(cart) && products == old(products)
      ensures selectedProductId == old(selectedProductId)
      ensures old(Reachable()) ==> Reachable()
    {
      activeImage := i;
    }

    /** The "Add to Cart" button of the product page: add the live catalog
        record of the selected product. */
    method AddSelectedToCart()
      requires Valid() && page == ProductPage
      modifies this
      ensures Valid()
      ensures var p := old(SelectedProduct()).value;
              if Available(p) then
                cart == old(cart) + [p] && products == ReserveId(old(products), p.id) && page == CartPage
              else cart == old(cart) && products == old(products) && page == ProductPage
      ensures selectedProductId == old(selectedProductId) && activeImage == old(activeImage)
      ensures old(Reserving()) ==> Reserving()
      ensures old(Reachable()) ==> Reachable()
    {
      var p := SelectedProduct().value;
      AddToCart(p);
    }
  }
}
