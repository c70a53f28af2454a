/** Concrete sessions over the seed catalog. */
module Scenarios {
  import opened Catalog
  import opened ShoppingCart
  import opened Storefront

  /** Angel Tee and the hoodie together come to 85.98 GBP. */
  lemma SeedTotal()
    ensures Total(InitialProducts()[..2]) == 8598
  {
    var seed := InitialProducts();
    assert seed[..2][..1] == [seed[0]];
    assert [seed[0]][..0] == [];
  }

  /** At the level of the handlers: once the Duck Tee is reserved by the
      cart, toggleStock makes the catalog offer it again while the cart still
      holds it, so a second addToCart is accepted and the cart holds the id
      twice. The buttons cannot produce this sequence: the toggle button sits
      on the product page, where the cart is always empty (App.Reachable). */
  lemma ToggleDivergence()
    ensures var seed := InitialProducts();
            var reserved := ReserveId(seed, 3);
            var toggled := ToggleId(reserved, 3);
            var again := Find(toggled, 3);
            && Reservations([seed[2]], reserved)
            && !CartReserved([seed[2]], toggled)
            && again.Some? && Available(again.value)
            && !UniqueIds([seed[2], again.value])
            && reserved[2] == Reserve(seed[2]) && toggled[2] == Toggle(Reserve(seed[2]))
  {
    var seed := InitialProducts();
    var reserved := ReserveId(seed, 3);
    var toggled := ToggleId(reserved, 3);
    assert seed[0].id == 1 && seed[1].id == 2 && seed[2].id == 3;
    assert reserved[2].id == 3 && !reserved[2].inStock;
    assert HasId(reserved, 3);
    assert ReservedIn(reserved, 3);
    assert CartReserved([seed[2]], reserved);
    assert toggled[2].id == 3 && toggled[2].inStock;
    assert !ReservedIn(toggled, 3);
    assert UniqueIds(toggled) by {
      assert toggled[0].id == 1 && toggled[1].id == 2;
    }
    FindListed(toggled, toggled[2]);
    var twice := [seed[2], toggled[2]];
    assert twice[0].id == twice[1].id;
  }

  /** Calling the handlers directly, adding the Duck Tee and then toggling
      it leaves the live catalog record available while the cart still holds
      its snapshot. The toggle here runs on the cart page, where the program
      shows no toggle button, so no click sequence reaches this state. */
  method DivergenceSession() returns (live: Product, held: Product)
    ensures live.id == 3 && held.id == 3
    ensures Available(live) && held == InitialProducts()[2]
  {
    ToggleDivergence();
    var app := new App();
    var duck := app.products[2];
    app.AddToCart(duck);
    app.ToggleStock(3);
    live := app.products[2];
    held := app.cart[0];
  }

  /** The image index survives leaving and re-entering the same product's
      page, and is reset when another product is viewed. */
  method ImageIndexSession() returns (kept: nat, reset: nat)
    ensures kept == 1 && reset == 0
  {
    var app := new App();
    var angel, hoodie := app.products[0], app.products[1];
    app.ViewProduct(angel);
    app.SelectImage(1);
    app.Back();
    app.ViewProduct(angel);
    kept := app.activeImage;
    app.Back();
    app.ViewProduct(hoodie);
    reset := app.activeImage;
  }

  /** Viewing the Angel Tee and toggling it out of stock, then pressing
      "Add to Cart": the add is refused, the cart stays empty, the product
      page stays shown and the catalog is unchanged. */
  method BlockedAddSession() returns (cart: seq<Product>, shown: Page, before: seq<Product>, after: seq<Product>)
    ensures cart == [] && shown == ProductPage
    ensures after == before && |before| == 3 && !Available(before[0])
  {
    var app := new App();
    var angel := app.products[0];
    app.ViewProduct(angel);
    app.ToggleStock(1);
    assert app.products[0] == Toggle(angel);
    before := app.products;
    app.AddSelectedToCart();
    cart, shown, after := app.cart, app.page, app.products;
  }
}
