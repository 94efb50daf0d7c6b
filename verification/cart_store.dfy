/**
 The cart provider's state: the in-memory product list and the one value the
 device's key-value storage holds for the cart. Every operation replaces the
 list and then writes to storage the list as it was BEFORE the operation, so
 the stored snapshot lags one step behind what is shown.
 */
module CartStore {
  import opened CartProducts

  class Cart<P> {
    /** The list the views read. */
    var products: seq<Product<P>>
    /** The cart's storage key: None once storage is cleared, else the last list written. */
    var persisted: Option<seq<Product<P>>>

    /** The in-memory list and any stored list are well-formed carts. */
    ghost predicate Valid()
      reads this
    {
      WellFormed(products) && (persisted.Some? ==> WellFormed(persisted.value))
    }

    /** A provider starts with an empty list; `stored` is what storage held from an earlier session. */
    constructor (stored: Option<seq<Product<P>>>)
      ensures products == [] && persisted == stored
      ensures Valid() <==> (stored.None? || WellFormed(stored.value))
    {
      products := [];
      persisted := stored;
    }

    /** Start-up load: adopt the stored list if there is one, then clear storage either way. */
    method Hydrate()
      modifies this
      ensures products == if old(persisted).Some? then old(persisted).value else old(products)
      ensures persisted == None
      ensures old(Valid()) ==> Valid()
    {
      if persisted.Some? {
        products := persisted.value;
      }
      persisted := None;
    }

    method Increment(id: string)
      modifies this
      ensures products == CartProducts.Increment(old(products), id)
      ensures persisted == Some(old(products))
      ensures old(Valid()) ==> Valid()
    {
      if WellFormed(products) {
        IncrementKeepsWellFormed(products, id);
      }
      var before := products;
      products := CartProducts.Increment(before, id);
      persisted := Some(before);
    }

    method Decrement(id: string)
      modifies this
      ensures products == CartProducts.Decrement(old(products), id)
      ensures persisted == Some(old(products))
      ensures old(Valid()) ==> Valid()
    {
      if WellFormed(products) {
        DecrementKeepsWellFormed(products, id);
      }
      var before := products;
      products := CartProducts.Decrement(before, id);
      persisted := Some(before);
    }

    /**
     For a known id the source delegates to increment, which writes the old
     list, and then writes the same old list again; one write stands for both.
     */
    method AddToCart(item: Candidate<P>)
      modifies this
      ensures products == CartProducts.AddToCart(old(products), item)
      ensures persisted == Some(old(products))
      ensures old(Valid()) ==> Valid()
    {
      if WellFormed(products) {
        AddToCartKeepsWellFormed(products, item);
      }
      var before := products;
      products := CartProducts.AddToCart(before, item);
      persisted := Some(before);
    }
  }

  /** A short session from an empty device, checking what the caller sees after each step. */
  method Walkthrough() {
    var cart := new Cart<int>(None);
    cart.Hydrate();
    assert cart.products == [] && cart.persisted == None;

    var a := Candidate("a", "T", "u", 10);
    var one, two := Product("a", "T", "u", 10, 1), Product("a", "T", "u", 10, 2);
    AddToCartNew([], a);
    cart.AddToCart(a);
    assert cart.products == [one];
    assert cart.persisted == Some([]);

    IncrementPresent([one], "a", 0);
    cart.Increment("a");
    assert cart.products == [two];
    assert cart.persisted == Some([one]);

    DecrementPresent([two], "a", 0);
    cart.Decrement("a");
    assert cart.products == [one];

    DecrementPresent([one], "a", 0);
    cart.Decrement("a");
    assert cart.products == [];
    assert cart.persisted == Some([one]);

    DecrementAbsent<int>([], "a");
    cart.Decrement("a");
    assert cart.products == [] && cart.persisted == Some([]);
  }
}
