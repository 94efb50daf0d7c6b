/**
 The list transforms of the cart store: the ordered list of products and the
 three ways the store rewrites it (increment, decrement, add to cart), the
 invariant those rewrites keep, and sessions of several rewrites in a row.
 */
module CartProducts {

  datatype Option<T> = None | Some(value: T)

  /** One cart line. The price is only ever copied, so its type is left open. */
  datatype Product<P> = Product(id: string, title: string, imageUrl: string, price: P, quantity: int)

  /** What addToCart receives: a product without a quantity. */
  datatype Candidate<P> = Candidate(id: string, title: string, imageUrl: string, price: P)

  /** Some line of the cart carries the identifier `id`. */
  ghost predicate HasId<P>(products: seq<Product<P>>, id: string) {
    exists i :: 0 <= i < |products| && products[i].id == id
  }

  /** No two lines share an identifier. */
  ghost predicate UniqueIds<P>(products: seq<Product<P>>) {
    forall i, j :: 0 <= i < j < |products| ==> products[i].id != products[j].id
  }

  /** Every line holds at least one unit. */
  ghost predicate AllPositive<P>(products: seq<Product<P>>) {
    forall i :: 0 <= i < |products| ==> products[i].quantity >= 1
  }

  /** The invariant of every cart the store can reach from the empty cart. */
  ghost predicate WellFormed<P>(products: seq<Product<P>>) {
    UniqueIds(products) && AllPositive(products)
  }

  /** The `find` that each operation starts with: the first line whose id is `id`, if any. */
  function Find<P>(products: seq<Product<P>>, id: string): (r: Option<Product<P>>)
    ensures r.Some? <==> HasId(products, id)
    ensures r.Some? ==> r.value.id == id && r.value in products
    ensures r.Some? ==> exists k :: 0 <= k < |products| && products[k] == r.value && IdAbsentBefore(products, id, k)
  {
    if products == [] then None
    else if products[0].id == id then Some(products[0])
    else
      var rest := Find(products[1..], id);
      assert HasId(products[1..], id) ==> HasId(products, id) by {
        if HasId(products[1..], id) {
          var k :| 0 <= k < |products[1..]| && products[1..][k].id == id;
          assert products[k + 1].id == id;
        }
      }
      assert rest.Some? ==> exists k :: 0 <= k < |products| && products[k] == rest.value && IdAbsentBefore(products, id, k) by {
        if rest.Some? {
          var k :| 0 <= k < |products[1..]| && products[1..][k] == rest.value && IdAbsentBefore(products[1..], id, k);
          assert products[k + 1] == rest.value;
          assert forall j :: 1 <= j < k + 1 ==> products[j] == products[1..][j - 1];
          assert IdAbsentBefore(products, id, k + 1);
        }
      }
      rest
  }

  /** No line before position `k` carries the identifier `id`. */
  ghost predicate IdAbsentBefore<P>(products: seq<Product<P>>, id: string, k: int)
    requires 0 <= k <= |products|
  {
    forall j :: 0 <= j < k ==> products[j].id != id
  }

  /** The `map` of increment and decrement: adds `delta` to the quantity of every line whose id is `id`. */
  function AdjustQuantity<P>(products: seq<Product<P>>, id: string, delta: int): (r: seq<Product<P>>)
    ensures |r| == |products|
    ensures forall i :: 0 <= i < |r| ==> r[i] == products[i].(quantity := r[i].quantity)
    ensures forall i :: 0 <= i < |r| ==>
      r[i].quantity == if products[i].id == id then products[i].quantity + delta else products[i].quantity
  {
    seq(|products|, i requires 0 <= i < |products| =>
      if products[i].id == id then products[i].(quantity := products[i].quantity + delta) else products[i])
  }

  /** The `filter` of decrement: drops every line whose id is `id` and whose quantity is exactly 0, keeping the rest in order. */
  function RemoveEmptied<P>(products: seq<Product<P>>, id: string): (r: seq<Product<P>>)
    ensures |r| <= |products|
    ensures forall k :: 0 <= k < |r| ==> r[k] in products && !(r[k].id == id && r[k].quantity == 0)
    ensures forall k :: 0 <= k < |products| && !(products[k].id == id && products[k].quantity == 0) ==> products[k] in r
  {
    if products == [] then []
    else
      var head := products[0];
      var rest := RemoveEmptied(products[1..], id);
      assert products == [head] + products[1..];
      if head.id == id && head.quantity == 0 then rest else [head] + rest
  }

  function Increment<P>(products: seq<Product<P>>, id: string): (r: seq<Product<P>>) {
    if Find(products, id).Some? then AdjustQuantity(products, id, 1) else products
  }

  function Decrement<P>(products: seq<Product<P>>, id: string): (r: seq<Product<P>>) {
    var decremented := if Find(products, id).Some? then AdjustQuantity(products, id, -1) else products;
    RemoveEmptied(decremented, id)
  }

  /** The line addToCart appends for a product the cart does not hold yet. */
  function FirstUnit<P>(item: Candidate<P>): (r: Product<P>) {
    Product(item.id, item.title, item.imageUrl, item.price, 1)
  }

  function AddToCart<P>(products: seq<Product<P>>, item: Candidate<P>): (r: seq<Product<P>>) {
    match Find(products, item.id)
    case Some(existing) => Increment(products, existing.id)
    case None => products + [FirstUnit(item)]
  }

  // ---------------------------------------------------------------------
  // The filter

  lemma {:induction false} RemoveEmptiedConcat<P>(a: seq<Product<P>>, b: seq<Product<P>>, id: string)
    ensures RemoveEmptied(a + b, id) == RemoveEmptied(a, id) + RemoveEmptied(b, id)
  {
    if a != [] {
      assert (a + b)[1..] == a[1..] + b;
      RemoveEmptiedConcat(a[1..], b, id);
    } else {
      assert a + b == b;
    }
  }

  /** The filter removes nothing when no line is an emptied line of `id`. */
  lemma {:induction false} RemoveEmptiedKeepsAll<P>(products: seq<Product<P>>, id: string)
    requires forall i :: 0 <= i < |products| ==> !(products[i].id == id && products[i].quantity == 0)
    ensures RemoveEmptied(products, id) == products
  {
    if products != [] {
      RemoveEmptiedKeepsAll(products[1..], id);
      assert products == [products[0]] + products[1..];
    }
  }

  // ---------------------------------------------------------------------
  // Increment

  lemma IncrementAbsent<P>(products: seq<Product<P>>, id: string)
    requires !HasId(products, id)
    ensures Increment(products, id) == products
  {
  }

  /** On a cart with unique ids, increment adds one to the matching line and changes nothing else. */
  lemma IncrementPresent<P>(products: seq<Product<P>>, id: string, i: int)
    requires UniqueIds(products)
    requires 0 <= i < |products| && products[i].id == id
    ensures Increment(products, id) == products[i := products[i].(quantity := products[i].quantity + 1)]
  {
    assert HasId(products, id);
    AdjustOnlyLine(products, id, i, 1);
  }

  /** With distinct ids, the `map` of increment and decrement changes the one line carrying the id. */
  lemma AdjustOnlyLine<P>(products: seq<Product<P>>, id: string, i: int, delta: int)
    requires UniqueIds(products)
    requires 0 <= i < |products| && products[i].id == id
    ensures AdjustQuantity(products, id, delta) == products[i := products[i].(quantity := products[i].quantity + delta)]
  {
    var r := AdjustQuantity(products, id, delta);
    var expected := products[i := products[i].(quantity := products[i].quantity + delta)];
    OnlyLineWithId(products, id, i);
    assert forall j :: 0 <= j < |products| ==> r[j] == expected[j];
  }

  lemma IncrementKeepsWellFormed<P>(products: seq<Product<P>>, id: string)
    requires WellFormed(products)
    ensures WellFormed(Increment(products, id))
  {
    var r := Increment(products, id);
    assert forall j :: 0 <= j < |r| ==> r[j].id == products[j].id;
    assert forall j :: 0 <= j < |r| ==> r[j].quantity >= products[j].quantity;
  }

  // ---------------------------------------------------------------------
  // Decrement

  lemma DecrementAbsent<P>(products: seq<Product<P>>, id: string)
    requires !HasId(products, id)
    ensures Decrement(products, id) == products
  {
    RemoveEmptiedKeepsAll(products, id);
  }

  /**
   On a cart with unique ids, decrement takes one from the matching line and
   removes that line exactly when its quantity reaches 0; every other line
   stays, in the same order.
   */
  lemma DecrementPresent<P>(products: seq<Product<P>>, id: string, i: int)
    requires UniqueIds(products)
    requires 0 <= i < |products| && products[i].id == id
    ensures products[i].quantity == 1 ==> Decrement(products, id) == products[..i] + products[i + 1..]
    ensures products[i].quantity != 1 ==>
      Decrement(products, id) == products[i := products[i].(quantity := products[i].quantity - 1)]
  {
    assert HasId(products, id);
    OnlyLineWithId(products, id, i);
    var lowered := products[i].(quantity := products[i].quantity - 1);
    calc {
      Decrement(products, id);
      RemoveEmptied(AdjustQuantity(products, id, -1), id);
      { AdjustOnlyLine(products, id, i, -1); }
      RemoveEmptied(products[i := lowered], id);
      { UpdateAsSplice(products, i, lowered); }
      RemoveEmptied(products[..i] + [lowered] + products[i + 1..], id);
      { RemoveEmptiedAround(products[..i], lowered, products[i + 1..], id); }
      if lowered.quantity == 0 then products[..i] + products[i + 1..] else products[..i] + [lowered] + products[i + 1..];
    }
    UpdateAsSplice(products, i, lowered);
  }

  lemma UpdateAsSplice<P>(products: seq<Product<P>>, i: int, x: Product<P>)
    requires 0 <= i < |products|
    ensures products[i := x] == products[..i] + [x] + products[i + 1..]
  {
  }

  /** With distinct ids, the line at `i` is the only one carrying its id. */
  lemma OnlyLineWithId<P>(products: seq<Product<P>>, id: string, i: int)
    requires UniqueIds(products)
    requires 0 <= i < |products| && products[i].id == id
    ensures forall j :: 0 <= j < |products| && j != i ==> products[j].id != id
  {
    forall j | 0 <= j < |products| && j != i
      ensures products[j].id != id
    {
      if j < i { assert products[j].id != products[i].id; }
      else { assert products[i].id != products[j].id; }
    }
  }

  /** Filtering a cart in which only the line `x` may carry `id` touches at most that line. */
  lemma RemoveEmptiedAround<P>(a: seq<Product<P>>, x: Product<P>, b: seq<Product<P>>, id: string)
    requires forall k :: 0 <= k < |a| ==> a[k].id != id
    requires forall k :: 0 <= k < |b| ==> b[k].id != id
    ensures RemoveEmptied(a + [x] + b, id) == if x.id == id && x.quantity == 0 then a + b else a + [x] + b
  {
    var middle: seq<Product<P>> := if x.id == id && x.quantity == 0 then [] else [x];
    assert RemoveEmptied([x], id) == middle by {
      assert [x][1..] == [];
    }
    calc {
      RemoveEmptied(a + [x] + b, id);
      { RemoveEmptiedConcat(a + [x], b, id); }
      RemoveEmptied(a + [x], id) + RemoveEmptied(b, id);
      { RemoveEmptiedConcat(a, [x], id); }
      RemoveEmptied(a, id) + middle + RemoveEmptied(b, id);
      { RemoveEmptiedKeepsAll(a, id); RemoveEmptiedKeepsAll(b, id); }
      a + middle + b;
    }
    if middle == [] {
      assert a + middle + b == a + b;
    }
  }

  lemma DecrementKeepsWellFormed<P>(products: seq<Product<P>>, id: string)
    requires WellFormed(products)
    ensures WellFormed(Decrement(products, id))
  {
    if !HasId(products, id) {
      DecrementAbsent(products, id);
    } else {
      var i :| 0 <= i < |products| && products[i].id == id;
      DecrementPresent(products, id, i);
      if products[i].quantity == 1 {
        RemoveLineKeepsWellFormed(products, i);
      } else {
        SetQuantityKeepsWellFormed(products, i, products[i].quantity - 1);
      }
    }
  }

  /** Changing one line's quantity keeps the ids, so they stay distinct. */
  lemma SetQuantityKeepsUniqueIds<P>(products: seq<Product<P>>, i: int, q: int)
    requires UniqueIds(products) && 0 <= i < |products|
    ensures UniqueIds(products[i := products[i].(quantity := q)])
  {
    var r := products[i := products[i].(quantity := q)];
    assert forall j :: 0 <= j < |r| ==> r[j].id == products[j].id;
  }

  lemma SetQuantityKeepsWellFormed<P>(products: seq<Product<P>>, i: int, q: int)
    requires WellFormed(products) && 0 <= i < |products| && q >= 1
    ensures WellFormed(products[i := products[i].(quantity := q)])
  {
    SetQuantityKeepsUniqueIds(products, i, q);
  }

  lemma RemoveLineKeepsWellFormed<P>(products: seq<Product<P>>, i: int)
    requires WellFormed(products) && 0 <= i < |products|
    ensures WellFormed(products[..i] + products[i + 1..])
  {
    var r := products[..i] + products[i + 1..];
    forall a | 0 <= a < |r|
      ensures r[a] == products[if a < i then a else a + 1]
    {
    }
    forall a, b | 0 <= a < b < |r|
      ensures r[a].id != r[b].id
    {
      assert r[a] == products[if a < i then a else a + 1];
      assert r[b] == products[if b < i then b else b + 1];
    }
  }

  // ---------------------------------------------------------------------
  // Add to cart

  /** A new id: exactly one line is appended, a copy of the candidate holding one unit; the prefix is untouched. */
  lemma AddToCartNew<P>(products: seq<Product<P>>, item: Candidate<P>)
    requires !HasId(products, item.id)
    ensures |AddToCart(products, item)| == |products| + 1
    ensures AddToCart(products, item)[..|products|] == products
    ensures AddToCart(products, item)[|products|] == Product(item.id, item.title, item.imageUrl, item.price, 1)
  {
  }

  /** A known id: adding is the same as incrementing, and the length is kept. */
  lemma AddToCartExisting<P>(products: seq<Product<P>>, item: Candidate<P>)
    requires HasId(products, item.id)
    ensures AddToCart(products, item) == Increment(products, item.id)
    ensures |AddToCart(products, item)| == |products|
  {
  }

  lemma AddToCartKeepsWellFormed<P>(products: seq<Product<P>>, item: Candidate<P>)
    requires WellFormed(products)
    ensures WellFormed(AddToCart(products, item))
  {
    if HasId(products, item.id) {
      IncrementKeepsWellFormed(products, item.id);
    } else {
      var r := AddToCart(products, item);
      forall i, j | 0 <= i < j < |r|
        ensures r[i].id != r[j].id
      {
        if j == |products| {
          assert r[i] == products[i];
        }
      }
    }
  }

  // ---------------------------------------------------------------------
  // Increment and decrement undo each other

  /** On a well-formed cart, a decrement right after an increment of the same id gives back the cart. */
  lemma DecrementUndoesIncrement<P>(products: seq<Product<P>>, id: string)
    requires WellFormed(products)
    ensures Decrement(Increment(products, id), id) == products
  {
    if !HasId(products, id) {
      IncrementAbsent(products, id);
      DecrementAbsent(products, id);
    } else {
      var i :| 0 <= i < |products| && products[i].id == id;
      DecrementUndoesIncrementAt(products, id, i);
    }
  }

  lemma DecrementUndoesIncrementAt<P>(products: seq<Product<P>>, id: string, i: int)
    requires UniqueIds(products)
    requires 0 <= i < |products| && products[i].id == id && products[i].quantity >= 1
    ensures Decrement(Increment(products, id), id) == products
  {
    var bumped := products[i := products[i].(quantity := products[i].quantity + 1)];
    IncrementPresent(products, id, i);
    SetQuantityKeepsUniqueIds(products, i, products[i].quantity + 1);
    DecrementPresent(bumped, id, i);
    assert bumped[i].(quantity := bumped[i].quantity - 1) == products[i];
    assert bumped[i := products[i]] == products;
  }

  /** An increment right after a decrement gives back the cart, unless the decrement removed a line. */
  lemma IncrementUndoesDecrement<P>(products: seq<Product<P>>, id: string)
    requires WellFormed(products)
    requires forall i :: 0 <= i < |products| && products[i].id == id ==> products[i].quantity != 1
    ensures Increment(Decrement(products, id), id) == products
  {
    if !HasId(products, id) {
      DecrementAbsent(products, id);
      IncrementAbsent(products, id);
    } else {
      var i :| 0 <= i < |products| && products[i].id == id;
      IncrementUndoesDecrementAt(products, id, i);
    }
  }

  lemma IncrementUndoesDecrementAt<P>(products: seq<Product<P>>, id: string, i: int)
    requires UniqueIds(products)
    requires 0 <= i < |products| && products[i].id == id && products[i].quantity != 1
    ensures Increment(Decrement(products, id), id) == products
  {
    var lowered := products[i := products[i].(quantity := products[i].quantity - 1)];
    DecrementPresent(products, id, i);
    SetQuantityKeepsUniqueIds(products, i, products[i].quantity - 1);
    IncrementPresent(lowered, id, i);
    assert lowered[i].(quantity := lowered[i].quantity + 1) == products[i];
    assert lowered[i := products[i]] == products;
  }

  // ---------------------------------------------------------------------
  // Sessions: any sequence of the three operations

  datatype Op<P> = Add(item: Candidate<P>) | Inc(id: string) | Dec(id: string)

  function Apply<P>(products: seq<Product<P>>, op: Op<P>): (r: seq<Product<P>>) {
    match op
    case Add(item) => AddToCart(products, item)
    case Inc(id) => Increment(products, id)
    case Dec(id) => Decrement(products, id)
  }

  function Run<P>(products: seq<Product<P>>, ops: seq<Op<P>>): (r: seq<Product<P>>)
    decreases |ops|
  {
    if ops == [] then products else Run(Apply(products, ops[0]), ops[1..])
  }

  lemma ApplyKeepsWellFormed<P>(products: seq<Product<P>>, op: Op<P>)
    requires WellFormed(products)
    ensures WellFormed(Apply(products, op))
  {
    match op
    case Add(item) => AddToCartKeepsWellFormed(products, item);
    case Inc(id) => IncrementKeepsWellFormed(products, id);
    case Dec(id) => DecrementKeepsWellFormed(products, id);
  }

  lemma {:induction false} RunKeepsWellFormed<P>(products: seq<Product<P>>, ops: seq<Op<P>>)
    requires WellFormed(products)
    ensures WellFormed(Run(products, ops))
    decreases |ops|
  {
    if ops != [] {
      ApplyKeepsWellFormed(products, ops[0]);
      RunKeepsWellFormed(Apply(products, ops[0]), ops[1..]);
    }
  }

  /** Starting from the empty cart, ids stay distinct and every quantity stays at least 1. */
  lemma {:induction false} EmptyCartStaysWellFormed<P>(ops: seq<Op<P>>)
    ensures UniqueIds(Run([], ops))
    ensures AllPositive(Run([], ops))
  {
    RunKeepsWellFormed([], ops);
  }
}
