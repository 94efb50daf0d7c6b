# Cart store model

A Dafny model of the shopping-cart store of a React Native storefront
(`src/hooks/cart.tsx`). The store keeps an ordered list of products, each a
line with `id`, `title`, `image_url`, `price` and `quantity`. It offers three
operations:

- `increment(id)` adds one to the matching line;
- `decrement(id)` takes one away and drops the line when it reaches zero;
- `addToCart(product)` increments a known id and otherwise appends a line holding one unit.

At start-up the store loads its list from device storage once and then
clears storage. After every operation it writes a list to storage, but that
list is the one the operation started from, so the stored copy always lags
one step behind the list on screen.

The model has two modules:

- `CartProducts` (`cart_products.dfy`) holds the list transforms as pure
  functions over `seq<Product<P>>`. `Find` is the `find`, `AdjustQuantity` the
  `map`, `RemoveEmptied` the `filter`, and `Increment`, `Decrement` and
  `AddToCart` are built from them exactly as the source builds them.
  `WellFormed` is the cart invariant: ids are pairwise distinct and every
  quantity is at least 1. Lemmas state each operation's behaviour on absent
  and present ids. They also show that a decrement undoes an increment on any
  well-formed cart, and that an increment undoes a decrement unless the
  decrement removed the line (quantity 1). Finally they prove that the
  invariant holds after any sequence of operations (`Run`) started from the
  empty cart.
- `CartStore` (`cart_store.dfy`) holds the provider state as a class `Cart`.
  It has two fields: `products`, the list the views read, and `persisted`,
  the value under the storage key (`None` once cleared). Each method sets
  `products` to the transform of the old list and `persisted` to the old list
  itself; this is the stale snapshot. `Hydrate` adopts a stored list if there
  is one and then clears storage. Every method keeps `Valid()`, the invariant
  on both fields.

The price is a type parameter `P`: the store only copies it. A quantity is an
`int`.

## Model

| member | source | states |
|---|---|---|
| CartProducts.Find | src/hooks/cart.tsx:43-45 | a result is found exactly when some line has the id; the line found has that id and is the first such line of the cart |
| CartProducts.AdjustQuantity | src/hooks/cart.tsx:47-49 | same length and order; each line keeps all fields but quantity; its quantity moves by `delta` exactly when its id matches |
| CartProducts.RemoveEmptied | src/hooks/cart.tsx:67-69 | no surviving line is a zero-quantity line of the id; every other line of the input survives; the result is no longer than the input |
| CartProducts.RemoveEmptiedConcat | src/hooks/cart.tsx:67-69 | the filter works line by line: filtering a concatenation concatenates the filtered parts, so order is kept |
| CartProducts.RemoveEmptiedKeepsAll | src/hooks/cart.tsx:67-69 | when no line is a zero-quantity line of the id, the filter returns its input unchanged |
| CartProducts.IncrementAbsent | src/hooks/cart.tsx:43-51 | increment of an id that no line carries leaves the list unchanged |
| CartProducts.IncrementPresent | src/hooks/cart.tsx:46-49 | with distinct ids, increment adds one to the matching line's quantity; every other field, every other line, the length and the order stay the same |
| CartProducts.IncrementKeepsWellFormed | src/hooks/cart.tsx:46-50 | increment keeps ids distinct and quantities at least 1 |
| CartProducts.DecrementAbsent | src/hooks/cart.tsx:59-69 | decrement of an id that no line carries leaves the list unchanged; the filter removes nothing |
| CartProducts.DecrementPresent | src/hooks/cart.tsx:62-69 | with distinct ids, decrement removes the matching line exactly when its quantity was 1; otherwise it lowers that quantity by one; all other lines stay, in order |
| CartProducts.DecrementKeepsWellFormed | src/hooks/cart.tsx:62-69 | decrement keeps ids distinct and quantities at least 1 |
| CartProducts.AddToCartNew | src/hooks/cart.tsx:78-83 | for a new id, exactly one line is appended; it copies id, title, image and price and has quantity 1; the old lines form the unchanged prefix |
| CartProducts.AddToCartExisting | src/hooks/cart.tsx:78-82 | for an id already present, adding equals incrementing that id and keeps the length |
| CartProducts.AddToCartKeepsWellFormed | src/hooks/cart.tsx:78-83 | adding keeps ids distinct and quantities at least 1 |
| CartProducts.DecrementUndoesIncrement | src/hooks/cart.tsx:46-69 | on a well-formed cart, decrement after increment of the same id returns the original cart |
| CartProducts.IncrementUndoesDecrement | src/hooks/cart.tsx:46-69 | on a well-formed cart whose line for the id does not hold exactly 1, increment after decrement returns the original cart |
| CartProducts.ApplyKeepsWellFormed | src/hooks/cart.tsx:41-88 | each of the three operations keeps the cart invariant |
| CartProducts.RunKeepsWellFormed | src/hooks/cart.tsx:41-88 | any sequence of operations from a well-formed cart ends in a well-formed cart |
| CartProducts.EmptyCartStaysWellFormed | src/hooks/cart.tsx:29 | from the initial empty list, any sequence of operations leaves ids distinct and every quantity at least 1 |
| CartStore.Cart.constructor | src/hooks/cart.tsx:29 | the provider starts with an empty list beside whatever storage holds; it is valid exactly when the stored list, if any, is well-formed |
| CartStore.Cart.Hydrate | src/hooks/cart.tsx:32-36 | the list becomes the stored one if a stored value exists, else is unchanged; storage is cleared either way; validity is kept |
| CartStore.Cart.Increment | src/hooks/cart.tsx:41-55 | the list becomes its increment; storage receives the list from before the call; validity is kept |
| CartStore.Cart.Decrement | src/hooks/cart.tsx:57-74 | the list becomes its decrement; storage receives the list from before the call; validity is kept |
| CartStore.Cart.AddToCart | src/hooks/cart.tsx:76-88 | the list becomes the result of adding the product; storage receives the list from before the call; validity is kept |

## Left out

- React plumbing (`createContext`, `useState`, `useEffect`, `useCallback`, `useMemo`, the provider element) is not modelled. Only the state it manages is.
- The null-context guard of `useCart` (src/hooks/cart.tsx:98-106) is a framework usage check and is not modelled.
- Storage calls and JSON encoding (`getItem`, `setItem`, `clear`, `JSON.stringify`, `JSON.parse`) are I/O into a library outside the model. Storage is the abstract field `persisted`. So the JSON round trip and malformed stored data are not modelled.
- `clear()` wipes every key of the device storage, not just the cart's. The model has only the cart's key.
- Hydration adopts a stored value whenever one exists. The source also skips an empty string, which the store itself never writes.
- In the source, the add-to-cart path for a known id writes the old list twice (once in `increment`, once in `addToCart`). The model makes one write of the same value.
- Async interleaving is not modelled. This covers a hydration that finishes after a user operation, rapid calls that overlap at the storage write, and storage failures. Each operation in the model sees the list left by the previous one, as sequential handling with a re-render in between gives.
- Floating-point behaviour of `price` and `quantity` is not modelled. The price is an opaque type parameter and the quantity an unbounded integer. The two agree for quantities below 2^53.
- CartProducts.IncrementPresent, CartProducts.DecrementPresent: stated for carts with distinct ids. The source maps over every line with the id, which `AdjustQuantity` states for any cart.
