/** The cart contents both cart providers keep (context/cart/CartProvider.tsx
    and context/othercontext/CartProvider.tsx): a list of lines, each a
    product with a quantity, identified by the product id. Removing a line,
    setting a quantity, clearing and counting items are the same code in
    both providers and are defined here once; the providers differ in how
    they add a product. */
module CartLines {
  import opened Transport
  import opened Lists
  import opened Keyed

  /** A product as it is put into the cart (`Omit<CartItem, 'quantity'>`).
      Only the id is ever read; the other fields are carried as given, and
      those a caller may leave out are optional. */
  datatype Product = Product(
    id: int,
    title: string,
    description: Option<string>,
    price: string,
    image: string,
    category: string,
    sellerId: Option<int>,
    createdAt: Option<string>)

  /** A cart line (`CartItem`): the product's fields and a quantity. */
  datatype Line = Line(item: Product, quantity: int)

  function LineId(l: Line): int
  {
    l.item.id
  }

  function Quantity(l: Line): int
  {
    l.quantity
  }

  /** The shape every cart operation keeps: one line per product id, each
      with at least one unit. */
  ghost predicate Valid(lines: seq<Line>)
  {
    Unique(lines, LineId) && forall i :: 0 <= i < |lines| ==> lines[i].quantity >= 1
  }

  /** The number of units in the cart (`getTotalItems`); for a valid cart it
      is at least the number of lines. */
  function TotalItems(lines: seq<Line>): (n: int)
    ensures (forall i :: 0 <= i < |lines| ==> lines[i].quantity >= 0) ==> n >= 0
    ensures Valid(lines) ==> n >= |lines|
  {
    assert Valid(lines) ==> Sum(lines, Quantity) >= |lines| by {
      if Valid(lines) {
        SumAtLeastLength(lines, Quantity);
      }
    }
    assert (forall i :: 0 <= i < |lines| ==> lines[i].quantity >= 0) ==> Sum(lines, Quantity) >= 0 by {
      if forall i :: 0 <= i < |lines| ==> lines[i].quantity >= 0 {
        SumNonNegative(lines, Quantity);
      }
    }
    Sum(lines, Quantity)
  }

  /** `removeFromCart`: every line of that product goes; every other line
      stays, in order. */
  function RemoveFromCart(lines: seq<Line>, id: int): (r: seq<Line>)
    ensures !Has(r, LineId, id)
    ensures forall i :: 0 <= i < |lines| && lines[i].item.id != id ==> lines[i] in r
    ensures forall i :: 0 <= i < |r| ==> r[i] in lines
    ensures !Has(lines, LineId, id) ==> r == lines
  {
    Without(lines, LineId, id)
  }

  /** In a valid cart, removing the product of the line at `p` takes out
      exactly that line and keeps the others in their order. */
  lemma RemoveFromCartKeepsOrder(lines: seq<Line>, p: int)
    requires Valid(lines)
    requires 0 <= p < |lines|
    ensures RemoveFromCart(lines, lines[p].item.id) == lines[..p] + lines[p + 1..]
  {
    WithoutUniqueAt(lines, LineId, p);
  }

  /** Removing a product from a valid cart keeps it valid and takes exactly
      that line's units off the total. */
  lemma RemoveFromCartKeepsValid(lines: seq<Line>, p: int)
    requires Valid(lines)
    requires 0 <= p < |lines|
    ensures Valid(RemoveFromCart(lines, lines[p].item.id))
    ensures TotalItems(RemoveFromCart(lines, lines[p].item.id)) == TotalItems(lines) - lines[p].quantity
  {
    var r := RemoveFromCart(lines, lines[p].item.id);
    WithoutKeepsUnique(lines, LineId, lines[p].item.id);
    assert forall i :: 0 <= i < |r| ==> r[i] in lines;
    SumWithoutUnique(lines, LineId, p, Quantity);
  }

  /** The change `updateQuantity` makes to a line it matches. */
  function SetQuantity(q: int): Line -> Line
  {
    (l: Line) => l.(quantity := q)
  }

  /** `updateQuantity`: a quantity of zero or less removes the product;
      otherwise every line of that product takes the new quantity and
      nothing else changes. */
  function UpdateQuantity(lines: seq<Line>, id: int, q: int): (r: seq<Line>)
    ensures q <= 0 ==> r == RemoveFromCart(lines, id)
    ensures q > 0 ==> |r| == |lines|
    ensures q > 0 ==> forall i :: 0 <= i < |lines| ==>
              r[i] == if lines[i].item.id == id then lines[i].(quantity := q) else lines[i]
  {
    if q <= 0 then RemoveFromCart(lines, id)
    else Update(lines, LineId, id, SetQuantity(q))
  }

  /** Setting a listed product's quantity keeps a valid cart valid and moves
      the total by the difference between the new and the old quantity. */
  lemma UpdateQuantityKeepsValid(lines: seq<Line>, p: int, q: int)
    requires Valid(lines)
    requires 0 <= p < |lines|
    ensures Valid(UpdateQuantity(lines, lines[p].item.id, q))
    ensures q > 0 ==> TotalItems(UpdateQuantity(lines, lines[p].item.id, q)) == TotalItems(lines) - lines[p].quantity + q
    ensures q <= 0 ==> TotalItems(UpdateQuantity(lines, lines[p].item.id, q)) == TotalItems(lines) - lines[p].quantity
  {
    var id := lines[p].item.id;
    if q <= 0 {
      RemoveFromCartKeepsValid(lines, p);
    } else {
      UpdateKeepsKeys(lines, LineId, id, SetQuantity(q));
      SumUpdateUnique(lines, LineId, p, SetQuantity(q), Quantity);
    }
  }

  /** `clearCart`: no product is left and the cart holds no units. */
  function ClearCart(): (r: seq<Line>)
    ensures forall id :: !Has(r, LineId, id)
    ensures TotalItems(r) == 0
    ensures Valid(r)
  {
    []
  }
}
