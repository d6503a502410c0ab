/** The single-key cart (context/othercontext/CartProvider.tsx): the list is
    stored under the fixed key `cart`, and adding a product already in the
    cart adds the given quantity to its line. Removal, quantity updates,
    clearing and the item count are those of `CartLines`; the load on mount
    is `Persisted.RestoreOnMount`. */
module MergingCart {
  import opened Lists
  import opened Keyed
  import opened CartLines

  /** The storage key of this provider. */
  const CartKey: string := "cart"

  /** The change a repeated add makes to the line it matches. */
  function AddQuantity(q: int): Line -> Line
  {
    (l: Line) => l.(quantity := l.quantity + q)
  }

  /** `addToCart(item, quantity = 1)`: a product not yet in the cart is
      appended with the given quantity; otherwise every line of that product
      gains the quantity, keeping the product fields it was stored with. */
  function AddToCart(lines: seq<Line>, p: Product, quantity: int := 1): (r: seq<Line>)
    ensures Has(r, LineId, p.id)
    ensures !Has(lines, LineId, p.id) ==> r == lines + [Line(p, quantity)]
    ensures Has(lines, LineId, p.id) ==> |r| == |lines| && forall i :: 0 <= i < |lines| ==>
              r[i] == if lines[i].item.id == p.id then lines[i].(quantity := lines[i].quantity + quantity) else lines[i]
  {
    if Has(lines, LineId, p.id) then
      var r := Update(lines, LineId, p.id, AddQuantity(quantity));
      var i :| 0 <= i < |lines| && lines[i].item.id == p.id;
      assert LineId(r[i]) == p.id;
      r
    else
      var r := lines + [Line(p, quantity)];
      assert LineId(r[|lines|]) == p.id;
      r
  }

  /** With one line per product, an add raises the item count by exactly
      the quantity added and keeps one line per product; with a positive
      quantity a valid cart stays valid. */
  lemma AddToCartCounts(lines: seq<Line>, p: Product, quantity: int)
    requires Unique(lines, LineId)
    ensures Unique(AddToCart(lines, p, quantity), LineId)
    ensures TotalItems(AddToCart(lines, p, quantity)) == TotalItems(lines) + quantity
    ensures Valid(lines) && quantity >= 1 ==> Valid(AddToCart(lines, p, quantity))
  {
    var r := AddToCart(lines, p, quantity);
    if Has(lines, LineId, p.id) {
      var i :| 0 <= i < |lines| && lines[i].item.id == p.id;
      UpdateKeepsKeys(lines, LineId, p.id, AddQuantity(quantity));
      SumUpdateUnique(lines, LineId, i, AddQuantity(quantity), Quantity);
    } else {
      AddIfAbsentKeepsUnique(lines, LineId, Line(p, quantity));
      SumAppend(lines, [Line(p, quantity)], Quantity);
      assert [Line(p, quantity)][..0] == [];
      assert forall i :: 0 <= i < |lines| ==> r[i] == lines[i];
    }
  }

  /** Two adds of one product are one add of the summed quantity: the
      first add's line is the one the second add merges into. */
  lemma AddToCartMerges(lines: seq<Line>, p: Product, a: int, b: int)
    ensures AddToCart(AddToCart(lines, p, a), p, b) == AddToCart(lines, p, a + b)
  {
    var once := AddToCart(lines, p, a);
    var twice := AddToCart(once, p, b);
    var merged := AddToCart(lines, p, a + b);
    assert |twice| == |merged|;
    forall i | 0 <= i < |twice|
      ensures twice[i] == merged[i]
    {
      if i < |lines| && !Has(lines, LineId, p.id) {
        assert once[i] == lines[i];
        assert lines[i].item.id != p.id;
      }
    }
  }
}
