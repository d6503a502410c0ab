/** The per-user cart (context/cart/CartProvider.tsx): the list is stored
    under the signed-in user's key and adding a product that is already in
    the cart does nothing. Removal, quantity updates, clearing and the item
    count are those of `CartLines`; the key is `Persisted.StorageKey` with
    base `cart` and the load is `Persisted.Restore`. */
module UserCart {
  import opened Lists
  import opened Keyed
  import opened CartLines

  /** `addToCart`: a product not yet in the cart is appended with quantity
      one; a product already in it leaves the cart unchanged. */
  function AddToCart(lines: seq<Line>, p: Product): (r: seq<Line>)
    ensures Has(r, LineId, p.id)
    ensures Has(lines, LineId, p.id) ==> r == lines
    ensures !Has(lines, LineId, p.id) ==> r == lines + [Line(p, 1)]
  {
    AddIfAbsent(lines, LineId, Line(p, 1))
  }

  /** Adding keeps a valid cart valid and adds one unit exactly when the
      product was not in the cart yet. */
  lemma AddToCartKeepsValid(lines: seq<Line>, p: Product)
    requires Valid(lines)
    ensures Valid(AddToCart(lines, p))
    ensures TotalItems(AddToCart(lines, p)) == TotalItems(lines) + (if Has(lines, LineId, p.id) then 0 else 1)
  {
    if !Has(lines, LineId, p.id) {
      AppendLine(lines, Line(p, 1));
    }
  }

  /** Appending a line for a product not yet in a valid cart keeps it valid
      and adds that line's units. */
  lemma AppendLine(lines: seq<Line>, l: Line)
    requires Valid(lines) && !Has(lines, LineId, l.item.id) && l.quantity >= 1
    ensures Valid(lines + [l])
    ensures TotalItems(lines + [l]) == TotalItems(lines) + l.quantity
  {
    var r := lines + [l];
    AddIfAbsentKeepsUnique(lines, LineId, l);
    SumAppend(lines, [l], Quantity);
    assert [l][..0] == [];
    forall i | 0 <= i < |r|
      ensures r[i].quantity >= 1
    {
      if i < |lines| {
        assert r[i] == lines[i];
      }
    }
  }

  /** Adding the same product twice is adding it once. */
  lemma AddToCartIdempotent(lines: seq<Line>, p: Product)
    ensures AddToCart(AddToCart(lines, p), p) == AddToCart(lines, p)
  {
  }
}
