/** The product page (components/productPreview/ProductDetail.tsx): the
    photo carousel's cyclic index, the keyboard mapping, and the cart and
    favourite buttons, which hand a product to the per-user cart and
    favourites providers. */
module ProductDetail {
  import opened Transport
  import opened Keyed
  import CartLines
  import UserCart
  import Favorites

  /** The product as the page holds it once fetched. */
  datatype Product = Product(
    id: int,
    title: string,
    categoryName: string,
    price: string,
    images: seq<string>,
    description: Option<string>)

  /** `nextPhoto`: the index moves one on and wraps from the last photo to
      the first. It acts only when a product with an image list is loaded;
      `count` is that list's length, `None` before then. */
  function NextPhoto(count: Option<nat>, index: int): (r: int)
    ensures count.None? ==> r == index
    ensures count.Some? && 0 <= index < count.value ==> r == (index + 1) % count.value
  {
    match count
    case None => index
    case Some(n) => if index == n - 1 then 0 else index + 1
  }

  /** `prevPhoto`: the index moves one back and wraps from the first photo
      to the last. */
  function PrevPhoto(count: Option<nat>, index: int): (r: int)
    ensures count.None? ==> r == index
    ensures count.Some? && 0 <= index < count.value ==> r == (index - 1) % count.value
  {
    match count
    case None => index
    case Some(n) => if index == 0 then n - 1 else index - 1
  }

  /** With at least one photo the index stays on a photo, and a step back
      undoes a step forward and the other way round. */
  lemma PhotoStepsInverse(n: nat, index: int)
    requires 1 <= n && 0 <= index < n
    ensures 0 <= NextPhoto(Some(n), index) < n && 0 <= PrevPhoto(Some(n), index) < n
    ensures PrevPhoto(Some(n), NextPhoto(Some(n), index)) == index
    ensures NextPhoto(Some(n), PrevPhoto(Some(n), index)) == index
  {
  }

  /** An empty image list is still a list, so the guard lets the step
      through and the index leaves the (empty) range; stepping back from 0
      gives -1. */
  lemma EmptyImagesLeaveRange()
    ensures NextPhoto(Some(0), 0) == 1
    ensures PrevPhoto(Some(0), 0) == -1
  {
  }

  /** The carousel: the current photo index and whether the lightbox is
      open. */
  datatype Viewer = Viewer(index: int, lightbox: bool)

  /** `handleKeyDown`: the arrows step the photos, Escape closes an open
      lightbox, Enter opens a closed one, and any other key does nothing. */
  function HandleKeyDown(v: Viewer, key: string, count: Option<nat>): (r: Viewer)
    ensures key == "ArrowLeft" ==> r == v.(index := PrevPhoto(count, v.index))
    ensures key == "ArrowRight" ==> r == v.(index := NextPhoto(count, v.index))
    ensures key == "Escape" ==> r == v.(lightbox := false)
    ensures key == "Enter" ==> r == v.(lightbox := true)
    ensures key !in {"ArrowLeft", "ArrowRight", "Escape", "Enter"} ==> r == v
    ensures r.index != v.index ==> key in {"ArrowLeft", "ArrowRight"}
  {
    if key == "ArrowLeft" then v.(index := PrevPhoto(count, v.index))
    else if key == "ArrowRight" then v.(index := NextPhoto(count, v.index))
    else if key == "Escape" && v.lightbox then v.(lightbox := false)
    else if key == "Enter" && !v.lightbox then v.(lightbox := true)
    else v
  }

  /** With at least one photo, no sequence of keys takes the index off the
      photos. */
  lemma {:induction false} KeysKeepIndexInRange(v: Viewer, keys: seq<string>, n: nat)
    requires 1 <= n && 0 <= v.index < n
    ensures 0 <= Replay(v, keys, Some(n)).index < n
    decreases |keys|
  {
    if |keys| > 0 {
      var next := HandleKeyDown(v, keys[0], Some(n));
      PhotoStepsInverse(n, v.index);
      KeysKeepIndexInRange(next, keys[1..], n);
    }
  }

  /** The viewer after a sequence of key presses. */
  function Replay(v: Viewer, keys: seq<string>, count: Option<nat>): Viewer
    decreases |keys|
  {
    if |keys| == 0 then v else Replay(HandleKeyDown(v, keys[0], count), keys[1..], count)
  }

  /** The placeholder a product without a first image shows in the cart and
      the favourites. */
  const NoImage: string := "/api/placeholder/300/200?text=No+Image"

  /** `product.images[0] || placeholder`. */
  function CoverImage(images: seq<string>): (r: string)
    ensures r != ""
    ensures |images| > 0 && images[0] != "" ==> r == images[0]
    ensures |images| == 0 || images[0] == "" ==> r == NoImage
  {
    if |images| > 0 && images[0] != "" then images[0] else NoImage
  }

  /** The cart item the page builds from its product. */
  function CartItem(p: Product): CartLines.Product
  {
    CartLines.Product(p.id, p.title, p.description, p.price, CoverImage(p.images), p.categoryName, None, None)
  }

  /** The favourite the page builds from its product. */
  function FavoriteItem(p: Product): Favorites.Favorite
  {
    Favorites.Favorite(p.id, p.title, p.price, CoverImage(p.images), Some(p.categoryName))
  }

  /** The cart after a click, and the alert shown. */
  datatype CartClick = CartClick(cart: seq<CartLines.Line>, alert: Option<string>)

  const AlreadyInCartAlert: string := "This item is already in your cart!"
  const AddedAlert: string := "Added to cart!"

  /** `handleAddToCart`: with no product nothing happens; a product already
      in the cart only raises an alert; otherwise it is added and the page
      confirms. The page's own check agrees with the provider's: the cart
      ends up as the provider's `addToCart` leaves it in every case. */
  function HandleAddToCart(product: Option<Product>, cart: seq<CartLines.Line>): (r: CartClick)
    ensures product.None? ==> r == CartClick(cart, None)
    ensures product.Some? ==> r.cart == UserCart.AddToCart(cart, CartItem(product.value))
    ensures product.Some? && Has(cart, CartLines.LineId, product.value.id) ==>
              r.cart == cart && r.alert == Some(AlreadyInCartAlert)
    ensures product.Some? && !Has(cart, CartLines.LineId, product.value.id) ==>
              |r.cart| == |cart| + 1 && r.alert == Some(AddedAlert)
  {
    match product
    case None => CartClick(cart, None)
    case Some(p) =>
      if Has(cart, CartLines.LineId, p.id) then CartClick(cart, Some(AlreadyInCartAlert))
      else CartClick(UserCart.AddToCart(cart, CartItem(p)), Some(AddedAlert))
  }

  /** `handleToggleFavorite`: the product's id flips between listed and not
      listed; without a product nothing changes. */
  function HandleToggleFavorite(product: Option<Product>, favorites: seq<Favorites.Favorite>): (r: seq<Favorites.Favorite>)
    ensures product.None? ==> r == favorites
    ensures product.Some? ==>
              (Favorites.IsFavorite(r, product.value.id) <==> !Favorites.IsFavorite(favorites, product.value.id))
    ensures product.Some? ==> forall id :: id != product.value.id ==>
              (Favorites.IsFavorite(r, id) <==> Favorites.IsFavorite(favorites, id))
  {
    match product
    case None => favorites
    case Some(p) => Favorites.ToggleFavorite(favorites, FavoriteItem(p))
  }
}
