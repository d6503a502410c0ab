/** The home page product grid (components/home/Defualt.tsx): the query it
    sends for the selected category and search text, how it turns backend
    records into grid products, what a failed fetch leaves, the once-only
    image fallback, and where a product click leads.

    The debounce timer, `URLSearchParams` percent-encoding and price
    formatting are outside the model; the fetch is its settled result. */
module ProductGrid {
  import opened Transport
  import opened Text

  /** The backend origin image paths are prefixed with. */
  const Host: string := "http://localhost:5000"

  /** The image shown when a product has none or its image fails. */
  const NoImage: string := "https://via.placeholder.com/150x120/f0f0f0/666666?text=No+Image"

  /** The query parameters the grid may send. */
  datatype ParamName = Category | BrandSearch | Fuzzy | Limit {
    /** The name as it appears in the query string. */
    function Key(): string
    {
      match this
      case Category => "category"
      case BrandSearch => "brand_search"
      case Fuzzy => "fuzzy"
      case Limit => "limit"
    }
  }

  /** One query parameter, in the order appended. */
  datatype Param = Param(name: ParamName, value: string)

  /** Some parameter has that name. */
  predicate HasParam(ps: seq<Param>, name: ParamName)
  {
    exists i :: 0 <= i < |ps| && ps[i].name == name
  }

  /** The query of the product fetch: `category` when a category is
      selected, `brand_search` with the trimmed search text and `fuzzy=true`
      when that text is not blank, and always `limit=50`, last. */
  function QueryParams(selectedCategory: string, searchText: string): (r: seq<Param>)
    ensures 1 <= |r| <= 4 && r[|r| - 1] == Param(Limit, "50")
  {
    var search := Trim(searchText);
    var limit := Param(Limit, "50");
    if selectedCategory != "" then
      if search != "" then [Param(Category, selectedCategory), Param(BrandSearch, search), Param(Fuzzy, "true"), limit]
      else [Param(Category, selectedCategory), limit]
    else
      if search != "" then [Param(BrandSearch, search), Param(Fuzzy, "true"), limit]
      else [limit]
  }

  /** What each parameter of the query holds: `limit` appears only last,
      `category` is the selected category, `brand_search` the trimmed
      search text and `fuzzy` is `true`. */
  lemma QueryParamsValues(selectedCategory: string, searchText: string)
    ensures var r := QueryParams(selectedCategory, searchText);
            && (forall i :: 0 <= i < |r| - 1 ==> r[i].name != Limit)
            && (forall i :: 0 <= i < |r| && r[i].name == Category ==> r[i].value == selectedCategory)
            && (forall i :: 0 <= i < |r| && r[i].name == BrandSearch ==> r[i].value == Trim(searchText))
            && (forall i :: 0 <= i < |r| && r[i].name == Fuzzy ==> r[i].value == "true")
  {
    var r := QueryParams(selectedCategory, searchText);
    var search := Trim(searchText);
    if selectedCategory != "" && search != "" {
      assert r == [Param(Category, selectedCategory), Param(BrandSearch, search), Param(Fuzzy, "true"), Param(Limit, "50")];
    } else if selectedCategory != "" {
      assert r == [Param(Category, selectedCategory), Param(Limit, "50")];
    } else if search != "" {
      assert r == [Param(BrandSearch, search), Param(Fuzzy, "true"), Param(Limit, "50")];
    } else {
      assert r == [Param(Limit, "50")];
    }
  }

  /** Which parameters the query carries: `category` exactly when a
      category is selected, `brand_search` exactly when the search text is
      not blank, and `fuzzy` exactly alongside `brand_search`. */
  lemma QueryParamsPresence(selectedCategory: string, searchText: string)
    ensures var r := QueryParams(selectedCategory, searchText);
            && (HasParam(r, Category) <==> selectedCategory != "")
            && (HasParam(r, BrandSearch) <==> !IsBlank(searchText))
            && (HasParam(r, Fuzzy) <==> HasParam(r, BrandSearch))
  {
    var r := QueryParams(selectedCategory, searchText);
    var search := Trim(searchText);
    if selectedCategory != "" && search != "" {
      assert r[0].name == Category && r[1].name == BrandSearch && r[2].name == Fuzzy;
    } else if selectedCategory != "" {
      assert r == [Param(Category, selectedCategory), Param(Limit, "50")];
      assert r[0].name == Category;
      forall i | 0 <= i < |r|
        ensures r[i].name != BrandSearch && r[i].name != Fuzzy
      {
      }
    } else if search != "" {
      assert r == [Param(BrandSearch, search), Param(Fuzzy, "true"), Param(Limit, "50")];
      assert r[0].name == BrandSearch && r[1].name == Fuzzy;
      forall i | 0 <= i < |r|
        ensures r[i].name != Category
      {
      }
    } else {
      assert r == [Param(Limit, "50")];
      forall i | 0 <= i < |r|
        ensures r[i].name == Limit
      {
      }
    }
  }

  /** A product record as the backend sends it; fields it may omit are
      optional. */
  datatype RawProduct = RawProduct(
    id: int,
    title: string,
    categoryName: string,
    price: real,
    images: Option<seq<string>>,
    description: Option<string>,
    condition: Option<string>,
    brand: Option<string>,
    model: Option<string>,
    sellerName: Option<string>,
    createdAt: Option<string>,
    searchScore: Option<real>)

  /** A product as the grid shows it. */
  datatype Product = Product(
    id: int,
    title: string,
    category: string,
    price: real,
    image: string,
    images: seq<string>,
    description: Option<string>,
    condition: Option<string>,
    brand: Option<string>,
    model: Option<string>,
    sellerName: Option<string>,
    createdAt: Option<string>,
    searchScore: real)

  /** The backend-to-grid transform: every image path is prefixed with the
      host, the cover image is the first of them or the placeholder, and a
      missing search score is 0. The other fields carry over. */
  function Transform(p: RawProduct): (r: Product)
    ensures r.id == p.id && r.title == p.title && r.category == p.categoryName && r.price == p.price
    ensures r.description == p.description && r.condition == p.condition && r.brand == p.brand
    ensures r.model == p.model && r.sellerName == p.sellerName && r.createdAt == p.createdAt
    ensures |r.images| == |p.images.GetOr([])|
    ensures forall i :: 0 <= i < |r.images| ==>
              StartsWith(r.images[i], Host) && r.images[i][|Host|..] == p.images.value[i]
    ensures r.image == if |r.images| > 0 then r.images[0] else NoImage
    ensures r.searchScore == p.searchScore.GetOr(0.0)
  {
    var paths := p.images.GetOr([]);
    var images := seq(|paths|, i requires 0 <= i < |paths| => Host + paths[i]);
    assert forall i :: 0 <= i < |images| ==> images[i][..|Host|] == Host && images[i][|Host|..] == paths[i];
    Product(p.id, p.title, p.categoryName, p.price,
            if |paths| > 0 then Host + paths[0] else NoImage,
            images, p.description, p.condition, p.brand, p.model, p.sellerName, p.createdAt,
            p.searchScore.GetOr(0.0))
  }

  /** How the product fetch settled: it threw (network, unreadable body, or
      a body without a product list), or it answered with a status, a
      message and the product records. */
  datatype FetchReply =
    | FetchThrew(thrown: string)
    | FetchAnswered(ok: bool, message: Option<string>, products: seq<RawProduct>)

  /** The grid's data once a fetch has settled. */
  datatype Grid = Grid(products: seq<Product>, error: Option<string>, loading: bool)

  const FetchFailedMessage: string := "Failed to fetch products"
  const LoadFailedMessage: string := "Failed to load products"

  /** `fetchProducts` once settled: an `ok` answer shows its products
      transformed, in order, with no error. Otherwise the grid is emptied
      and the error is the answer's message or `Failed to fetch products`
      for a non-ok answer, and the thrown message or `Failed to load
      products` for a throw. Loading ends either way. */
  function FetchProducts(reply: FetchReply): (r: Grid)
    ensures !r.loading
    ensures r.error.None? <==> reply.FetchAnswered? && reply.ok
    ensures r.error.Some? ==> r.products == [] && r.error.value != ""
    ensures reply.FetchAnswered? && reply.ok ==>
              |r.products| == |reply.products| && forall i :: 0 <= i < |r.products| ==> r.products[i] == Transform(reply.products[i])
    ensures reply.FetchAnswered? && !reply.ok ==> r.error == Some(Or(reply.message, FetchFailedMessage))
    ensures reply.FetchThrew? ==> r.error == Some(Or(Some(reply.thrown), LoadFailedMessage))
  {
    match reply
    case FetchThrew(thrown) => Grid([], Some(Or(Some(thrown), LoadFailedMessage)), false)
    case FetchAnswered(ok, message, raw) =>
      if ok then Grid(seq(|raw|, i requires 0 <= i < |raw| => Transform(raw[i])), None, false)
      else Grid([], Some(Or(message, FetchFailedMessage)), false)
  }

  /** The effect of an image error: the ids marked so far, and the source
      the failing image is switched to, if any. */
  datatype ImageFix = ImageFix(errors: set<int>, newSource: Option<string>)

  /** `handleImageError`: the first error of a product marks its id and
      switches the image to the placeholder; a repeat error does nothing. */
  function HandleImageError(errors: set<int>, id: int): (r: ImageFix)
    ensures id in r.errors && errors <= r.errors && r.errors - errors <= {id}
    ensures r.newSource.Some? <==> id !in errors
    ensures r.newSource.Some? ==> r.newSource.value == NoImage
  {
    if id in errors then ImageFix(errors, None) else ImageFix(errors + {id}, Some(NoImage))
  }

  /** The placeholder is applied once per product: after one error a second
      error of the same product changes nothing. */
  lemma ImageErrorOncePerProduct(errors: set<int>, id: int)
    ensures HandleImageError(HandleImageError(errors, id).errors, id)
            == ImageFix(HandleImageError(errors, id).errors, None)
  {
  }

  /** What a product click does: call the `onProductClick` callback, or
      navigate to the product's page. */
  datatype ClickEffect = CallBack(productId: int) | Navigate(path: string)

  /** The product page path, `/viewproduct?id=<id>`. */
  function ProductPath(id: int): (r: string)
    ensures StartsWith(r, "/viewproduct?id=")
  {
    var r := "/viewproduct?id=" + IntToString(id);
    assert r[..16] == "/viewproduct?id=";
    r
  }

  /** Different products lead to different pages. */
  lemma ProductPathsDistinct(a: int, b: int)
    requires a != b
    ensures ProductPath(a) != ProductPath(b)
  {
    IntToStringInjective(a, b);
    PrefixKeepsDistinct("/viewproduct?id=", IntToString(a), IntToString(b));
  }

  /** `handleProductClick`. */
  function HandleProductClick(hasCallback: bool, id: int): (r: ClickEffect)
    ensures hasCallback <==> r.CallBack?
    ensures r.CallBack? ==> r.productId == id
    ensures r.Navigate? ==> r.path == ProductPath(id)
  {
    if hasCallback then CallBack(id) else Navigate(ProductPath(id))
  }

  /** `handleKeyDown` on a card: Enter and the space bar click it, every
      other key does nothing. */
  function HandleKeyDown(key: string, hasCallback: bool, id: int): (r: Option<ClickEffect>)
    ensures r.Some? <==> key == "Enter" || key == " "
    ensures r.Some? ==> r.value == HandleProductClick(hasCallback, id)
  {
    if key == "Enter" || key == " " then Some(HandleProductClick(hasCallback, id)) else None
  }
}
