/** The product edit form (components/sell/EditProduct.tsx): the category
    tables, loading a product into the form, the photo list with its cap of
    six, the ordered submit checks and the update request, which uploads new
    photo files and lists the stored image URLs the product keeps.

    `Date.now()` and `URL.createObjectURL` are parameters; the `fetch` calls
    are their settled results. */
module EditProduct {
  import opened Transport
  import opened Lists
  import opened Keyed
  import opened Text
  import opened Files

  /** A photo on the form: a stored image of the product (`isExisting`
      true, no file) or a newly chosen file with a preview URL. */
  datatype Photo = Photo(id: int, url: string, file: Option<File>, isExisting: Option<bool>)

  function PhotoId(p: Photo): int
  {
    p.id
  }

  /** The shape of every photo the form itself creates: a stored image
      without a file, or a new one with its file. */
  predicate Tracked(p: Photo)
  {
    || (p.isExisting == Some(true) && p.file.None?)
    || (p.isExisting == Some(false) && p.file.Some?)
  }

  /** The categories the dropdown offers, in display order. */
  const Categories: seq<string> := ["Laptops", "Graphic Cards", "RAM", "CPUs", "Monitors", "Motherboards"]

  /** `getCategoryId`: the database id of a category name; any name outside
      the table falls back to 1. */
  function CategoryId(name: string): (r: int)
    ensures 1 <= r <= 6
    ensures name !in Categories ==> r == 1
  {
    if name == "Laptops" then 1
    else if name == "Graphic Cards" then 2
    else if name == "Monitors" then 3
    else if name == "CPUs" then 4
    else if name == "RAM" then 5
    else if name == "Motherboards" then 6
    else 1
  }

  /** `getCategoryName`: the name of a category id; any id outside 1..6
      falls back to `Laptops`. */
  function CategoryName(id: int): (r: string)
    ensures r in Categories
    ensures !(1 <= id <= 6) ==> r == "Laptops"
  {
    if id == 1 then "Laptops"
    else if id == 2 then "Graphic Cards"
    else if id == 3 then "Monitors"
    else if id == 4 then "CPUs"
    else if id == 5 then "RAM"
    else if id == 6 then "Motherboards"
    else "Laptops"
  }

  /** The two tables are inverse on the six categories: name to id to name
      is the identity on listed names, id to name to id the identity on
      1..6, and every other id comes back as 1. */
  lemma CategoryTablesRoundTrip(name: string, id: int)
    ensures name in Categories ==> CategoryName(CategoryId(name)) == name
    ensures 1 <= id <= 6 ==> CategoryId(CategoryName(id)) == id
    ensures !(1 <= id <= 6) ==> CategoryId(CategoryName(id)) == 1
  {
  }

  /** The editable fields of the form. */
  datatype Form = Form(
    photos: seq<Photo>,
    title: string,
    description: string,
    price: string,
    condition: string,
    brand: string,
    model: string,
    selectedCategory: string)

  /** The form before a product is loaded. */
  const EmptyForm: Form := Form([], "", "", "", "New", "", "", "")

  /** The stored product as the load reads it; a missing `images` field is
      `None`. */
  datatype StoredProduct = StoredProduct(
    title: string,
    description: string,
    price: int,
    categoryId: int,
    images: Option<seq<string>>,
    brand: Option<string>,
    model: Option<string>,
    condition: Option<string>)

  /** The stored image URLs as photos: ids 1..n in order, each marked as
      stored. */
  function ExistingPhotos(urls: seq<string>): (r: seq<Photo>)
    ensures |r| == |urls|
    ensures forall i :: 0 <= i < |r| ==> r[i].id == i + 1 && r[i].url == urls[i] && r[i].file.None?
    ensures forall i :: 0 <= i < |r| ==> r[i].isExisting == Some(true) && Tracked(r[i])
    ensures Unique(r, PhotoId)
  {
    seq(|urls|, i requires 0 <= i < |urls| => Photo(i + 1, urls[i], None, Some(true)))
  }

  /** What the screen does after an event: the form it shows, the alert it
      raises and the route it navigates to. */
  datatype Screen = Screen(form: Form, alert: Option<string>, navigateTo: Option<string>)

  const LoadFailedAlert: string := "Failed to load product data"

  /** The form's text fields filled from a stored product. */
  function Fill(form: Form, p: StoredProduct): Form
  {
    form.(title := p.title, description := p.description, price := IntToString(p.price),
          selectedCategory := CategoryName(p.categoryId), brand := Or(p.brand, ""),
          model := Or(p.model, ""), condition := Or(p.condition, "New"))
  }

  /** The mount effect and `fetchProductData`. Without a product id the
      screen goes to the account page. A failed fetch raises an alert and
      leaves the form. A fetched product fills every field, with the stored
      category's name and `New` as the default condition; its images become
      stored photos. When the record has no `images` field the text fields
      are already filled when the conversion throws, and the alert follows. */
  function Load(form: Form, productId: Option<string>, reply: Reply<StoredProduct>): (r: Screen)
    ensures productId.None? || productId.value == "" ==> r == Screen(form, None, Some("/account"))
    ensures productId.Some? && productId.value != "" && reply.Failed? ==> r == Screen(form, Some(LoadFailedAlert), None)
    ensures productId.Some? && productId.value != "" && reply.Ok? ==>
              && r.navigateTo.None?
              && r.form.title == reply.value.title
              && r.form.description == reply.value.description
              && IsDecimal(r.form.price) && ParseInt(r.form.price) == reply.value.price
              && r.form.selectedCategory in Categories
              && (1 <= reply.value.categoryId <= 6 ==> CategoryId(r.form.selectedCategory) == reply.value.categoryId)
              && r.form.condition == Or(reply.value.condition, "New") && r.form.condition != ""
              && r.form.brand == Or(reply.value.brand, "")
              && r.form.model == Or(reply.value.model, "")
    ensures productId.Some? && productId.value != "" && reply.Ok? && reply.value.images.Some? ==>
              r.alert.None? && KeptUrls(r.form.photos) == reply.value.images.value && Uploads(r.form.photos) == []
    ensures productId.Some? && productId.value != "" && reply.Ok? && reply.value.images.None? ==>
              r.alert == Some(LoadFailedAlert) && r.form.photos == form.photos
  {
    if productId.None? || productId.value == "" then Screen(form, None, Some("/account"))
    else match reply
      case Failed(_) => Screen(form, Some(LoadFailedAlert), None)
      case Ok(p) =>
        var filled := Fill(form, p);
        IntToStringRoundTrip(p.price);
        CategoryTablesRoundTrip("", p.categoryId);
        match p.images
        case None => Screen(filled, Some(LoadFailedAlert), None)
        case Some(urls) =>
          ExistingPhotosRoundTrip(urls);
          Screen(filled.(photos := ExistingPhotos(urls)), None, None)
  }

  /** A photo whose file the update uploads: it has a file and is not
      marked as stored. */
  predicate IsUpload(p: Photo)
  {
    p.file.Some? && p.isExisting != Some(true)
  }

  /** The files the update uploads, in photo order. */
  function Uploads(photos: seq<Photo>): (r: seq<File>)
    ensures |r| <= |photos|
  {
    if |photos| == 0 then []
    else (if IsUpload(photos[0]) then [photos[0].file.value] else []) + Uploads(photos[1..])
  }

  /** The stored image URLs the update keeps, in photo order. */
  function KeptUrls(photos: seq<Photo>): (r: seq<string>)
    ensures |r| <= |photos|
  {
    if |photos| == 0 then []
    else (if photos[0].isExisting == Some(true) then [photos[0].url] else []) + KeptUrls(photos[1..])
  }

  lemma {:induction false} SplitAppend(a: seq<Photo>, b: seq<Photo>)
    ensures Uploads(a + b) == Uploads(a) + Uploads(b)
    ensures KeptUrls(a + b) == KeptUrls(a) + KeptUrls(b)
  {
    if |a| > 0 {
      assert (a + b)[1..] == a[1..] + b;
      SplitAppend(a[1..], b);
    } else {
      assert a + b == b;
    }
  }

  /** Every photo the form creates goes to exactly one side of the update:
      its file is uploaded or its URL is kept, so the two lists together
      are as long as the photo list. */
  lemma {:induction false} SplitIsPartition(photos: seq<Photo>)
    requires forall i :: 0 <= i < |photos| ==> Tracked(photos[i])
    ensures |Uploads(photos)| + |KeptUrls(photos)| == |photos|
  {
    if |photos| > 0 {
      assert Tracked(photos[0]);
      SplitIsPartition(photos[1..]);
    }
  }

  /** Loaded photos are kept by URL, in order, and upload nothing. */
  lemma {:induction false} ExistingPhotosRoundTrip(urls: seq<string>)
    ensures KeptUrls(ExistingPhotos(urls)) == urls
    ensures Uploads(ExistingPhotos(urls)) == []
  {
    if |urls| > 0 {
      var n := |urls| - 1;
      var front := ExistingPhotos(urls[..n]);
      var last := Photo(n + 1, urls[n], None, Some(true));
      assert ExistingPhotos(urls) == front + [last];
      ExistingPhotosRoundTrip(urls[..n]);
      SplitAppend(front, [last]);
      assert [last][1..] == [];
      assert urls == urls[..n] + [urls[n]];
    }
  }

  /** A newly chosen file as a photo. */
  function NewPhoto(f: File, id: int, objectUrl: File -> string): Photo
  {
    Photo(id, objectUrl(f), Some(f), Some(false))
  }

  /** The photos the chosen files would give with no cap: one per image
      file, with id `now` plus the file's position in the selection. */
  function ImagePhotos(files: seq<File>, now: int, objectUrl: File -> string): (r: seq<Photo>)
    ensures |r| <= |files|
    ensures forall i :: 0 <= i < |r| ==>
              Tracked(r[i]) && r[i].isExisting == Some(false) && IsImage(r[i].file.value) && r[i].file.value in files
  {
    if |files| == 0 then []
    else
      var n := |files| - 1;
      var front := ImagePhotos(files[..n], now, objectUrl);
      var r := front + (if IsImage(files[n]) then [NewPhoto(files[n], now + n, objectUrl)] else []);
      assert forall i :: 0 <= i < |front| ==> r[i] == front[i];
      r
  }

  /** Reading more of the selection only extends the photos read so far. */
  lemma {:induction false} ImagePhotosPrefix(files: seq<File>, i: nat, j: nat, now: int, objectUrl: File -> string)
    requires i <= j <= |files|
    ensures |ImagePhotos(files[..i], now, objectUrl)| <= |ImagePhotos(files[..j], now, objectUrl)|
    ensures ImagePhotos(files[..j], now, objectUrl)[..|ImagePhotos(files[..i], now, objectUrl)|]
            == ImagePhotos(files[..i], now, objectUrl)
  {
    if i < j {
      ImagePhotosPrefix(files, i, j - 1, now, objectUrl);
      assert files[..j][..j - 1] == files[..j - 1];
    }
  }

  /** Reading one more file of the selection appends its photo when it is
      an image and nothing otherwise. */
  lemma ImagePhotosStep(files: seq<File>, i: nat, now: int, objectUrl: File -> string)
    requires i < |files|
    ensures ImagePhotos(files[..i + 1], now, objectUrl)
            == ImagePhotos(files[..i], now, objectUrl)
               + (if IsImage(files[i]) then [NewPhoto(files[i], now + i, objectUrl)] else [])
  {
    assert files[..i + 1][..i] == files[..i];
    assert files[..i + 1][i] == files[i];
  }

  /** The free photo slots. */
  function Room(photos: seq<Photo>): (n: nat)
    ensures |photos| + n == MaxPhotos || (|photos| >= MaxPhotos && n == 0)
  {
    if |photos| >= MaxPhotos then 0 else MaxPhotos - |photos|
  }

  /** `addPhoto`: walks the selection in order while fewer than six photos
      are on the form, turning each image file into a new photo; other
      files are skipped. With no selection nothing changes. The result is
      the old photos followed by the first image photos that fit. */
  method AddPhoto(photos: seq<Photo>, files: Option<seq<File>>, now: int, objectUrl: File -> string)
    returns (r: seq<Photo>)
    ensures files.None? ==> r == photos
    ensures files.Some? ==> r == photos + SliceTo(ImagePhotos(files.value, now, objectUrl), Room(photos))
    ensures |photos| <= MaxPhotos ==> |r| <= MaxPhotos
    ensures |photos| >= MaxPhotos ==> r == photos
    ensures forall i :: |photos| <= i < |r| ==>
              Tracked(r[i]) && r[i].isExisting == Some(false) && IsImage(r[i].file.value)
  {
    if files.None? {
      return photos;
    }
    var fs := files.value;
    var added: seq<Photo> := [];
    var i := 0;
    while i < |fs| && |photos| + |added| < MaxPhotos
      invariant 0 <= i <= |fs|
      invariant added == ImagePhotos(fs[..i], now, objectUrl)
      invariant |photos| + |added| <= MaxPhotos || added == []
    {
      ImagePhotosStep(fs, i, now, objectUrl);
      if IsImage(fs[i]) {
        added := added + [NewPhoto(fs[i], now + i, objectUrl)];
      }
      i := i + 1;
    }
    assert fs[..|fs|] == fs;
    ImagePhotosPrefix(fs, i, |fs|, now, objectUrl);
    r := photos + added;
    assert forall k :: |photos| <= k < |r| ==> r[k] == added[k - |photos|];
  }

  /** `removePhoto`: every photo with that id goes; the others stay in
      order. */
  function RemovePhoto(photos: seq<Photo>, id: int): (r: seq<Photo>)
    ensures !Has(r, PhotoId, id)
    ensures forall i :: 0 <= i < |photos| && photos[i].id != id ==> photos[i] in r
    ensures forall i :: 0 <= i < |r| ==> r[i] in photos
  {
    Without(photos, PhotoId, id)
  }

  /** The update's two lists around one photo: its part, an upload or a
      kept URL, sits between the parts of the photos before and after it,
      so that removing it (`RemovePhotoWithdrawsIt`) takes out exactly that
      part. */
  lemma SplitAround(before: seq<Photo>, x: Photo, after: seq<Photo>)
    ensures KeptUrls(before + [x] + after) == KeptUrls(before) + KeptUrls([x]) + KeptUrls(after)
    ensures Uploads(before + [x] + after) == Uploads(before) + Uploads([x]) + Uploads(after)
  {
    SplitAppend(before + [x], after);
    SplitAppend(before, [x]);
  }

  /** With unique ids, removing a photo takes exactly its part out of the
      update: a stored photo's URL leaves the kept list and a new photo's
      file leaves the uploads, and everything else stays in order. */
  lemma RemovePhotoWithdrawsIt(photos: seq<Photo>, p: int)
    requires Unique(photos, PhotoId)
    requires 0 <= p < |photos|
    ensures KeptUrls(RemovePhoto(photos, photos[p].id)) == KeptUrls(photos[..p]) + KeptUrls(photos[p + 1..])
    ensures Uploads(RemovePhoto(photos, photos[p].id)) == Uploads(photos[..p]) + Uploads(photos[p + 1..])
  {
    WithoutUniqueAt(photos, PhotoId, p);
    SplitAppend(photos[..p], photos[p + 1..]);
  }

  const TitleMissing: string := "Please enter a product title"
  const DescriptionMissing: string := "Please enter a product description"
  const PriceInvalid: string := "Please enter a valid price"
  const CategoryMissing: string := "Please select a category"

  /** The checks `handleSubmit` makes before sending, in order; the first
      one that fails names the alert, and the form passes when none does. */
  function Validate(form: Form): (r: Option<string>)
    ensures r.None? <==> !IsBlank(form.title) && !IsBlank(form.description)
                         && HasNumericPrefix(form.price) && form.selectedCategory != ""
    ensures IsBlank(form.title) ==> r == Some(TitleMissing)
    ensures !IsBlank(form.title) && IsBlank(form.description) ==> r == Some(DescriptionMissing)
    ensures !IsBlank(form.title) && !IsBlank(form.description) && !HasNumericPrefix(form.price) ==>
              r == Some(PriceInvalid)
    ensures (!IsBlank(form.title) && !IsBlank(form.description) && HasNumericPrefix(form.price)
             && form.selectedCategory == "") ==> r == Some(CategoryMissing)
  {
    NumericPrefixBounds(form.price, 0);
    if IsBlank(form.title) then Some(TitleMissing)
    else if IsBlank(form.description) then Some(DescriptionMissing)
    else if IsBlank(form.price) || !HasNumericPrefix(form.price) then Some(PriceInvalid)
    else if form.selectedCategory == "" then Some(CategoryMissing)
    else None
  }

  /** A loaded product with a non-blank title and description passes every
      check unchanged: its price renders as a number and its category is
      one of the listed names. */
  lemma LoadedFormPasses(form: Form, productId: string, p: StoredProduct)
    requires productId != ""
    requires !IsBlank(p.title) && !IsBlank(p.description)
    ensures Validate(Load(form, Some(productId), Ok(p)).form).None?
  {
    var f := Load(form, Some(productId), Ok(p)).form;
    assert f.title == p.title && f.description == p.description;
    assert f.price == Fill(form, p).price == IntToString(p.price);
    assert f.selectedCategory != "" by {
      assert f.selectedCategory in Categories;
    }
    NumericPrefixBounds("", p.price);
  }

  /** The multipart body of the update (`FormData`): the fields as sent,
      the uploaded files, and the kept URLs, which are only sent when there
      are some (`JSON.stringify` of them is outside the model). */
  datatype UpdateRequest = UpdateRequest(
    title: string,
    description: string,
    price: string,
    categoryId: string,
    condition: string,
    brand: string,
    model: string,
    productImages: seq<File>,
    existingImages: Option<seq<string>>)

  /** The request `handleSubmit` builds from a form. */
  function BuildUpdate(form: Form): (r: UpdateRequest)
    ensures r.title == form.title && r.description == form.description && r.price == form.price
    ensures r.condition == form.condition && r.brand == form.brand && r.model == form.model
    ensures IsDecimal(r.categoryId) && ParseInt(r.categoryId) == CategoryId(form.selectedCategory)
    ensures r.productImages == Uploads(form.photos)
    ensures r.existingImages.GetOr([]) == KeptUrls(form.photos)
    ensures r.existingImages.Some? ==> r.existingImages.value != []
  {
    var id := CategoryId(form.selectedCategory);
    IntToStringRoundTrip(id);
    var kept := KeptUrls(form.photos);
    UpdateRequest(form.title, form.description, form.price, IntToString(id),
                  form.condition, form.brand, form.model, Uploads(form.photos),
                  if |kept| > 0 then Some(kept) else None)
  }

  /** How the update call settled: it threw (network or unreadable body),
      or it answered with a status and a body. */
  datatype UpdateReply = UpdateThrew | UpdateAnswered(ok: bool, success: bool, message: Option<string>)

  /** The outcome of a submit: the request sent, if any, the alert shown and
      the route the screen later navigates to. */
  datatype SubmitOutcome = SubmitOutcome(request: Option<UpdateRequest>, alert: string, navigateTo: Option<string>)

  const UpdatedAlert: string := "Product updated successfully!"
  const UpdateFailedAlert: string := "Failed to update product. Please try again."
  const UpdateErrorAlert: string := "An error occurred while updating the product. Please try again."

  /** `handleSubmit`: a form that fails a check sends nothing and shows that
      check's alert. Otherwise the update is sent; an answer that is both
      `ok` and `success` reports success and returns to the account page,
      any other answer shows its message or a fallback, and a throw shows
      the error alert. */
  function Submit(form: Form, reply: UpdateReply): (r: SubmitOutcome)
    ensures r.request.Some? <==> Validate(form).None?
    ensures r.request.Some? ==> r.request.value == BuildUpdate(form)
    ensures Validate(form).Some? ==> r.alert == Validate(form).value && r.navigateTo.None?
    ensures r.navigateTo.Some? <==> Validate(form).None? && reply.UpdateAnswered? && reply.ok && reply.success
    ensures r.navigateTo.Some? ==> r.navigateTo.value == "/account" && r.alert == UpdatedAlert
    ensures Validate(form).None? && reply.UpdateThrew? ==> r.alert == UpdateErrorAlert
    ensures Validate(form).None? && reply.UpdateAnswered? && !(reply.ok && reply.success) ==>
              r.alert == Or(reply.message, UpdateFailedAlert)
    ensures r.alert != ""
  {
    match Validate(form)
    case Some(alert) => SubmitOutcome(None, alert, None)
    case None =>
      var request := Some(BuildUpdate(form));
      match reply
      case UpdateThrew => SubmitOutcome(request, UpdateErrorAlert, None)
      case UpdateAnswered(ok, success, message) =>
        if ok && success then SubmitOutcome(request, UpdatedAlert, Some("/account"))
        else SubmitOutcome(request, Or(message, UpdateFailedAlert), None)
  }
}
