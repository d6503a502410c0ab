/** The account profile page (components/account/Profile.tsx): the profile
    picture check, deleting a listed product, the edit/save/cancel flag and
    the field-by-field profile edit.

    `URL.createObjectURL` is a parameter `objectUrl`; the two-second timer
    that clears the uploading flag is outside the model. */
module Profile {
  import opened Transport
  import opened Keyed
  import opened Text
  import opened Files

  /** The profile shown on the page (`UserProfile`). */
  datatype UserProfile = UserProfile(name: string, phone: string, email: string, profilePicture: string)

  /** The profile field an edit names (`keyof UserProfile`). */
  datatype ProfileField = Name | Phone | Email | ProfilePicture

  /** A profile field by name. */
  function FieldOf(p: UserProfile, field: ProfileField): string
  {
    match field
    case Name => p.name
    case Phone => p.phone
    case Email => p.email
    case ProfilePicture => p.profilePicture
  }

  /** A product the user has listed. */
  datatype Listing = Listing(id: string, title: string, category: string, price: real, image: string)

  function ListingId(l: Listing): string
  {
    l.id
  }

  /** The page state the handlers change. */
  datatype Page = Page(profile: UserProfile, products: seq<Listing>, editing: bool, uploadingPicture: bool)

  /** The page after a picture choice, and the alert shown. */
  datatype PictureResult = PictureResult(page: Page, alert: Option<string>)

  const NotImageAlert: string := "Please select an image file"
  const TooLargeAlert: string := "File size should be less than 5MB"

  /** A picture the page takes: an image type and at most 5 MiB. */
  predicate AcceptsPicture(f: File)
  {
    IsImage(f) && f.size <= MaxImageBytes
  }

  /** `handleProfilePictureUpload`: with no file nothing happens; a file
      that is not an image, or is larger than 5 MiB, raises that alert and
      changes nothing; an accepted file becomes the shown picture at once
      and the uploading flag is set. */
  function UploadPicture(page: Page, file: Option<File>, objectUrl: File -> string): (r: PictureResult)
    ensures file.None? ==> r == PictureResult(page, None)
    ensures file.Some? && !IsImage(file.value) ==> r == PictureResult(page, Some(NotImageAlert))
    ensures file.Some? && IsImage(file.value) && file.value.size > MaxImageBytes ==> r == PictureResult(page, Some(TooLargeAlert))
    ensures r.page != page ==> file.Some? && AcceptsPicture(file.value)
    ensures file.Some? && AcceptsPicture(file.value) ==>
              && r.alert.None?
              && r.page.uploadingPicture
              && r.page.profile == page.profile.(profilePicture := objectUrl(file.value))
              && r.page.products == page.products && r.page.editing == page.editing
  {
    match file
    case None => PictureResult(page, None)
    case Some(f) =>
      if !IsImage(f) then PictureResult(page, Some(NotImageAlert))
      else if f.size > MaxImageBytes then PictureResult(page, Some(TooLargeAlert))
      else
        var shown := page.(profile := page.profile.(profilePicture := objectUrl(f)), uploadingPicture := true);
        PictureResult(shown, None)
  }

  /** The size limit is inclusive: an image of exactly 5 MiB is taken and
      one byte more is refused. */
  lemma PictureSizeLimitInclusive(name: string, mimeType: string)
    requires StartsWith(mimeType, "image/")
    ensures AcceptsPicture(File(name, mimeType, 5 * 1024 * 1024))
    ensures !AcceptsPicture(File(name, mimeType, 5 * 1024 * 1024 + 1))
  {
  }

  /** `handleDeleteProduct`: every listing with that id goes; the others
      stay. */
  function DeleteProduct(page: Page, id: string): (r: Page)
    ensures !Has(r.products, ListingId, id)
    ensures forall i :: 0 <= i < |page.products| && page.products[i].id != id ==> page.products[i] in r.products
    ensures forall i :: 0 <= i < |r.products| ==> r.products[i] in page.products
    ensures r.(products := page.products) == page
  {
    page.(products := Without(page.products, ListingId, id))
  }

  /** With unique ids, deleting a listing removes exactly that listing and
      keeps the others in their order. */
  lemma DeleteProductKeepsOrder(page: Page, p: int)
    requires Unique(page.products, ListingId)
    requires 0 <= p < |page.products|
    ensures DeleteProduct(page, page.products[p].id).products == page.products[..p] + page.products[p + 1..]
  {
    WithoutUniqueAt(page.products, ListingId, p);
  }

  /** `handleProfileEdit`: the editing flag flips, nothing else changes. */
  function ToggleEditing(page: Page): (r: Page)
    ensures r.editing == !page.editing && r.(editing := page.editing) == page
  {
    page.(editing := !page.editing)
  }

  /** `handleProfileSave`: editing ends and the profile is kept. */
  function SaveProfile(page: Page): (r: Page)
    ensures !r.editing && r.(editing := page.editing) == page
  {
    page.(editing := false)
  }

  /** The Cancel button: editing ends. */
  function CancelEditing(page: Page): (r: Page)
    ensures !r.editing && r.profile == page.profile
  {
    page.(editing := false)
  }

  /** `handleProfileChange`: the named field takes the value and every other
      field keeps its own. */
  function ChangeProfile(page: Page, field: ProfileField, value: string): (r: Page)
    ensures FieldOf(r.profile, field) == value
    ensures forall g :: g != field ==> FieldOf(r.profile, g) == FieldOf(page.profile, g)
    ensures r.(profile := page.profile) == page
  {
    var p := page.profile;
    var q := match field
      case Name => p.(name := value)
      case Phone => p.(phone := value)
      case Email => p.(email := value)
      case ProfilePicture => p.(profilePicture := value);
    page.(profile := q)
  }

  /** Edits are written straight into the profile, so Cancel does not undo
      them: cancelling an edit session leaves the page exactly as saving it
      would. */
  lemma CancelKeepsEdits(page: Page, field: ProfileField, value: string)
    ensures FieldOf(CancelEditing(ChangeProfile(ToggleEditing(page), field, value)).profile, field) == value
    ensures CancelEditing(page) == SaveProfile(page)
  {
  }
}
