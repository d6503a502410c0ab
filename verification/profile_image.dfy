/** The profile image uploader (components/account/ProfileImageUpload.tsx):
    how a stored image path becomes a URL under `/uploads`, which files it
    accepts, and what an upload leaves behind.

    `URL.createObjectURL` is a parameter `objectUrl`. The upload call and the
    `updateProfile` call after it are one settled result: a throw from
    either is `UploadThrew`. */
module ProfileImageUpload {
  import opened Transport
  import opened Text
  import opened Files
  import Profile

  /** The directory profile images are served from when a stored path is a
      bare file name. */
  const ProfilesDir: string := "/uploads/profiles/"

  /** A stored image path as a URL: kept when it already starts with
      `/uploads`, otherwise placed under `/uploads/profiles/`. */
  function NormalizeImagePath(path: string): (r: string)
    ensures StartsWith(r, "/uploads")
    ensures StartsWith(path, "/uploads") ==> r == path
    ensures !StartsWith(path, "/uploads") ==> r == ProfilesDir + path && r[|ProfilesDir|..] == path
  {
    if StartsWith(path, "/uploads") then path
    else
      var r := ProfilesDir + path;
      assert r[..8] == "/uploads";
      assert r[|ProfilesDir|..] == path;
      r
  }

  /** Normalising twice is normalising once. */
  lemma NormalizeIdempotent(path: string)
    ensures NormalizeImagePath(NormalizeImagePath(path)) == NormalizeImagePath(path)
  {
  }

  /** Two different stored paths can name the same URL: a bare name and
      its full `/uploads/profiles/` path. */
  lemma NormalizeMergesPaths()
    ensures NormalizeImagePath("a.png") == NormalizeImagePath("/uploads/profiles/a.png")
  {
    assert "/uploads/profiles/a.png"[..8] == "/uploads";
  }

  /** The kinds of status message (`message.type`, empty for none). */
  datatype MessageKind = NoMessage | ErrorMessage | SuccessMessage

  datatype Message = Message(kind: MessageKind, text: string)

  /** The cleared message, `{ type: '', text: '' }`. */
  const Cleared: Message := Message(NoMessage, "")

  /** The uploader's state. */
  datatype Uploader = Uploader(selected: Option<File>, previewUrl: string, uploading: bool, message: Message)

  /** The state on mount. */
  const Initial: Uploader := Uploader(None, "", false, Cleared)

  /** The mount effect: a signed-in user's stored image, when present and
      non-empty, is shown normalised; `stored` is `None` when there is no
      user or no image. */
  function ShowStoredImage(u: Uploader, stored: Option<string>): (r: Uploader)
    ensures stored.None? || stored.value == "" ==> r == u
    ensures stored.Some? && stored.value != "" ==>
              r == u.(previewUrl := NormalizeImagePath(stored.value)) && StartsWith(r.previewUrl, "/uploads")
  {
    if stored.Some? && stored.value != "" then u.(previewUrl := NormalizeImagePath(stored.value)) else u
  }

  /** The image types the uploader takes. */
  const ValidTypes: seq<string> := ["image/jpeg", "image/png", "image/gif", "image/webp"]

  const InvalidTypeText: string := "Please select a valid image file (JPG, PNG, GIF, or WEBP)"
  const TooLargeText: string := "File size must be less than 5MB"

  /** A file the uploader takes: one of the four types and at most 5 MiB. */
  predicate AcceptsImage(f: File)
  {
    f.mimeType in ValidTypes && f.size <= MaxImageBytes
  }

  /** `handleImageChange`: with no file nothing happens. A file of another
      type, or larger than 5 MiB, sets that error and keeps the selection
      and preview. An accepted file is selected, previewed, and clears the
      message. */
  function HandleImageChange(u: Uploader, file: Option<File>, objectUrl: File -> string): (r: Uploader)
    ensures file.None? ==> r == u
    ensures file.Some? && file.value.mimeType !in ValidTypes ==> r == u.(message := Message(ErrorMessage, InvalidTypeText))
    ensures file.Some? && file.value.mimeType in ValidTypes && file.value.size > MaxImageBytes ==>
              r == u.(message := Message(ErrorMessage, TooLargeText))
    ensures file.Some? && AcceptsImage(file.value) ==>
              r == u.(selected := file, previewUrl := objectUrl(file.value), message := Cleared)
    ensures r.selected != u.selected ==> file.Some? && AcceptsImage(file.value)
  {
    match file
    case None => u
    case Some(f) =>
      if f.mimeType !in ValidTypes then u.(message := Message(ErrorMessage, InvalidTypeText))
      else if f.size > MaxImageBytes then u.(message := Message(ErrorMessage, TooLargeText))
      else u.(selected := file, previewUrl := objectUrl(f), message := Cleared)
  }

  /** The uploader is stricter than the profile page's own picture check:
      every file it takes the page takes too, while the page also takes
      other image types such as SVG. Both take exactly 5 MiB. */
  lemma UploaderStricterThanProfilePage(f: File)
    ensures AcceptsImage(f) ==> Profile.AcceptsPicture(f)
    ensures Profile.AcceptsPicture(File(f.name, "image/svg+xml", 0))
    ensures !AcceptsImage(File(f.name, "image/svg+xml", 0))
    ensures AcceptsImage(File(f.name, "image/png", MaxImageBytes))
  {
    if AcceptsImage(f) {
      assert f.mimeType[..6] == "image/";
    }
    assert "image/svg+xml"[..6] == "image/";
  }

  /** How the upload settled: a throw with its message, or an answer with a
      status, a message and the stored image path the server returned. */
  datatype UploadReply =
    | UploadThrew(thrown: string)
    | UploadAnswered(ok: bool, message: Option<string>, profileImage: Option<string>)

  const NoSelectionText: string := "Please select an image first"
  const UploadFailedText: string := "Failed to update profile image"
  const UploadedText: string := "Profile image updated successfully!"

  /** `handleUpload` once settled. With nothing selected it only sets an
      error and sends nothing. A successful answer reports success, drops
      the selection and shows the returned image normalised when there is
      one. A non-ok answer or a throw sets its message, or the fallback, as
      an error and keeps the selection and preview. Uploading ends either
      way. */
  function HandleUpload(u: Uploader, reply: UploadReply): (r: Uploader)
    ensures u.selected.None? ==> r == u.(message := Message(ErrorMessage, NoSelectionText))
    ensures u.selected.Some? ==> !r.uploading
    ensures u.selected.Some? && reply.UploadAnswered? && reply.ok ==>
              && r.selected.None?
              && r.message == Message(SuccessMessage, UploadedText)
              && (reply.profileImage.Some? && reply.profileImage.value != "" ==>
                    r.previewUrl == NormalizeImagePath(reply.profileImage.value))
              && (reply.profileImage.None? || reply.profileImage.value == "" ==> r.previewUrl == u.previewUrl)
    ensures u.selected.Some? && !(reply.UploadAnswered? && reply.ok) ==>
              && r.selected == u.selected && r.previewUrl == u.previewUrl
              && r.message.kind == ErrorMessage && r.message.text != ""
    ensures u.selected.Some? && reply.UploadAnswered? && !reply.ok ==> r.message.text == Or(reply.message, UploadFailedText)
    ensures u.selected.Some? && reply.UploadThrew? ==> r.message.text == Or(Some(reply.thrown), UploadFailedText)
  {
    if u.selected.None? then u.(message := Message(ErrorMessage, NoSelectionText))
    else match reply
      case UploadThrew(thrown) =>
        u.(uploading := false, message := Message(ErrorMessage, Or(Some(thrown), UploadFailedText)))
      case UploadAnswered(ok, message, image) =>
        if !ok then u.(uploading := false, message := Message(ErrorMessage, Or(message, UploadFailedText)))
        else
          var shown := if image.Some? && image.value != "" then NormalizeImagePath(image.value) else u.previewUrl;
          Uploader(None, shown, false, Message(SuccessMessage, UploadedText))
  }

  /** After a successful upload a second upload has nothing to send: the
      selection is cleared, so it stops at the no-selection error. */
  lemma UploadClearsSelection(u: Uploader, first: UploadReply, second: UploadReply)
    requires u.selected.Some? && first.UploadAnswered? && first.ok
    ensures HandleUpload(HandleUpload(u, first), second).message == Message(ErrorMessage, NoSelectionText)
  {
  }

  /** Whether a settled upload answer is a success that carries a stored
      image path, the case in which the uploader calls `updateProfile`. */
  predicate ReturnsImage(reply: UploadReply)
  {
    reply.UploadAnswered? && reply.ok && reply.profileImage.Some? && reply.profileImage.value != ""
  }

  /** `handleUpload` with `updateProfile` taken from the auth context as it
      is provided (`Auth.AuthContext`). The context has no such function, so after a successful
      answer that returns an image the call throws a `TypeError`, whose
      message is the parameter `typeError`, and the upload ends in the error
      branch. Every other reply settles as in `HandleUpload`. */
  function HandleUploadAsWritten(u: Uploader, reply: UploadReply, typeError: string): (r: Uploader)
    ensures ReturnsImage(reply) ==> r == HandleUpload(u, UploadThrew(typeError))
    ensures !ReturnsImage(reply) ==> r == HandleUpload(u, reply)
  {
    if ReturnsImage(reply) then HandleUpload(u, UploadThrew(typeError)) else HandleUpload(u, reply)
  }

  /** As written, a successful upload that returns an image reports an
      error and keeps the selection, where the intended handler reports
      success, clears the selection and shows the returned image. */
  lemma UploadWithImageFailsAsWritten(u: Uploader, image: string, typeError: string)
    requires u.selected.Some? && image != ""
    ensures var reply := UploadAnswered(true, None, Some(image));
            var asWritten := HandleUploadAsWritten(u, reply, typeError);
            var intended := HandleUpload(u, reply);
            && asWritten.message.kind == ErrorMessage && asWritten.selected == u.selected
            && intended.message == Message(SuccessMessage, UploadedText) && intended.selected.None?
            && intended.previewUrl == NormalizeImagePath(image)
  {
  }
}
