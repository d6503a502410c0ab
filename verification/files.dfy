/** The browser `File` objects the upload handlers inspect, and the limits
    they apply to them. */
module Files {
  import opened Text

  /** A selected file: its name, its MIME type (`file.type`) and its size
      in bytes. */
  datatype File = File(name: string, mimeType: string, size: nat)

  /** The most photos a product listing holds (`maxPhotos`). */
  const MaxPhotos: nat := 6

  /** The largest image the profile handlers accept, `5 * 1024 * 1024`
      bytes. */
  const MaxImageBytes: nat := 5 * 1024 * 1024

  /** `file.type.startsWith('image/')`. */
  predicate IsImage(f: File)
  {
    StartsWith(f.mimeType, "image/")
  }
}
