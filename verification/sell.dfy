/** The new-listing form (components/sell/Sell.tsx): the photo list, which
    takes at most as many chosen files as there are free slots of six, the
    specification rows, and the product data handed over on submit.

    `FileReader` is a parameter `read` giving the data URL a file loads as
    (empty when the read yields nothing), and the `Date.now() +
    Math.random()` ids are a parameter `ids` indexed by the file's position
    among those read. The reads complete in selection order. */
module Sell {
  import opened Transport
  import opened Lists
  import opened Keyed
  import opened Files

  /** A photo on the form: an id, the data URL it previews with, and its
      file. */
  datatype Photo = Photo(id: real, url: string, file: File)

  function PhotoId(p: Photo): real
  {
    p.id
  }

  /** The files of a photo list, in order. */
  function PhotoFiles(photos: seq<Photo>): (r: seq<File>)
    ensures |r| == |photos|
    ensures forall i :: 0 <= i < |r| ==> r[i] == photos[i].file
  {
    seq(|photos|, i requires 0 <= i < |photos| => photos[i].file)
  }

  /** A file whose read yields a data URL, so that it becomes a photo. */
  function Readable(read: File -> string): File -> bool
  {
    f => read(f) != ""
  }

  /** The photos the reads of `files` add, in order: one per file whose
      read yields something, the `k`-th file read taking id `ids(from + k)`. */
  function ReadPhotos(files: seq<File>, read: File -> string, ids: nat -> real, from: nat): (r: seq<Photo>)
    ensures PhotoFiles(r) == Filter(files, Readable(read))
    ensures forall i :: 0 <= i < |r| ==> r[i].url != "" && r[i].url == read(r[i].file)
  {
    if |files| == 0 then []
    else
      var rest := ReadPhotos(files[1..], read, ids, from + 1);
      var head := if read(files[0]) != "" then [Photo(ids(from), read(files[0]), files[0])] else [];
      ReadStep(files, read, ids(from), rest);
      head + rest
  }

  /** One step of `ReadPhotos`: the first file's photo, if its read yields
      one, put before the photos of the rest keeps both postconditions. */
  lemma ReadStep(files: seq<File>, read: File -> string, id: real, rest: seq<Photo>)
    requires |files| > 0
    requires PhotoFiles(rest) == Filter(files[1..], Readable(read))
    requires forall i :: 0 <= i < |rest| ==> rest[i].url != "" && rest[i].url == read(rest[i].file)
    ensures var r := (if read(files[0]) != "" then [Photo(id, read(files[0]), files[0])] else []) + rest;
            && PhotoFiles(r) == Filter(files, Readable(read))
            && forall i :: 0 <= i < |r| ==> r[i].url != "" && r[i].url == read(r[i].file)
  {
    var head := if read(files[0]) != "" then [Photo(id, read(files[0]), files[0])] else [];
    var r := head + rest;
    assert PhotoFiles(head) == if read(files[0]) != "" then [files[0]] else [];
    assert PhotoFiles(r) == PhotoFiles(head) + PhotoFiles(rest);
    forall i | 0 <= i < |r|
      ensures r[i].url != "" && r[i].url == read(r[i].file)
    {
      if i >= |head| {
        assert r[i] == rest[i - |head|];
      }
    }
  }

  /** `handlePhotoUpload`: of the chosen files (none when the input has no
      list) it reads the first `6 - photos.length`, taken with JavaScript's
      `slice`, and appends a photo for each read that yields a data URL. */
  function HandlePhotoUpload(photos: seq<Photo>, files: Option<seq<File>>, read: File -> string, ids: nat -> real)
    : (r: seq<Photo>)
    ensures |photos| <= |r| && r[..|photos|] == photos
    ensures forall i :: |photos| <= i < |r| ==> r[i].url != ""
    ensures |photos| <= MaxPhotos ==> |r| <= MaxPhotos
    ensures |photos| <= MaxPhotos ==>
              var chosen := files.GetOr([]);
              var taken := if |chosen| < MaxPhotos - |photos| then |chosen| else MaxPhotos - |photos|;
              PhotoFiles(r[|photos|..]) == Filter(chosen[..taken], Readable(read))
  {
    var added := ReadPhotos(SliceTo(files.GetOr([]), MaxPhotos - |photos|), read, ids, 0);
    var r := photos + added;
    assert r[..|photos|] == photos;
    assert r[|photos|..] == added;
    r
  }

  /** `canAddMorePhotos`. */
  function CanAddMorePhotos(photos: seq<Photo>): (r: bool)
    ensures r <==> |photos| < MaxPhotos
  {
    |photos| < MaxPhotos
  }

  /** The add button is shown exactly while an upload can still add a
      photo: with six photos any upload changes nothing, and with fewer a
      single readable file is added. */
  lemma UploadAgreesWithButton(photos: seq<Photo>, f: File, read: File -> string, ids: nat -> real)
    requires |photos| <= MaxPhotos
    requires read(f) != ""
    ensures !CanAddMorePhotos(photos) ==>
              forall files :: HandlePhotoUpload(photos, files, read, ids) == photos
    ensures CanAddMorePhotos(photos) ==>
              HandlePhotoUpload(photos, Some([f]), read, ids) == photos + [Photo(ids(0), read(f), f)]
  {
    assert [f][1..] == [];
  }

  /** Past six photos the free-slot count is negative and `slice` counts it
      from the end of the selection, so an upload still adds files. Six is
      only exceeded when reads of two uploads overlap. */
  lemma UploadPastCapStillAdds(photos: seq<Photo>, f: File, g: File, read: File -> string, ids: nat -> real)
    requires |photos| == MaxPhotos + 1
    requires read(f) != ""
    ensures |HandlePhotoUpload(photos, Some([f, g]), read, ids)| == MaxPhotos + 2
  {
    assert SliceTo([f, g], -1) == [f];
    assert [f][1..] == [];
  }

  /** `removePhoto`: every photo with that id goes and the others stay.
      Removing a photo that is there frees a slot, so the add button shows
      again. */
  function RemovePhoto(photos: seq<Photo>, id: real): (r: seq<Photo>)
    ensures !Has(r, PhotoId, id)
    ensures forall i :: 0 <= i < |photos| && photos[i].id != id ==> photos[i] in r
    ensures forall i :: 0 <= i < |r| ==> r[i] in photos
    ensures Has(photos, PhotoId, id) && |photos| <= MaxPhotos ==> CanAddMorePhotos(r)
  {
    Without(photos, PhotoId, id)
  }

  /** With unique ids, removing the photo at `p` takes out exactly that
      photo and keeps the others in order. */
  lemma RemovePhotoAt(photos: seq<Photo>, p: int)
    requires Unique(photos, PhotoId)
    requires 0 <= p < |photos|
    ensures RemovePhoto(photos, photos[p].id) == photos[..p] + photos[p + 1..]
    ensures |RemovePhoto(photos, photos[p].id)| == |photos| - 1
  {
    WithoutUniqueAt(photos, PhotoId, p);
  }

  /** A specification row. */
  datatype Spec = Spec(key: string, value: string)

  /** The row field a change names (`keyof Spec`). */
  datatype SpecField = KeyField | ValueField

  /** The rows the form starts with: four empty ones. */
  const InitialSpecs: seq<Spec> := [Spec("", ""), Spec("", ""), Spec("", ""), Spec("", "")]

  /** A row with one field replaced. */
  function SetField(s: Spec, field: SpecField, value: string): (r: Spec)
    ensures field == KeyField ==> r.key == value && r.value == s.value
    ensures field == ValueField ==> r.value == value && r.key == s.key
  {
    match field
    case KeyField => s.(key := value)
    case ValueField => s.(value := value)
  }

  /** `handleSpecChange`: the named field of the row at `index` takes the
      value; every other row, and the row count, stay. An index outside the
      rows changes nothing. */
  function HandleSpecChange(specs: seq<Spec>, index: int, field: SpecField, value: string): (r: seq<Spec>)
    ensures |r| == |specs|
    ensures forall i :: 0 <= i < |specs| && i != index ==> r[i] == specs[i]
    ensures 0 <= index < |specs| ==> r[index] == SetField(specs[index], field, value)
    ensures !(0 <= index < |specs|) ==> r == specs
  {
    seq(|specs|, i requires 0 <= i < |specs| => if i == index then SetField(specs[i], field, value) else specs[i])
  }

  /** A row that is submitted: both its key and its value are non-empty. */
  function Complete(s: Spec): bool
  {
    s.key != "" && s.value != ""
  }

  /** The rows `handleSubmit` sends, in order. */
  function SubmittedSpecs(specs: seq<Spec>): (r: seq<Spec>)
    ensures forall i :: 0 <= i < |r| ==> r[i] in specs && r[i].key != "" && r[i].value != ""
    ensures forall i :: 0 <= i < |specs| && specs[i].key != "" && specs[i].value != "" ==> specs[i] in r
  {
    FilterMembers(specs, Complete);
    Filter(specs, Complete)
  }

  /** The rows are sent block by block in the order they are listed, and a
      single row is sent exactly when both its fields are filled; together
      these fix the rows sent, their order and their multiplicity. */
  lemma SubmittedSpecsInOrder(a: seq<Spec>, b: seq<Spec>, row: Spec)
    ensures SubmittedSpecs(a + b) == SubmittedSpecs(a) + SubmittedSpecs(b)
    ensures SubmittedSpecs([row]) == if row.key != "" && row.value != "" then [row] else []
  {
    FilterAppend(a, b, Complete);
    FilterCons(row, [], Complete);
    assert [row] + [] == [row];
  }

  /** The untouched rows submit nothing; filling both fields of one of them
      submits exactly that row. */
  lemma SpecRowsSubmitWhenFilled(index: int, key: string, value: string)
    requires 0 <= index < |InitialSpecs|
    requires key != "" && value != ""
    ensures SubmittedSpecs(InitialSpecs) == []
    ensures SubmittedSpecs(HandleSpecChange(HandleSpecChange(InitialSpecs, index, KeyField, key), index, ValueField, value))
            == [Spec(key, value)]
  {
    FilterKeepsNone(InitialSpecs, Complete);
    var filled := HandleSpecChange(HandleSpecChange(InitialSpecs, index, KeyField, key), index, ValueField, value);
    forall i | 0 <= i < |filled| && i != index
      ensures !Complete(filled[i])
    {
      assert filled[i] == InitialSpecs[i];
    }
    FilterSingle(filled, Complete, index);
  }

  /** The form's fields. */
  datatype SellForm = SellForm(
    photos: seq<Photo>,
    title: string,
    description: string,
    specs: seq<Spec>,
    selectedCategory: string)

  /** The form before any input. */
  const InitialForm: SellForm := SellForm([], "", "", InitialSpecs, "")


  /** The product data handed over on submit. */
  datatype ProductData = ProductData(
    photos: seq<File>,
    title: string,
    description: string,
    specs: seq<Spec>,
    category: string)

  /** Where the data went: to the `onSubmit` callback, or, without one, to
      the success alert. */
  datatype Submitted = Submitted(data: ProductData, toCallback: bool, alert: Option<string>)

  const CreatedAlert: string := "Product created successfully!"

  /** `handleSubmit`: the photos' files in list order, the text fields as
      typed, and only the complete specification rows; nothing is
      validated. */
  function Submit(form: SellForm, hasOnSubmit: bool): (r: Submitted)
    ensures |r.data.photos| == |form.photos|
    ensures forall i :: 0 <= i < |form.photos| ==> r.data.photos[i] == form.photos[i].file
    ensures r.data.specs == SubmittedSpecs(form.specs)
    ensures r.data.title == form.title && r.data.description == form.description
    ensures r.data.category == form.selectedCategory
    ensures r.toCallback <==> hasOnSubmit
    ensures r.alert.Some? <==> !hasOnSubmit
    ensures r.alert.Some? ==> r.alert.value == CreatedAlert
  {
    var data := ProductData(PhotoFiles(form.photos), form.title, form.description,
                            SubmittedSpecs(form.specs), form.selectedCategory);
    if hasOnSubmit then Submitted(data, true, None) else Submitted(data, false, Some(CreatedAlert))
  }
}
