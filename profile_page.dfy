/** `handleImageChange` of client/src/pages/ProfilePage.jsx: the guard clauses that decide
    whether a chosen file becomes the profile picture to upload (`selectedImg`). */
module ProfilePage {
  import opened Wrappers

  /** 5 MiB: larger files are refused. */
  const MaxImageBytes: nat := 5 * 1024 * 1024

  /** The accepted MIME types, in the order the page lists them. */
  const ValidTypes: seq<string> := ["image/jpeg", "image/jpg", "image/png"]

  /** A chosen file as the browser's `File` reports it. */
  datatype File = File(name: string, size: nat, mimeType: string)

  /** What one change event did. The page never imports `toast`, so each rejection ends
      in a thrown ReferenceError where a message was meant; either way nothing is selected. */
  datatype ImageChange = NoFile | TooLarge | UnsupportedType | Accepted(file: File)

  /** Only the first file of the selection is looked at; size is checked before type. */
  function HandleImageChange(files: seq<File>): (r: ImageChange)
    ensures r == NoFile <==> files == []
    ensures r == TooLarge <==> files != [] && files[0].size > MaxImageBytes
    ensures r == UnsupportedType <==>
      files != [] && files[0].size <= MaxImageBytes && files[0].mimeType !in ValidTypes
    ensures r.Accepted? ==> r.file == files[0]
  {
    if files == [] then NoFile
    else
      var file := files[0];
      if file.size > MaxImageBytes then TooLarge
      else if file.mimeType !in ValidTypes then UnsupportedType
      else Accepted(file)
  }

  /** `selectedImg` after the event: the accepted file, or the previous value. */
  function SelectedImgAfter(selectedImg: Option<File>, files: seq<File>): (r: Option<File>)
    ensures r != selectedImg ==> HandleImageChange(files).Accepted?
  {
    match HandleImageChange(files)
    case Accepted(file) => Some(file)
    case _ => selectedImg
  }

  /** An image the upload may carry, stated independently of the guard clauses. */
  predicate AcceptableImage(f: File)
  {
    f.size <= MaxImageBytes && f.mimeType in {"image/jpeg", "image/jpg", "image/png"}
  }

  /** `selectedImg` only ever holds an acceptable image, however many change events occur,
      and any acceptable first file is taken. */
  lemma SelectionStaysAcceptable(selectedImg: Option<File>, files: seq<File>)
    requires selectedImg.Some? ==> AcceptableImage(selectedImg.value)
    ensures var r := SelectedImgAfter(selectedImg, files);
      r.Some? ==> AcceptableImage(r.value)
    ensures files != [] && AcceptableImage(files[0]) ==> SelectedImgAfter(selectedImg, files) == Some(files[0])
  {
  }

  /** Files after the first change nothing. */
  lemma {:induction false} OnlyFirstFileCounts(files: seq<File>, more: seq<File>)
    requires files != []
    ensures HandleImageChange(files + more) == HandleImageChange(files[..1])
  {
    assert (files + more)[0] == files[0] == files[..1][0];
  }

  /** The size test is strict: exactly 5 MiB passes, one byte more does not, and an
      oversized file of a refused type is refused on size. */
  lemma SizeBoundary(name: string)
    ensures HandleImageChange([File(name, 5 * 1024 * 1024, "image/png")]).Accepted?
    ensures HandleImageChange([File(name, 5 * 1024 * 1024 + 1, "image/png")]) == TooLarge
    ensures HandleImageChange([File(name, 5 * 1024 * 1024 + 1, "image/gif")]) == TooLarge
    ensures HandleImageChange([File(name, 1, "image/gif")]) == UnsupportedType
  {
  }
}
