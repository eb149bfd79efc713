/**
 The data model shared by the admin panel's components: articles, the
 form's field record, image entries and the clock readings the page takes.
 */
module NewsTypes {

  datatype Option<+T> = None | Some(value: T)

  /** A browser `File` object picked in the file input; only its identity matters. */
  datatype File = File(handle: nat)

  /**
   An entry of an `images` array. JavaScript lets it hold either a string
   (a remote URL, an object URL or a data URL) or a `File` that has not yet
   been turned into a URL.
   */
  datatype ImageRef = Url(url: string) | Upload(file: File)

  /** Article ids are JavaScript numbers (`Date.now()` or the sample's 1 and 2). */
  type Id = int

  datatype Article = Article(
    id: Id,
    title: string,
    description: string,
    images: seq<ImageRef>,
    createdAt: string)

  /**
   The `formData` record: the form's draft, and also the object the form
   hands to the page on submit (the same fields, `images` overridden).
   */
  datatype FormData = FormData(title: string, description: string, images: seq<ImageRef>)

  /** One reading of the clock: `Date.now()` and `new Date().toISOString()`. */
  datatype Clock = Clock(millis: int, iso: string)

  /** Every entry is a string, i.e. something an `<img src>` can show. */
  predicate AllUrls(images: seq<ImageRef>) {
    forall i :: 0 <= i < |images| ==> images[i].Url?
  }

  /** The `File`s of a selection, as entries of an `images` array. */
  function Uploads(files: seq<File>): (r: seq<ImageRef>)
    ensures |r| == |files|
    ensures forall i :: 0 <= i < |files| ==> r[i] == Upload(files[i])
  {
    seq(|files|, i requires 0 <= i < |files| => Upload(files[i]))
  }
}
