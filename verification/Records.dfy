/** Value types shared by the front end: a selected browser file, the record the
    file store keeps for it, and the blob a conversion produces. */
module Records {

  datatype Option<+T> = None | Some(value: T)

  function GetOr<T>(o: Option<T>, default: T): T
  {
    match o
    case Some(v) => v
    case None => default
  }

  /** A browser `File`. `id` stands for the object's identity: the front end
      compares files with `!=`, so two selections of the same file on disk are
      two different files. */
  datatype File = File(id: nat, name: string, mime: string, bytes: seq<bv8>)

  /** An object URL (`blob:` URL), identified by the number the registry issued. */
  type Handle = nat

  /** A `Blob` with its declared MIME type. */
  datatype Blob = Blob(bytes: seq<bv8>, mime: string)

  /** `UploadedFile`: the file, an optional preview URL, and the conversion
      result with its file name once a conversion produced one. */
  datatype UploadedFile = UploadedFile(
    file: File,
    preview: Option<Handle>,
    blob: Option<Blob>,
    blobName: Option<string>)

  /** The preview handles held by a list of records. */
  function Previews(rs: seq<UploadedFile>): set<Handle>
  {
    set r | r in rs && r.preview.Some? :: r.preview.value
  }

  /** No two records share a preview handle. */
  predicate DistinctPreviews(rs: seq<UploadedFile>)
  {
    forall i, j :: 0 <= i < j < |rs| && rs[i].preview.Some? && rs[j].preview.Some? ==>
      rs[i].preview.value != rs[j].preview.value
  }

  /** The previews of a concatenation are those of its parts. */
  lemma PreviewsAppend(a: seq<UploadedFile>, b: seq<UploadedFile>)
    ensures Previews(a + b) == Previews(a) + Previews(b)
  {
  }
}
