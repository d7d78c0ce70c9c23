/** The download page: saves the single converted file, or a zip archive of
    every converted file, through a temporary object URL. */
module Download {
  import opened Records
  import FileStore
  import ConvertedStore
  import ObjectUrls

  /** A `zip.file(name, blob)` call. */
  datatype ZipEntry = ZipEntry(name: string, blob: Blob)

  /** What the browser is asked to save when the anchor is clicked. */
  datatype Export =
    | NoDownload
    | SingleFile(blob: Blob, name: string)
    | Archive(entries: seq<ZipEntry>, name: string)

  const ArchiveName: string := "converted_files.zip"

  /** The zip loop's test `blob && blob_name`: a Blob object is always truthy,
      the name only when it is not empty. */
  predicate Zippable(r: UploadedFile)
  {
    r.blob.Some? && r.blobName.Some? && r.blobName.value != ""
  }

  function EntryOf(r: UploadedFile): ZipEntry
    requires Zippable(r)
  {
    ZipEntry(r.blobName.value, r.blob.value)
  }

  /** The entries added to the archive, in record order. */
  function ZipEntries(rs: seq<UploadedFile>): (es: seq<ZipEntry>)
    ensures |es| <= |rs|
    ensures forall e :: e in es ==> e.name != ""
    ensures forall r :: r in rs && Zippable(r) ==> EntryOf(r) in es
    ensures forall e :: e in es ==> exists r :: r in rs && Zippable(r) && e == EntryOf(r)
  {
    if rs == [] then []
    else
      var init := rs[..|rs| - 1];
      var last := rs[|rs| - 1];
      assert rs == init + [last];
      ZipEntries(init) + (if Zippable(last) then [EntryOf(last)] else [])
  }

  /** Every record with a named result contributes exactly one entry. */
  lemma {:induction false} ZipEntriesAll(rs: seq<UploadedFile>)
    requires forall r :: r in rs ==> Zippable(r)
    ensures |ZipEntries(rs)| == |rs|
    ensures forall i :: 0 <= i < |rs| ==> ZipEntries(rs)[i] == EntryOf(rs[i])
  {
    if rs != [] {
      var init := rs[..|rs| - 1];
      var last := rs[|rs| - 1];
      assert forall r :: r in init ==> r in rs;
      ZipEntriesAll(init);
      assert last in rs;
      assert ZipEntries(rs) == ZipEntries(init) + [EntryOf(last)];
      forall i | 0 <= i < |rs|
        ensures ZipEntries(rs)[i] == EntryOf(rs[i])
      {
        if i < |init| {
          assert rs[i] == init[i];
        }
      }
    }
  }

  /** The entries of a concatenation are those of its parts. */
  lemma {:induction false} ZipEntriesAppend(a: seq<UploadedFile>, b: seq<UploadedFile>)
    ensures ZipEntries(a + b) == ZipEntries(a) + ZipEntries(b)
    decreases |b|
  {
    if b == [] {
      assert a + b == a;
    } else {
      var init := b[..|b| - 1];
      assert (a + b)[..|a + b| - 1] == a + init;
      assert (a + b)[|a + b| - 1] == b[|b| - 1];
      ZipEntriesAppend(a, init);
    }
  }

  /** What a click on Download saves: nothing unless the batch finished and
      there are records; for one record its blob under `blob_name ?? ""`, and
      nothing when it has no blob; for several, an archive of the zippable
      ones, made even when none is. */
  function ExportPlan(converted: bool, rs: seq<UploadedFile>): (x: Export)
    ensures !converted || rs == [] ==> x.NoDownload?
    ensures converted && |rs| == 1 ==>
      (x.NoDownload? <==> rs[0].blob.None?)
      && (x.SingleFile? ==> x.blob == rs[0].blob.value && x.name == GetOr(rs[0].blobName, ""))
    ensures converted && |rs| == 1 && rs[0].blob.Some? ==> x == SingleFile(rs[0].blob.value, GetOr(rs[0].blobName, ""))
    ensures converted && |rs| > 1 ==> x.Archive? && x.name == ArchiveName
    ensures x.Archive? ==> x.entries == ZipEntries(rs)
  {
    if !converted || rs == [] then NoDownload
    else if |rs| == 1 then
      if rs[0].blob.None? then NoDownload else SingleFile(rs[0].blob.value, GetOr(rs[0].blobName, ""))
    else Archive(ZipEntries(rs), ArchiveName)
  }

  /** The `forEach` that fills the archive. */
  method CollectEntries(rs: seq<UploadedFile>) returns (entries: seq<ZipEntry>)
    ensures entries == ZipEntries(rs)
  {
    entries := [];
    for i := 0 to |rs|
      invariant entries == ZipEntries(rs[..i])
    {
      assert rs[..i + 1][..i] == rs[..i];
      if Zippable(rs[i]) {
        entries := entries + [EntryOf(rs[i])];
      }
    }
    assert rs[..|rs|] == rs;
  }

  /** The download page with the stores and the URL registry it uses. */
  class DownloadPage {
    const store: FileStore.Files
    const flag: ConvertedStore.Converted
    const urls: ObjectUrls.Registry
    /** Drives the spinner. */
    var downloading: bool

    constructor (store: FileStore.Files, flag: ConvertedStore.Converted, urls: ObjectUrls.Registry)
      ensures this.store == store && this.flag == flag && this.urls == urls && !downloading
    {
      this.store, this.flag, this.urls := store, flag, urls;
      downloading := false;
    }

    /** `download`, as written. The spinner is switched on first and switched
        off only after a save, so every early return leaves it on. The archive
        path creates two URLs for the zip, links the second and revokes the
        first, so one URL stays live. */
    method Download() returns (saved: Export)
      requires urls.Valid()
      modifies this, urls
      ensures urls.Valid()
      ensures saved == ExportPlan(flag.converted, store.uploadedFiles)
      ensures downloading <==> saved.NoDownload?
      ensures saved.NoDownload? ==> urls.live == old(urls.live) && urls.next == old(urls.next)
      ensures saved.SingleFile? ==> urls.live == old(urls.live) && urls.next == old(urls.next) + 1
      ensures saved.Archive? ==> urls.live == old(urls.live) + {old(urls.next) + 1} && urls.next == old(urls.next) + 2
      ensures saved.Archive? ==> urls.live != old(urls.live)
    {
      downloading := true;
      var rs := store.uploadedFiles;
      if !flag.converted || |rs| == 0 {
        return NoDownload;
      }
      if |rs| == 1 {
        if rs[0].blob.None? {
          return NoDownload;
        }
        var url := urls.Create();
        saved := SingleFile(rs[0].blob.value, GetOr(rs[0].blobName, ""));
        urls.Revoke(url);
        downloading := false;
        return;
      }
      var entries := CollectEntries(rs);
      var url := urls.Create();
      var href := urls.Create();
      saved := Archive(entries, ArchiveName);
      urls.Revoke(url);
      downloading := false;
    }

    /** `download` as evidently intended: the anchor uses the URL that is
        revoked afterwards, and the spinner is off again on every path. */
    method DownloadCorrected() returns (saved: Export)
      requires urls.Valid()
      modifies this, urls
      ensures urls.Valid()
      ensures saved == ExportPlan(flag.converted, store.uploadedFiles)
      ensures !downloading
      ensures urls.live == old(urls.live)
      ensures urls.next == old(urls.next) + (if saved.NoDownload? then 0 else 1)
    {
      downloading := true;
      var rs := store.uploadedFiles;
      if !flag.converted || |rs| == 0 || (|rs| == 1 && rs[0].blob.None?) {
        downloading := false;
        return NoDownload;
      }
      if |rs| == 1 {
        saved := SingleFile(rs[0].blob.value, GetOr(rs[0].blobName, ""));
      } else {
        var entries := CollectEntries(rs);
        saved := Archive(entries, ArchiveName);
      }
      var url := urls.Create();
      urls.Revoke(url);
      downloading := false;
    }
  }
}
