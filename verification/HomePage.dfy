/** The home page: the upload allow-list and preview rule, removal of records
    with release of their preview URLs, the format menu, and the `convert_all`
    state machine around the worker. */
module HomePage {
  import opened Records
  import opened Seqs
  import FileStore
  import ConvertedStore
  import ObjectUrls
  import ConverterWorker

  /** The MIME types an upload may have. */
  const AllowedTypes: seq<string> :=
    ["image/png", "image/jpeg", "image/gif", "image/tiff", "image/webp", "image/bmp", "image/avif", "application/pdf"]

  /** Where the converter binary is served from. */
  const WasmPath: string := "/file_converter_bg.wasm"

  predicate IsAllowed(f: File)
  {
    f.mime in AllowedTypes
  }

  /** The upload filter of both the picker and the drop zone: the files whose
      type is allowed, in their given order. */
  function FilterAllowed(files: seq<File>): (valid: seq<File>)
    ensures |valid| <= |files|
    ensures forall f :: f in valid <==> f in files && f.mime in AllowedTypes
  {
    Filter(files, IsAllowed)
  }

  /** The filter works file by file: filtering a concatenation concatenates the filtered parts. */
  lemma FilterAllowedAppend(a: seq<File>, b: seq<File>)
    ensures FilterAllowed(a + b) == FilterAllowed(a) + FilterAllowed(b)
  {
    FilterAppend(a, b, IsAllowed);
  }

  /** A selection of allowed files only is uploaded whole, in order. */
  lemma AllowedSelectionKeptWhole(files: seq<File>)
    requires forall f :: f in files ==> f.mime in AllowedTypes
    ensures FilterAllowed(files) == files
  {
    FilterKeepsAll(files, IsAllowed);
  }

  /** A selection without any allowed file uploads nothing. */
  lemma DisallowedSelectionDropped(files: seq<File>)
    requires forall f :: f in files ==> f.mime !in AllowedTypes
    ensures FilterAllowed(files) == []
  {
    FilterDropsAll(files, IsAllowed);
  }

  predicate StartsWith(s: string, prefix: string)
  {
    |prefix| <= |s| && s[..|prefix|] == prefix
  }

  predicate EndsWith(s: string, suffix: string)
  {
    |suffix| <= |s| && s[|s| - |suffix|..] == suffix
  }

  /** A preview URL is made for an image type other than TIFF. */
  predicate NeedsPreview(mime: string)
  {
    StartsWith(mime, "image") && !EndsWith(mime, "tiff")
  }

  /** Among the allowed types, exactly PDF and TIFF get no preview. */
  lemma PreviewRuleOnAllowedTypes()
    ensures forall t :: t in AllowedTypes ==> (NeedsPreview(t) <==> t != "image/tiff" && t != "application/pdf")
  {
    assert !NeedsPreview("application/pdf") by { assert "application/pdf"[..5][0] == 'a'; }
  }

  /** The index of the first `sep` at or after `i`, or `|s|` when there is none. */
  function NextSep(s: string, sep: char, i: nat): (j: nat)
    requires i <= |s|
    ensures i <= j <= |s|
    ensures j < |s| ==> s[j] == sep
    ensures forall k :: i <= k < j ==> s[k] != sep
    decreases |s| - i
  {
    if i == |s| || s[i] == sep then i else NextSep(s, sep, i + 1)
  }

  /** Element `k` (0 or 1) of `s.split("/")`, or None where JavaScript reads `undefined`. */
  function Piece(s: string, k: nat): Option<string>
  {
    var first := NextSep(s, '/', 0);
    if k == 0 then Some(s[..first])
    else if k == 1 && first < |s| then Some(s[first + 1..NextSep(s, '/', first + 1)])
    else None
  }

  /** A MIME type with one slash splits into its two parts. */
  lemma MimePieces(major: string, minor: string)
    requires '/' !in major && '/' !in minor
    ensures Piece(major + "/" + minor, 0) == Some(major)
    ensures Piece(major + "/" + minor, 1) == Some(minor)
  {
    var s := major + "/" + minor;
    var first := NextSep(s, '/', 0);
    assert s[|major|] == '/';
    assert forall k :: 0 <= k < |major| ==> s[k] == major[k];
    assert first == |major|;
    var second := NextSep(s, '/', first + 1);
    assert forall k :: |major| < k < |s| ==> s[k] == minor[k - |major| - 1];
    assert second == |s|;
    assert s[..first] == major;
    assert s[first + 1..second] == minor;
  }

  /** The menu entries: the image subtypes of the allowed types, except the current format. */
  function MenuEntries(types: seq<string>, format: string): seq<string>
  {
    if types == [] then []
    else
      var t := types[0];
      (if Piece(t, 1) != Some(format) && Piece(t, 0) == Some("image") && Piece(t, 1).Some?
       then [Piece(t, 1).value] else [])
      + MenuEntries(types[1..], format)
  }

  function FormatMenu(format: string): seq<string>
  {
    MenuEntries(AllowedTypes, format)
  }

  /** The image subtypes of the allowed types, in menu order. */
  const ImageSubtypes: seq<string> := ["png", "jpeg", "gif", "tiff", "webp", "bmp", "avif"]

  function Differs(format: string): string -> bool
  {
    (t: string) => t != format
  }

  /** The menu lists the image subtypes, in order, without the current format. */
  lemma FormatMenuContents(format: string)
    ensures FormatMenu(format) == Filter(ImageSubtypes, Differs(format))
  {
    forall i | 0 <= i < 7
      ensures AllowedTypes[i] == "image" + "/" + ImageSubtypes[i] && '/' !in ImageSubtypes[i]
    {
      ImageTypeAt(i);
    }
    assert AllowedTypes[7] == "application" + "/" + "pdf";
    MenuAligned(AllowedTypes, ImageSubtypes, format);
  }

  /** A list of `image/<subtype>` types ending in one non-image type gives the
      subtypes, minus the current format, as menu entries. */
  lemma {:induction false} MenuAligned(types: seq<string>, subtypes: seq<string>, format: string)
    requires |types| == |subtypes| + 1
    requires forall i :: 0 <= i < |subtypes| ==> types[i] == "image" + "/" + subtypes[i] && '/' !in subtypes[i]
    requires types[|subtypes|] == "application" + "/" + "pdf"
    ensures MenuEntries(types, format) == Filter(subtypes, Differs(format))
    decreases |subtypes|
  {
    if subtypes == [] {
      MimePieces("application", "pdf");
      assert types[1..] == [];
    } else {
      MenuAligned(types[1..], subtypes[1..], format);
      MimePieces("image", subtypes[0]);
      assert types == [types[0]] + types[1..];
      assert subtypes == [subtypes[0]] + subtypes[1..];
      MenuStep(types[0], subtypes[0], types[1..], subtypes[1..], format);
    }
  }

  /** The first seven allowed types are `image/` and the matching subtype. */
  lemma ImageTypeAt(k: nat)
    requires k < 7
    ensures AllowedTypes[k] == "image" + "/" + ImageSubtypes[k]
    ensures '/' !in ImageSubtypes[k]
  {
  }

  /** One entry of the menu: an image type contributes its subtype unless it is the current format. */
  lemma MenuStep(t: string, subtype: string, types: seq<string>, subtypes: seq<string>, format: string)
    requires Piece(t, 0) == Some("image") && Piece(t, 1) == Some(subtype)
    requires MenuEntries(types, format) == Filter(subtypes, Differs(format))
    ensures MenuEntries([t] + types, format) == Filter([subtype] + subtypes, Differs(format))
  {
  }

  /** The record filters of `removeFile`. */
  function KeepsFile(f: File): UploadedFile -> bool
  {
    (r: UploadedFile) => r.file != f
  }

  function DropsFile(f: File): UploadedFile -> bool
  {
    (r: UploadedFile) => r.file == f
  }

  /** Every menu entry is a supported image subtype other than the current format. */
  lemma MenuEntryChoosable(format: string, t: string)
    requires t in FormatMenu(format)
    ensures t in ImageSubtypes && t != format
  {
    FormatMenuContents(format);
  }

  /** Removing a file never revokes a kept record's preview, provided no two
      records share a preview handle. */
  lemma RemoveFileSparesKept(rs: seq<UploadedFile>, f: File)
    requires DistinctPreviews(rs)
    ensures Previews(Filter(rs, KeepsFile(f))) !! Previews(Filter(rs, DropsFile(f)))
  {
  }

  /** One step of `removeFile`'s scan over `rs`. */
  lemma RemoveStep(rs: seq<UploadedFile>, i: nat, f: File)
    requires i < |rs|
    ensures Filter(rs[..i + 1], KeepsFile(f)) == Filter(rs[..i], KeepsFile(f)) + (if rs[i].file != f then [rs[i]] else [])
    ensures Previews(Filter(rs[..i + 1], DropsFile(f)))
         == Previews(Filter(rs[..i], DropsFile(f))) + (if rs[i].file == f && rs[i].preview.Some? then {rs[i].preview.value} else {})
  {
    FilterSnoc(rs, i, KeepsFile(f));
    FilterSnoc(rs, i, DropsFile(f));
    var tail := if rs[i].file == f then [rs[i]] else [];
    PreviewsAppend(Filter(rs[..i], DropsFile(f)), tail);
    assert Previews(tail) == (if rs[i].file == f && rs[i].preview.Some? then {rs[i].preview.value} else {});
  }

  /** `r` is the record `processFiles` makes for `f`: no result yet, and a
      preview exactly when the type calls for one. */
  predicate IsNewRecord(r: UploadedFile, f: File)
  {
    r.file == f && r.blob.None? && r.blobName.None? && (r.preview.Some? <==> NeedsPreview(f.mime))
  }

  /** What `processFiles(files)` does: one new record per file appended in
      order, each new preview a handle issued by this call and now live. */
  ghost predicate Uploaded(before: seq<UploadedFile>, after: seq<UploadedFile>, files: seq<File>,
                           oldNext: nat, newNext: nat, oldLive: set<Handle>, newLive: set<Handle>)
  {
    && oldNext <= newNext
    && |after| == |before| + |files|
    && after[..|before|] == before
    && (forall i :: 0 <= i < |files| ==> IsNewRecord(after[|before| + i], files[i]))
    && (forall h :: h in Previews(after[|before|..]) ==> oldNext <= h < newNext)
    && DistinctPreviews(after[|before|..])
    && newLive == oldLive + Previews(after[|before|..])
  }

  /** An upload keeps preview handles unique: the new ones were never issued before. */
  lemma {:induction false} UploadKeepsPreviewsDistinct(before: seq<UploadedFile>, after: seq<UploadedFile>, files: seq<File>,
                                                     oldNext: nat, newNext: nat, oldLive: set<Handle>, newLive: set<Handle>)
    requires Uploaded(before, after, files, oldNext, newNext, oldLive, newLive)
    requires DistinctPreviews(before)
    requires forall h :: h in Previews(before) ==> h < oldNext
    ensures DistinctPreviews(after)
    ensures forall h :: h in Previews(after) ==> h < newNext
  {
    var added := after[|before|..];
    assert after == before + added;
    PreviewsAppend(before, added);
    forall i, j | 0 <= i < j < |after| && after[i].preview.Some? && after[j].preview.Some?
      ensures after[i].preview.value != after[j].preview.value
    {
      if j < |before| {
        assert after[i] == before[i] && after[j] == before[j];
      } else if i < |before| {
        assert after[i] == before[i] && after[i] in before;
        assert after[i].preview.value in Previews(before);
        assert after[j] == added[j - |before|] && after[j] in added;
        assert after[j].preview.value in Previews(added);
      } else {
        assert after[i] == added[i - |before|] && after[j] == added[j - |before|];
      }
    }
  }

  /** Where the app is: the upload page or the download page. */
  datatype Route = Home | DownloadPage

  /** What reaches the page from the worker: a posted message, or an error event. */
  datatype WorkerEvent = Message(response: ConverterWorker.Response) | WorkerError(message: string)

  /** How the promise around the worker settles. */
  datatype Settlement = Resolved(files: Option<seq<UploadedFile>>) | Rejected(reason: string)

  const UnknownWorkerFailure: string := "Worker conversion failed with unknown error."

  /** The worker's handlers: a failure message or an error event rejects the
      promise; a success message resolves it with whatever `convertedFiles`
      holds (the later `resolve` after a `reject` has no effect). */
  function Settle(ev: WorkerEvent): (s: Settlement)
    ensures s.Rejected? <==> ev.WorkerError? || !ev.response.success
    ensures s.Resolved? ==> s.files == ev.response.convertedFiles
    ensures ev.WorkerError? ==> s.reason == "Worker error: " + ev.message
  {
    match ev
    case WorkerError(msg) => Rejected("Worker error: " + msg)
    case Message(resp) =>
      if !resp.success then
        Rejected(if resp.error.Some? && resp.error.value != "" then resp.error.value else UnknownWorkerFailure)
      else Resolved(resp.convertedFiles)
  }

  /** The home page component with the stores and the URL registry it uses. */
  class Page {
    const store: FileStore.Files
    const flag: ConvertedStore.Converted
    const urls: ObjectUrls.Registry
    /** The chosen output format, "" until one is picked. */
    var format: string
    /** True while a batch is in flight. */
    var converting: bool
    var route: Route

    ghost predicate Valid()
      reads this, urls
    {
      urls.Valid() && (format == "" || format in ImageSubtypes)
    }

    constructor (store: FileStore.Files, flag: ConvertedStore.Converted, urls: ObjectUrls.Registry)
      requires urls.Valid()
      ensures Valid()
      ensures this.store == store && this.flag == flag && this.urls == urls
      ensures format == "" && !converting && route == Home
    {
      this.store, this.flag, this.urls := store, flag, urls;
      format, converting, route := "", false, Home;
    }

    /** The Convert button is shown when there are records and enabled when a
        format is chosen and no batch is in flight. */
    predicate ConvertEnabled()
      reads this, store
    {
      |store.uploadedFiles| > 0 && format != "" && !converting
    }

    /** `forEach(f => f.preview && URL.revokeObjectURL(f.preview))`. */
    method RevokePreviews(rs: seq<UploadedFile>)
      requires urls.Valid()
      modifies urls
      ensures urls.Valid() && urls.next == old(urls.next)
      ensures urls.live == old(urls.live) - Previews(rs)
    {
      for i := 0 to |rs|
        invariant urls.Valid() && urls.next == old(urls.next)
        invariant urls.live == old(urls.live) - Previews(rs[..i])
      {
        assert rs[..i + 1] == rs[..i] + [rs[i]];
        PreviewsAppend(rs[..i], [rs[i]]);
        if rs[i].preview.Some? {
          urls.Revoke(rs[i].preview.value);
        }
      }
      assert rs[..|rs|] == rs;
    }

    /** `removeAll`: every preview of the current records is revoked, then the list is emptied. */
    method RemoveAll()
      requires Valid()
      modifies store, urls
      ensures Valid()
      ensures store.uploadedFiles == []
      ensures urls.live == old(urls.live) - Previews(old(store.uploadedFiles)) && urls.next == old(urls.next)
    {
      RevokePreviews(store.uploadedFiles);
      store.SetUploadedFiles([]);
    }

    /** The mount effect: clear the records, reset the flag, the busy state and
        the format. Returns the list the unmount cleanup captures; that cleanup
        is `RevokePreviews` of it. */
    method Mount() returns (captured: seq<UploadedFile>)
      requires Valid()
      modifies this, store, flag, urls
      ensures Valid()
      ensures captured == old(store.uploadedFiles)
      ensures store.uploadedFiles == [] && !flag.converted && !converting && format == "" && route == old(route)
      ensures urls.live == old(urls.live) - Previews(captured) && urls.next == old(urls.next)
    {
      captured := store.uploadedFiles;
      RemoveAll();
      flag.SetConverted(false);
      converting := false;
      format := "";
    }

    /** `processFiles`: nothing for an empty list; otherwise one record per
        file, with a fresh preview URL for previewable types, appended in order. */
    method ProcessFiles(files: seq<File>)
      requires Valid()
      modifies store, urls
      ensures Valid()
      ensures Uploaded(old(store.uploadedFiles), store.uploadedFiles, files,
                       old(urls.next), urls.next, old(urls.live), urls.live)
    {
      var before := store.uploadedFiles;
      if |files| == 0 {
        assert before[|before|..] == [];
        return;
      }
      var processed: seq<UploadedFile> := [];
      for i := 0 to |files|
        invariant urls.Valid() && old(urls.next) <= urls.next
        invariant store.uploadedFiles == before
        invariant |processed| == i
        invariant forall k :: 0 <= k < i ==> IsNewRecord(processed[k], files[k])
        invariant forall h :: h in Previews(processed) ==> old(urls.next) <= h < urls.next
        invariant DistinctPreviews(processed)
        invariant urls.live == old(urls.live) + Previews(processed)
      {
        var preview: Option<Handle> := None;
        if NeedsPreview(files[i].mime) {
          var h := urls.Create();
          preview := Some(h);
        }
        var rec := UploadedFile(files[i], preview, None, None);
        PreviewsAppend(processed, [rec]);
        processed := processed + [rec];
      }
      store.AddUploadedFiles(processed);
      assert store.uploadedFiles[|before|..] == processed;
    }

    /** `handleFiles`, the file picker: the picker is disabled while
        converting; otherwise the allowed files are processed. */
    method HandleFiles(selected: seq<File>)
      requires Valid()
      modifies store, urls
      ensures Valid()
      ensures old(converting) ==> store.uploadedFiles == old(store.uploadedFiles)
                                  && urls.live == old(urls.live) && urls.next == old(urls.next)
      ensures !old(converting) ==> Uploaded(old(store.uploadedFiles), store.uploadedFiles, FilterAllowed(selected),
                                            old(urls.next), urls.next, old(urls.live), urls.live)
    {
      if converting {
        return;
      }
      ProcessFiles(FilterAllowed(selected));
    }

    /** `handleDrop`, the drop zone: the allowed files are processed, also while converting. */
    method HandleDrop(dropped: seq<File>)
      requires Valid()
      modifies store, urls
      ensures Valid()
      ensures Uploaded(old(store.uploadedFiles), store.uploadedFiles, FilterAllowed(dropped),
                       old(urls.next), urls.next, old(urls.live), urls.live)
    {
      ProcessFiles(FilterAllowed(dropped));
    }

    /** `removeFile`: keeps, in order, the records of other files and revokes
        the preview of every record of `f`. */
    method RemoveFile(f: File)
      requires Valid()
      modifies store, urls
      ensures Valid()
      ensures store.uploadedFiles == Filter(old(store.uploadedFiles), KeepsFile(f))
      ensures urls.live == old(urls.live) - Previews(Filter(old(store.uploadedFiles), DropsFile(f)))
      ensures urls.next == old(urls.next)
    {
      var rs := store.uploadedFiles;
      var kept: seq<UploadedFile> := [];
      ghost var gone: set<Handle> := {};
      for i := 0 to |rs|
        invariant urls.Valid() && urls.next == old(urls.next)
        invariant store.uploadedFiles == rs
        invariant kept == Filter(rs[..i], KeepsFile(f))
        invariant gone == Previews(Filter(rs[..i], DropsFile(f)))
        invariant urls.live == old(urls.live) - gone
      {
        RemoveStep(rs, i, f);
        if rs[i].file != f {
          kept := kept + [rs[i]];
        } else if rs[i].preview.Some? {
          urls.Revoke(rs[i].preview.value);
        }
        gone := gone + (if rs[i].file == f && rs[i].preview.Some? then {rs[i].preview.value} else {});
      }
      assert rs[..|rs|] == rs;
      store.SetUploadedFiles(kept);
    }

    /** Picking an entry of the format menu. */
    method ChooseFormat(t: string)
      requires Valid() && t in FormatMenu(format)
      modifies this
      ensures Valid() && format == t && t != old(format)
      ensures converting == old(converting) && route == old(route)
    {
      MenuEntryChoosable(format, t);
      format := t;
    }

    /** A click on Convert: ignored unless the button is enabled; otherwise the
        page becomes busy and posts the current records and format to a new worker. */
    method ClickConvert() returns (req: Option<ConverterWorker.Request>)
      requires Valid()
      modifies this
      ensures Valid() && format == old(format) && route == old(route)
      ensures old(ConvertEnabled()) ==> converting && req == Some(ConverterWorker.Request(store.uploadedFiles, format, WasmPath))
      ensures !old(ConvertEnabled()) ==> req.None? && converting == old(converting)
    {
      if !ConvertEnabled() {
        return None;
      }
      converting := true;
      req := Some(ConverterWorker.Request(store.uploadedFiles, format, WasmPath));
    }

    /** The rest of `convert_all`, once the worker has answered. A success
        replaces the records; a missing record list returns early; a rejection
        leaves the records, but, as the catch block does not return, the flag
        is still set and the page still moves on. Preview URLs are untouched. */
    method FinishConvert(ev: WorkerEvent)
      requires Valid() && converting
      modifies this, store, flag
      ensures Valid() && !converting && format == old(format)
      ensures Settle(ev) == Resolved(None) ==>
        store.uploadedFiles == old(store.uploadedFiles) && flag.converted == old(flag.converted) && route == old(route)
      ensures Settle(ev).Resolved? && Settle(ev).files.Some? ==>
        store.uploadedFiles == Settle(ev).files.value && flag.converted && route == DownloadPage
      ensures Settle(ev).Rejected? ==>
        store.uploadedFiles == old(store.uploadedFiles) && flag.converted && route == DownloadPage
    {
      var settled := Settle(ev);
      if settled.Rejected? {
        converting := false;
      } else if settled.files.None? {
        converting := false;
        return;
      } else {
        store.SetUploadedFiles(settled.files.value);
      }
      flag.SetConverted(true);
      route := DownloadPage;
      converting := false;
    }
  }
}
