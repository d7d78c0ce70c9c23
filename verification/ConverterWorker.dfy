/** The conversion worker: a one-time library initialisation, then one
    `convert_image` call per record, each failure isolated to its record. */
module ConverterWorker {
  import opened Records
  import Converter

  /** The message the home page posts to the worker. */
  datatype Request = Request(uploadedFiles: seq<UploadedFile>, format: string, wasmPath: string)

  /** The message the worker posts back, with the untyped envelope's fields. */
  datatype Response = Response(success: bool, convertedFiles: Option<seq<UploadedFile>>, error: Option<string>)

  /** `toLowerCase` on the ASCII letters. */
  function Lower(s: string): (r: string)
    ensures |r| == |s|
    ensures forall i :: 0 <= i < |s| ==> r[i] == if 'A' <= s[i] <= 'Z' then (s[i] - 'A' + 'a') as char else s[i]
  {
    seq(|s|, i requires 0 <= i < |s| => if 'A' <= s[i] <= 'Z' then (s[i] - 'A' + 'a') as char else s[i])
  }

  /** `k` is where `/\.[^/.]+$/` matches `s`: a dot followed by a non-empty
      run of characters, none of them `/` or `.`, up to the end. */
  ghost predicate IsExtensionDot(s: string, k: int)
  {
    0 <= k < |s| - 1 && s[k] == '.' && forall j :: k < j < |s| ==> s[j] != '/' && s[j] != '.'
  }

  /** Scans `s` backwards from `i` for the dot that starts an extension. */
  function ExtensionDot(s: string, i: nat): (k: Option<nat>)
    requires i <= |s|
    requires forall j :: i <= j < |s| ==> s[j] != '/' && s[j] != '.'
    ensures k.Some? ==> IsExtensionDot(s, k.value)
    ensures k.None? ==> forall k' :: !IsExtensionDot(s, k')
    decreases i
  {
    if i == 0 then None
    else if s[i - 1] == '/' then None
    else if s[i - 1] == '.' then (if i < |s| then Some(i - 1) else None)
    else ExtensionDot(s, i - 1)
  }

  /** `name.replace(/\.[^/.]+$/, '')`. */
  function StripExtension(name: string): (r: string)
    ensures forall k :: IsExtensionDot(name, k) ==> r == name[..k]
    ensures (forall k :: !IsExtensionDot(name, k)) ==> r == name
  {
    match ExtensionDot(name, |name|)
    case Some(k) => name[..k]
    case None => name
  }

  /** The converted file's name: the source name without its extension, then
      a dot and the lower-cased format. */
  function OutputName(name: string, format: string): (r: string)
    ensures |r| > |Lower(format)|
    ensures r[|r| - |format| - 1..] == "." + Lower(format)
    ensures r[..|r| - |format| - 1] == StripExtension(name)
  {
    StripExtension(name) + "." + Lower(format)
  }

  /** The MIME type of the converted blob. */
  function OutputMime(format: string): string
  {
    "image/" + Lower(format)
  }

  /** The per-record step: the bytes go to `convert_image` whatever the
      record's MIME type; a rejected call leaves the record exactly as it was,
      a successful one keeps file and preview and adds blob and blob name. */
  function ConvertRecord(codec: Converter.Codec, rec: UploadedFile, format: string): (r: UploadedFile)
    ensures r.file == rec.file && r.preview == rec.preview
    ensures Converter.ConvertImage(codec, rec.file.bytes, format).Err? ==> r == rec
    ensures Converter.ConvertImage(codec, rec.file.bytes, format).Ok? ==>
      && r.blob == Some(Blob(Converter.ConvertImage(codec, rec.file.bytes, format).value, OutputMime(format)))
      && r.blobName == Some(OutputName(rec.file.name, format))
  {
    match Converter.ConvertImage(codec, rec.file.bytes, format)
    case Err(_) => rec
    case Ok(output) => rec.(blob := Some(Blob(output, OutputMime(format))), blobName := Some(OutputName(rec.file.name, format)))
  }

  /** The batch: one output per input, in the same order, each depending on
      its own input only. */
  function ConvertAll(codec: Converter.Codec, recs: seq<UploadedFile>, format: string): (r: seq<UploadedFile>)
    ensures |r| == |recs|
    ensures forall i :: 0 <= i < |recs| ==> r[i] == ConvertRecord(codec, recs[i], format)
  {
    seq(|recs|, i requires 0 <= i < |recs| => ConvertRecord(codec, recs[i], format))
  }

  /** One worker instance and its module-level `wasmInit` flag. */
  class Worker {
    var wasmInit: bool
    /** How many times the library's `init` was called, and how many of those calls returned. */
    ghost var initCalls: nat
    ghost var initSuccesses: nat

    ghost predicate Valid()
      reads this
    {
      initSuccesses <= 1 && (wasmInit <==> initSuccesses == 1)
    }

    constructor ()
      ensures Valid() && !wasmInit && initCalls == 0 && initSuccesses == 0
    {
      wasmInit := false;
      initCalls := 0;
      initSuccesses := 0;
    }

    /** `initWasm`: calls `init` only while the flag is false. `initOutcome`
        is what that call does: None when it returns, Some(message) when it
        throws. Once initialised, later calls are no-ops; a throwing `init`
        leaves the flag false. */
    method InitWasm(wasmPath: string, initOutcome: Option<string>) returns (thrown: Option<string>)
      requires Valid()
      modifies this
      ensures Valid()
      ensures old(wasmInit) ==> thrown.None? && wasmInit && initCalls == old(initCalls) && initSuccesses == old(initSuccesses)
      ensures !old(wasmInit) ==> thrown == initOutcome && wasmInit == initOutcome.None? && initCalls == old(initCalls) + 1
    {
      thrown := None;
      if !wasmInit {
        initCalls := initCalls + 1;
        if initOutcome.Some? {
          thrown := initOutcome;
          return;
        }
        wasmInit := true;
        initSuccesses := initSuccesses + 1;
      }
    }

    /** `onmessage`: initialise, then convert every record. An initialisation
        failure is the only way to a `success: false` response. */
    method OnMessage(codec: Converter.Codec, req: Request, initOutcome: Option<string>) returns (resp: Response)
      requires Valid()
      modifies this
      ensures Valid()
      ensures resp.success <==> old(wasmInit) || initOutcome.None?
      ensures resp.success ==> resp == Response(true, Some(ConvertAll(codec, req.uploadedFiles, req.format)), None)
      ensures !resp.success ==> resp == Response(false, None, initOutcome)
    {
      var thrown := InitWasm(req.wasmPath, initOutcome);
      if thrown.Some? {
        resp := Response(false, None, thrown);
        return;
      }
      var convertedFiles := ConvertAll(codec, req.uploadedFiles, req.format);
      resp := Response(true, Some(convertedFiles), None);
    }
  }

  /** The examples of the name derivation: the last extension only, a name
      without one, and a trailing dot (not an extension). */
  lemma OutputNameExamples()
    ensures OutputName("a.tar.gz", "png") == "a.tar.png"
    ensures OutputName("noext", "png") == "noext.png"
    ensures OutputName("file.", "png") == "file..png"
    ensures OutputName("dir.v2/photo", "webp") == "dir.v2/photo.webp"
    ensures OutputName("Photo.JPG", "PNG") == "Photo.png"
  {
    assert IsExtensionDot("a.tar.gz", 5);
    assert IsExtensionDot("Photo.JPG", 5);
    var path := "dir.v2/photo";
    assert path[6] == '/';
    assert forall k :: !IsExtensionDot(path, k);
  }
}
