/** Properties of the whole flow: the home page hands the records to a worker,
    the worker runs the converter on each, and the download page saves the
    results. */
module Pipeline {
  import opened Records
  import Converter
  import ConverterWorker
  import HomePage
  import Download

  /** Of the image subtypes the page knows, exactly "bmp" and "avif" are not
      converter formats. */
  lemma UnknownImageSubtypes()
    ensures forall t :: t in HomePage.ImageSubtypes ==>
      (Converter.FormatFromToken(t).None? <==> t == "bmp" || t == "avif")
    ensures "bmp" in HomePage.ImageSubtypes && "avif" in HomePage.ImageSubtypes
  {
  }

  /** The menu offers exactly two formats that the converter does not know:
      "bmp" and "avif". */
  lemma MenuOffersUnknownFormats(format: string)
    ensures forall t :: t in HomePage.FormatMenu(format) ==>
      (Converter.FormatFromToken(t).None? <==> t == "bmp" || t == "avif")
    ensures format != "bmp" ==> "bmp" in HomePage.FormatMenu(format)
    ensures format != "avif" ==> "avif" in HomePage.FormatMenu(format)
  {
    UnknownImageSubtypes();
    forall t | t in HomePage.FormatMenu(format)
      ensures t in HomePage.ImageSubtypes
    {
      HomePage.MenuEntryChoosable(format, t);
    }
    HomePage.FormatMenuContents(format);
    assert HomePage.Differs(format)("bmp") <==> format != "bmp";
    assert HomePage.Differs(format)("avif") <==> format != "avif";
  }

  /** A batch in a format the converter does not know changes no record: each
      call fails and the worker keeps the record as it was. */
  lemma UnknownFormatChangesNothing(codec: Converter.Codec, recs: seq<UploadedFile>, format: string)
    requires Converter.FormatFromToken(format).None?
    ensures ConverterWorker.ConvertAll(codec, recs, format) == recs
  {
  }

  /** A batch keeps every record's file and preview URL, so the previews stay
      exactly the live handles they were. */
  lemma ConvertAllKeepsPreviews(codec: Converter.Codec, recs: seq<UploadedFile>, format: string)
    ensures Previews(ConverterWorker.ConvertAll(codec, recs, format)) == Previews(recs)
    ensures DistinctPreviews(recs) ==> DistinctPreviews(ConverterWorker.ConvertAll(codec, recs, format))
  {
  }

  /** The converter decides from the bytes alone: two records with the same
      bytes, name and no earlier result get the same result whatever their
      declared MIME types, so a PDF is handed to the image decoder too. */
  lemma MimeTypeIsIgnored(codec: Converter.Codec, r1: UploadedFile, r2: UploadedFile, format: string)
    requires r1.file.bytes == r2.file.bytes && r1.file.name == r2.file.name
    requires r1.blob == r2.blob && r1.blobName == r2.blobName
    ensures ConverterWorker.ConvertRecord(codec, r1, format).blob == ConverterWorker.ConvertRecord(codec, r2, format).blob
    ensures ConverterWorker.ConvertRecord(codec, r1, format).blobName == ConverterWorker.ConvertRecord(codec, r2, format).blobName
  {
  }

  /** When every file converts, every record goes into the archive, in order,
      under its derived name. */
  lemma ZipHoldsEveryConvertedFile(codec: Converter.Codec, recs: seq<UploadedFile>, format: string)
    requires forall i :: 0 <= i < |recs| ==> Converter.ConvertImage(codec, recs[i].file.bytes, format).Ok?
    ensures |Download.ZipEntries(ConverterWorker.ConvertAll(codec, recs, format))| == |recs|
    ensures forall i :: 0 <= i < |recs| ==>
      Download.ZipEntries(ConverterWorker.ConvertAll(codec, recs, format))[i].name
        == ConverterWorker.OutputName(recs[i].file.name, format)
  {
    var out := ConverterWorker.ConvertAll(codec, recs, format);
    forall r | r in out
      ensures Download.Zippable(r)
    {
      var i :| 0 <= i < |out| && out[i] == r;
      assert |ConverterWorker.OutputName(recs[i].file.name, format)| > 0;
    }
    Download.ZipEntriesAll(out);
  }

  /** One file converted to "bmp", a format the menu offers, leaves a record
      with no blob, so the download page saves nothing and, as written, keeps
      its spinner on. */
  lemma UnknownFormatLeavesNothingToSave(codec: Converter.Codec, rec: UploadedFile)
    requires rec.blob.None?
    ensures "bmp" in HomePage.FormatMenu("")
    ensures Download.ExportPlan(true, ConverterWorker.ConvertAll(codec, [rec], "bmp")) == Download.NoDownload
  {
    MenuOffersUnknownFormats("");
    UnknownFormatChangesNothing(codec, [rec], "bmp");
  }

  /** A click on Convert followed by one fresh worker's answer. A disabled
      button does nothing. Otherwise the page ends on the download route with
      the flag set; the records are the converted ones when the worker could
      initialise, and unchanged when it could not. */
  method RunBatch(page: HomePage.Page, codec: Converter.Codec, initOutcome: Option<string>)
    requires page.Valid()
    modifies page, page.store, page.flag
    ensures page.Valid() && page.format == old(page.format)
    ensures Previews(page.store.uploadedFiles) == Previews(old(page.store.uploadedFiles))
    ensures !old(page.ConvertEnabled()) ==>
      && page.store.uploadedFiles == old(page.store.uploadedFiles)
      && page.converting == old(page.converting) && page.route == old(page.route)
      && page.flag.converted == old(page.flag.converted)
    ensures old(page.ConvertEnabled()) ==>
      !page.converting && page.flag.converted && page.route == HomePage.DownloadPage
    ensures old(page.ConvertEnabled()) && initOutcome.None? ==>
      page.store.uploadedFiles == ConverterWorker.ConvertAll(codec, old(page.store.uploadedFiles), old(page.format))
    ensures old(page.ConvertEnabled()) && initOutcome.Some? ==>
      page.store.uploadedFiles == old(page.store.uploadedFiles)
  {
    var req := page.ClickConvert();
    if req.None? {
      return;
    }
    var worker := new ConverterWorker.Worker();
    var resp := worker.OnMessage(codec, req.value, initOutcome);
    ConvertAllKeepsPreviews(codec, req.value.uploadedFiles, req.value.format);
    page.FinishConvert(HomePage.Message(resp));
  }
}
