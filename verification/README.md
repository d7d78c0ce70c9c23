# uconverter in Dafny

uconverter is a browser app that converts images to another image format.

- **Home page.** The user drops or picks files. Only eight MIME types are accepted. Previewable images get an object URL for a thumbnail. The user picks an output format from a menu and presses Convert.
- **Worker.** The page posts the records to a Web Worker. The worker initialises the WebAssembly build of the `file_converter` Rust library once, then runs `convert_image` on every file's bytes. A record whose conversion fails is returned unchanged.
- **Download page.** The page stores the results and moves to the download page. That page saves the single result, or a zip archive `converted_files.zip` of all results.

This project models that core:

- **Records.** The value types (`File`, `Blob`, `UploadedFile`) and the preview handles a list of records holds.
- **Seqs.** An order-keeping filter with its append law.
- **FileStore, ConvertedStore.** The two zustand stores, as classes whose methods replace their field.
- **ObjectUrls.** The browser's object-URL registry, reduced to the handles it issued and the set still live. This is how the model tracks which preview URLs were released.
- **Converter.** `convert_image` and `convert_pdf` from `lib.rs`:
  - The order of their error checks.
  - The six accepted format tokens.
  - The PDF first-image search.
  - The PDF stream-filter loop, kept as a loop and proved equal to a recursive fold, with lemmas on its outcome.
- **ConverterWorker.** The worker:
  - Its `wasmInit` flag.
  - The per-record conversion and the output-name rule (`/\.[^/.]+$/` stripped, then `.` and the lower-cased format).
  - The message it posts.
- **HomePage.** The page as a class:
  - Mount reset.
  - Upload filter and preview rule.
  - Removing one file or all files, with the release of their previews.
  - The format menu.
  - The `convert_all` state machine: a click, then the worker's answer.
- **Download.** The download page as a class: what it saves, in which order, and which URLs it leaves live.
- **Pipeline.** Properties across the three parts. Among them: the menu offers two formats ("bmp", "avif") that the converter rejects, and then the batch changes nothing.

Codecs (image decoding and encoding, zlib, PDF parsing) are fields of a `Codec` value and are not interpreted. Browser effects are parameters of the methods:

- whether `init` throws;
- the worker's answer;
- the files a user selects.

## Model

| member | source | states |
|---|---|---|
| FileStore.Files.constructor | frontend/src/store/useFileStore.ts:17 | the store starts with no records |
| FileStore.Files.SetUploadedFiles | frontend/src/store/useFileStore.ts:18 | the list becomes exactly the given list |
| FileStore.Files.AddUploadedFiles | frontend/src/store/useFileStore.ts:19 | old records keep their positions and the new ones follow in order; adding nothing changes nothing |
| ConvertedStore.Converted.constructor | frontend/src/store/useConvertedStore.ts:9 | the flag starts false |
| ConvertedStore.Converted.SetConverted | frontend/src/store/useConvertedStore.ts:10 | the flag becomes the given value |
| ObjectUrls.Registry.constructor | frontend/src/pages/HomePage.tsx:85-87 | no object URL is live at first |
| ObjectUrls.Registry.Create | frontend/src/pages/HomePage.tsx:86 | `createObjectURL` returns a handle never issued before and makes it live |
| ObjectUrls.Registry.Revoke | frontend/src/pages/HomePage.tsx:115-117 | `revokeObjectURL` removes exactly that handle from the live set |
| Records.PreviewsAppend | frontend/src/pages/HomePage.tsx:112-119 | the previews of a concatenation of record lists are the union of the parts' previews |
| Seqs.Filter | frontend/src/pages/HomePage.tsx:98 | `Array.filter` keeps exactly the elements satisfying the predicate and never grows the list |
| Seqs.FilterAppend | frontend/src/pages/HomePage.tsx:98 | filtering a concatenation concatenates the filtered parts, so order is kept |
| Seqs.FilterKeepsAll | frontend/src/pages/HomePage.tsx:98 | when every element satisfies the predicate, the filter is the identity |
| Seqs.FilterDropsAll | frontend/src/pages/HomePage.tsx:98 | when no element satisfies the predicate, the filter is empty |
| Seqs.FilterSnoc | frontend/src/pages/HomePage.tsx:122-130 | one more element is kept by the filter exactly when it satisfies the predicate |
| Converter.FormatFromToken | packages/file_converter/src/lib.rs:31-38 | a token is accepted iff it is one of png, gif, jpeg, jpg, webp, tiff (exact case); png, gif, webp and tiff map to PNG, GIF, WebP and TIFF, and jpeg and jpg both to JPEG |
| Converter.ConvertImage | packages/file_converter/src/lib.rs:24-48 | an undecodable input fails with the load error before the token is looked at; then an unknown token fails; success iff the input decodes, the token is known and encoding succeeds, and then the result is the encoder's output; a failed encoding gives the conversion error |
| Converter.AllImages | packages/file_converter/src/lib.rs:55-60 | an image is collected iff it is on some page whose images could be read |
| Converter.AllImagesAppend | packages/file_converter/src/lib.rs:55-60 | pages are visited in order: the images of two runs of pages are the first run's followed by the second's |
| Converter.AllImagesHead | packages/file_converter/src/lib.rs:57-65 | the first collected image is the first image of the first page that has images |
| Converter.FirstImage | packages/file_converter/src/lib.rs:62-65 | there is no first image iff every readable page has no images; otherwise it is the first image of the first page that has any |
| Converter.AsU32 | packages/file_converter/src/lib.rs:105-117 | the `as u32` cast stays below 2^32 and leaves in-range widths and heights alone; every other value is reduced modulo 2^32 |
| Converter.DecodeFilters | packages/file_converter/src/lib.rs:77-98 | the in-place loop over the stream filters returns what the left-to-right fold `ApplyFilters` (the filter loop of lib.rs:80-98 as a recursive function) returns |
| Converter.ApplyFiltersLoad | packages/file_converter/src/lib.rs:82-93 | after a successful loop the image loader is used iff the last filter is DCTDecode |
| Converter.ApplyFiltersOnlySupported | packages/file_converter/src/lib.rs:94-96 | a successful loop saw only FlateDecode and DCTDecode |
| Converter.ApplyFiltersErrors | packages/file_converter/src/lib.rs:84-96 | the loop fails only through an inflate failure or an unsupported filter name taken from the list |
| Converter.ApplyFiltersDctOnly | packages/file_converter/src/lib.rs:91-93 | with only DCTDecode filters, the data is untouched and the loop succeeds |
| Converter.DecodePdfImageRoute | packages/file_converter/src/lib.rs:99-121 | `DecodePdfImage` (lib.rs:76-121): without filters the content is read as raw RGB8; with filters, the data goes to the image loader iff the last filter is DCTDecode, otherwise it is read as raw RGB8 |
| Converter.ConvertPdf | packages/file_converter/src/lib.rs:50-131 | errors come in order: document load, no images, unknown token, then the first image's decoding error, then the encoding error; success iff every step succeeds, and then the result is the encoder's output |
| ConverterWorker.Lower | frontend/src/converterWorker.ts:32 | `toLowerCase` maps A-Z to a-z, keeps every other character and keeps the length |
| ConverterWorker.ExtensionDot | frontend/src/converterWorker.ts:36 | the scan finds the dot the pattern `/\.[^/.]+$/` matches, or reports that it matches nowhere |
| ConverterWorker.StripExtension | frontend/src/converterWorker.ts:36 | the name loses exactly the matched extension, or stays whole when nothing matches |
| ConverterWorker.OutputName | frontend/src/converterWorker.ts:36 | the blob name is the stripped name followed by "." and the lower-cased format |
| ConverterWorker.OutputNameExamples | frontend/src/converterWorker.ts:36 | only the last extension goes; a name without one or ending in a dot keeps it; a dot in a directory part is not an extension; the format is lower-cased |
| ConverterWorker.ConvertRecord | frontend/src/converterWorker.ts:26-42 | a record keeps its file and preview; a failed conversion returns it unchanged; a successful one adds the output blob with MIME `image/<format>` (`OutputMime`, line 32) and the derived name |
| ConverterWorker.ConvertAll | frontend/src/converterWorker.ts:25-43 | one output per record, same order, each the conversion of its own record |
| ConverterWorker.Worker.constructor | frontend/src/converterWorker.ts:10 | a new worker has not initialised the converter |
| ConverterWorker.Worker.InitWasm | frontend/src/converterWorker.ts:12-17 | `init` runs only while the flag is false; the flag is set only when it succeeds; it never succeeds twice |
| ConverterWorker.Worker.OnMessage | frontend/src/converterWorker.ts:19-56 | the answer is a success iff initialisation was done or now succeeds; a success carries the converted records, a failure the error and no records |
| HomePage.FilterAllowed | frontend/src/pages/HomePage.tsx:98 | an uploaded file is kept iff its type is one of the eight allowed types |
| HomePage.FilterAllowedAppend | frontend/src/pages/HomePage.tsx:108 | the upload filter works file by file and keeps order |
| HomePage.AllowedSelectionKeptWhole | frontend/src/pages/HomePage.tsx:98 | a selection of allowed files only is uploaded whole, in order |
| HomePage.DisallowedSelectionDropped | frontend/src/pages/HomePage.tsx:98 | a selection with no allowed file uploads nothing |
| HomePage.PreviewRuleOnAllowedTypes | frontend/src/pages/HomePage.tsx:85 | `NeedsPreview`, the preview test at line 85: among the allowed types, exactly TIFF and PDF get no preview |
| HomePage.NextSep | frontend/src/pages/HomePage.tsx:173 | the scan for `split("/")` stops at the first slash at or after its start, or at the end |
| HomePage.MimePieces | frontend/src/pages/HomePage.tsx:173 | a type with one slash splits into its major and minor parts |
| HomePage.FormatMenuContents | frontend/src/pages/HomePage.tsx:173-174 | the menu (`FormatMenu`, computed by `MenuEntries` as the `filter` on `split("/")` pieces) lists the image subtypes of the allowed types in order, without the current format |
| HomePage.MenuAligned | frontend/src/pages/HomePage.tsx:173 | the menu filter over `image/<subtype>` entries followed by a non-image type yields the subtypes that differ from the format |
| HomePage.ImageTypeAt | frontend/src/pages/HomePage.tsx:14 | the first seven allowed types are `image/` plus a subtype with no slash |
| HomePage.MenuStep | frontend/src/pages/HomePage.tsx:173 | an image type adds its subtype to the menu unless it is the current format |
| HomePage.MenuEntryChoosable | frontend/src/pages/HomePage.tsx:173-176 | every menu entry is an image subtype other than the current format |
| HomePage.RemoveFileSparesKept | frontend/src/pages/HomePage.tsx:121-131 | with distinct previews, removing a file never revokes a kept record's preview |
| HomePage.RemoveStep | frontend/src/pages/HomePage.tsx:122-130 | one filter step keeps the record or, for the removed file, revokes its preview |
| HomePage.UploadKeepsPreviewsDistinct | frontend/src/pages/HomePage.tsx:79-91 | uploads keep preview handles unique and all issued by the registry |
| HomePage.Settle | frontend/src/pages/HomePage.tsx:45-57 | the promise rejects iff the worker errors or answers with failure; otherwise it resolves with the records sent |
| HomePage.Page.constructor | frontend/src/pages/HomePage.tsx:16-18 | no format, not converting, on the home route |
| HomePage.Page.RevokePreviews | frontend/src/pages/HomePage.tsx:34 | exactly the previews of the given records stop being live |
| HomePage.Page.RemoveAll | frontend/src/pages/HomePage.tsx:112-119 | every preview is revoked and the list is emptied |
| HomePage.Page.Mount | frontend/src/pages/HomePage.tsx:28-36 | records cleared with their previews, flag false, not converting, no format; returns the list the unmount cleanup revokes |
| HomePage.Page.ProcessFiles | frontend/src/pages/HomePage.tsx:79-91 | one new record per file, appended in order, with no result yet and a fresh live preview iff the type is a non-TIFF image |
| HomePage.Page.HandleFiles | frontend/src/pages/HomePage.tsx:93-102 | while converting the picker is disabled; otherwise the allowed files are uploaded |
| HomePage.Page.HandleDrop | frontend/src/pages/HomePage.tsx:104-110 | the allowed dropped files are uploaded, also while converting |
| HomePage.Page.RemoveFile | frontend/src/pages/HomePage.tsx:121-131 | records of other files stay in order; the previews of the removed file's records are revoked and no others |
| HomePage.Page.ChooseFormat | frontend/src/pages/HomePage.tsx:176 | the chosen entry becomes the format and is a different, known image subtype |
| HomePage.Page.ClickConvert | frontend/src/pages/HomePage.tsx:39-43 | the button is enabled (`ConvertEnabled`, line 165, shown only when records exist, line 163) when a format is chosen and no batch runs; an enabled click makes the page busy and posts the records, format and wasm path; otherwise nothing happens |
| HomePage.Page.FinishConvert | frontend/src/pages/HomePage.tsx:59-76 | success replaces the records, sets the flag and navigates; a missing list only clears busy; a rejection keeps the records but still sets the flag and navigates |
| Download.ZipEntries | frontend/src/pages/Download.tsx:36-40 | the archive holds one entry per record with a blob and a non-empty name, and nothing else |
| Download.ZipEntriesAll | frontend/src/pages/Download.tsx:36-40 | when every record has a named result, entry i is record i's result under its name |
| Download.ZipEntriesAppend | frontend/src/pages/Download.tsx:36-40 | entries follow record order |
| Download.ExportPlan | frontend/src/pages/Download.tsx:13-52 | nothing is saved before conversion or with no records; a single record with a blob is saved as a single file under `blob_name ?? ""`, one without a blob saves nothing; several save an archive named converted_files.zip, even an empty one, whose entries are the zippable records' results in record order |
| Download.CollectEntries | frontend/src/pages/Download.tsx:36-40 | the `forEach` loop builds exactly the archive entries |
| Download.DownloadPage.constructor | frontend/src/pages/Download.tsx:11 | the spinner starts off |
| Download.DownloadPage.Download | frontend/src/pages/Download.tsx:13-52 | saves the planned export; the spinner stays on exactly when nothing was saved; an archive download leaves one object URL live |
| Download.DownloadPage.DownloadCorrected | frontend/src/pages/Download.tsx:13-52 | saves the planned export, turns the spinner off on every path and leaves no object URL live |
| Pipeline.UnknownImageSubtypes | frontend/src/pages/HomePage.tsx:14 | of the image subtypes, exactly bmp and avif are not converter tokens |
| Pipeline.MenuOffersUnknownFormats | frontend/src/pages/HomePage.tsx:173 | the menu offers bmp and avif, which the converter rejects, and every other entry is accepted |
| Pipeline.UnknownFormatChangesNothing | frontend/src/converterWorker.ts:39-42 | a batch in a format the converter rejects returns every record unchanged |
| Pipeline.ConvertAllKeepsPreviews | frontend/src/converterWorker.ts:33-37 | a batch keeps the set of preview handles and their distinctness |
| Pipeline.MimeTypeIsIgnored | frontend/src/converterWorker.ts:29 | the result depends on the bytes and name, not the declared type, so a PDF goes through the image decoder |
| Pipeline.ZipHoldsEveryConvertedFile | frontend/src/pages/Download.tsx:37 | when every file converts, the archive has one entry per record, in order, under its derived name |
| Pipeline.UnknownFormatLeavesNothingToSave | frontend/src/pages/Download.tsx:20-22 | one file converted to bmp leaves nothing for the download page to save |
| Pipeline.RunBatch | frontend/src/pages/HomePage.tsx:38-77 | a disabled click changes nothing; otherwise the page ends on the download route with the flag set, holding the converted records, or the old ones if the worker could not start; previews are kept |

## Left out

- `formatFileSize` and the rest of the rendering (icons, the spinner's CSS, the menu open/closed toggle) are display only.
- Image decoding and encoding, zlib inflation and PDF parsing are foreign code. They are uninterpreted functions of a `Codec`, and the model makes no claim about pixels.
- Error messages are abstracted to `ConvError` constructors. The worker's `err.toString()` text is a parameter.
- `File.arrayBuffer()` failing is not modelled: it would only lead to the same "record unchanged" outcome as a failed conversion.
- The worker's `if (!outputU8)` branch cannot be taken, because a `Uint8Array` is always truthy. `ConvertRecord` has only the error and the success paths.
- `Promise.all` scheduling, the worker's `terminate`, and the asynchronous gap between `ClickConvert` and `FinishConvert` are not modelled. Records added or removed during a batch are overwritten by the batch result, and `FinishConvert` captures this only because its result is the answer's list.
- React's render closures: each handler reads the store's current list, so stale closures across renders are not modelled. `Mount` returns the list captured at first render, and the unmount cleanup is `RevokePreviews` of that list.
- The navigation `try`/`catch` with a fallback `navigate` is one route change to the download page.
- JSZip replaces an entry when a later `zip.file` call uses the same name. `ZipEntries` lists every call in order, so duplicate output names (two inputs `a.png` and `a.jpg`) are not merged.
- `ConverterWorker.Lower`: `toLowerCase` is modelled for ASCII letters only. Other case mappings are not.
- `convert_pdf` is exported by the library but never called by the worker. PDFs are allowed uploads yet go through `convert_image` (`Pipeline.MimeTypeIsIgnored`).
- `HomePage.Page.Valid` does not include distinct previews, because `FinishConvert` accepts any worker event, not only the answer to the request `ClickConvert` posted, so a success may carry any record list. In the program that list is the batch result of the posted list, which keeps distinctness (`ConvertAllKeepsPreviews`). Uniqueness is instead stated by `UploadKeepsPreviewsDistinct`, `RemoveFileSparesKept` and `ConvertAllKeepsPreviews`.
- A rejected batch sets `converted` to true and navigates, because the `catch` block does not return. The model follows the code, not a reading where a failed batch stays on the home page.

## Findings

| source | as written | input that shows it | evidently intended | confidence | as-written member | corrected member |
|---|---|---|---|---|---|---|
| frontend/src/pages/Download.tsx:44-49 | the zip URL is created twice; the anchor uses the second and only the first is revoked | any batch of two or more records | revoke the URL the anchor used | high, not executed | Download.DownloadPage.Download | Download.DownloadPage.DownloadCorrected |
| frontend/src/pages/Download.tsx:14-22 | the spinner is switched on before the early returns, which never switch it off | one file converted to "bmp" (`Pipeline.UnknownFormatLeavesNothingToSave`), then Download | turn the spinner off on every exit | medium, not executed | Download.DownloadPage.Download | Download.DownloadPage.DownloadCorrected |
