/** The conversion library (`file_converter`): its two entry points,
    `convert_image` and `convert_pdf`, with the image and PDF codecs they call
    left uninterpreted. */
module Converter {
  import opened Records

  /** The output formats the library can write. */
  datatype ImageFormat = Png | Gif | Jpeg | WebP | Tiff

  /** The error each failure path returns (the message text is abstracted). */
  datatype ConvError =
    | UnableToLoadImage          // load_from_memory failed on the input bytes
    | UnrecognisedFormat         // the output-format token is not one of the six
    | UnableToConvert            // write_to failed
    | UnableToLoadDocument       // Document::load_mem failed
    | NoImagesInPdf              // no page yielded an image
    | FlateDecodeFailed          // the zlib stream could not be inflated
    | UnsupportedFilter(filter: string)
    | LoadingFromMemoryFailed    // load_from_memory failed on DCT data
    | UnableToConvertDataToImage // the raw RGB8 buffer could not be built

  datatype Result<+T> = Ok(value: T) | Err(error: ConvError)

  /** A decoded image; its pixels are not modelled. */
  datatype DynamicImage = DynamicImage(id: nat)

  /** An image object of a PDF page: its stream content, its declared size and
      the names of its stream filters, if the stream has any. */
  datatype PdfImage = PdfImage(content: seq<bv8>, width: int, height: int, filters: Option<seq<string>>)

  /** A loaded PDF, as the library sees it: for each page in page order, the
      page's images, or None when they cannot be read (such a page is skipped). */
  type Document = seq<Option<seq<PdfImage>>>

  /** The foreign functions the library calls, uninterpreted. */
  datatype Codec = Codec(
    loadFromMemory: seq<bv8> -> Option<DynamicImage>,
    writeTo: (DynamicImage, ImageFormat) -> Option<seq<bv8>>,
    fromRawRgb8: (nat, nat, seq<bv8>) -> Option<DynamicImage>,
    inflate: seq<bv8> -> Option<seq<bv8>>,
    loadDocument: seq<bv8> -> Option<Document>)

  /** The tokens both entry points accept, exactly and case-sensitively. */
  const FormatTokens: set<string> := {"png", "gif", "jpeg", "jpg", "webp", "tiff"}

  /** The `match` on the output-format token. */
  function FormatFromToken(token: string): (f: Option<ImageFormat>)
    ensures f.Some? <==> token in FormatTokens
    ensures f == Some(Jpeg) <==> token == "jpeg" || token == "jpg"
    ensures f == Some(Png) <==> token == "png"
    ensures f == Some(Gif) <==> token == "gif"
    ensures f == Some(WebP) <==> token == "webp"
    ensures f == Some(Tiff) <==> token == "tiff"
  {
    if token == "png" then Some(Png)
    else if token == "gif" then Some(Gif)
    else if token == "jpeg" || token == "jpg" then Some(Jpeg)
    else if token == "webp" then Some(WebP)
    else if token == "tiff" then Some(Tiff)
    else None
  }

  /** The last step of both entry points: encode the image in the chosen format. */
  function Encode(codec: Codec, img: DynamicImage, format: ImageFormat): Result<seq<bv8>>
  {
    match codec.writeTo(img, format)
    case Some(bytes) => Ok(bytes)
    case None => Err(UnableToConvert)
  }

  /** `convert_image`: decode the bytes, then resolve the token, then encode. */
  function ConvertImage(codec: Codec, input: seq<bv8>, token: string): (r: Result<seq<bv8>>)
    ensures codec.loadFromMemory(input).None? ==> r == Err(UnableToLoadImage)
    ensures codec.loadFromMemory(input).Some? && token !in FormatTokens ==> r == Err(UnrecognisedFormat)
    ensures r.Ok? <==> codec.loadFromMemory(input).Some? && FormatFromToken(token).Some?
                       && codec.writeTo(codec.loadFromMemory(input).value, FormatFromToken(token).value).Some?
    ensures codec.loadFromMemory(input).Some? && FormatFromToken(token).Some?
            && codec.writeTo(codec.loadFromMemory(input).value, FormatFromToken(token).value).None?
            ==> r == Err(UnableToConvert)
    ensures r.Ok? ==> r.value == codec.writeTo(codec.loadFromMemory(input).value, FormatFromToken(token).value).value
  {
    match codec.loadFromMemory(input)
    case None => Err(UnableToLoadImage)
    case Some(img) =>
      match FormatFromToken(token)
      case None => Err(UnrecognisedFormat)
      case Some(format) => Encode(codec, img, format)
  }

  /** Every image of every readable page, pages in order. */
  function AllImages(doc: Document): (imgs: seq<PdfImage>)
    ensures forall img :: img in imgs <==> exists p :: 0 <= p < |doc| && doc[p].Some? && img in doc[p].value
  {
    if doc == [] then []
    else
      var rest := AllImages(doc[1..]);
      assert forall p :: 0 < p < |doc| ==> doc[p] == doc[1..][p - 1];
      (match doc[0] case Some(imgs) => imgs case None => []) + rest
  }

  /** Pages are visited in order: the images of two runs of pages are those
      of the first run followed by those of the second. */
  lemma {:induction false} AllImagesAppend(a: Document, b: Document)
    ensures AllImages(a + b) == AllImages(a) + AllImages(b)
    decreases |a|
  {
    if a == [] {
      assert a + b == b;
    } else {
      assert (a + b)[1..] == a[1..] + b;
      AllImagesAppend(a[1..], b);
    }
  }

  /** The first image of the document, if any page has one: the first image
      of the first page that has images. */
  function FirstImage(doc: Document): (r: Option<PdfImage>)
    ensures r.None? <==> forall p :: 0 <= p < |doc| && doc[p].Some? ==> doc[p].value == []
    ensures r.Some? ==> exists p :: 0 <= p < |doc| && FirstNonEmptyPage(doc, p) && r.value == doc[p].value[0]
  {
    var imgs := AllImages(doc);
    if imgs == [] then
      assert forall p :: 0 <= p < |doc| && doc[p].Some? && doc[p].value != [] ==> doc[p].value[0] in imgs;
      None
    else
      assert imgs[0] in imgs;
      AllImagesHead(doc);
      Some(imgs[0])
  }

  /** Page `p` has images and no earlier readable page has any. */
  ghost predicate FirstNonEmptyPage(doc: Document, p: nat)
    requires p < |doc|
  {
    doc[p].Some? && doc[p].value != [] && forall q :: 0 <= q < p && doc[q].Some? ==> doc[q].value == []
  }

  /** The first image of `AllImages` is the first image of the first page with images. */
  lemma {:induction false} AllImagesHead(doc: Document)
    requires AllImages(doc) != []
    ensures exists p :: 0 <= p < |doc| && FirstNonEmptyPage(doc, p) && AllImages(doc)[0] == doc[p].value[0]
  {
    var here := match doc[0] case Some(imgs) => imgs case None => [];
    if here != [] {
      assert FirstNonEmptyPage(doc, 0);
    } else {
      assert AllImages(doc) == AllImages(doc[1..]);
      AllImagesHead(doc[1..]);
      var p :| 0 <= p < |doc[1..]| && FirstNonEmptyPage(doc[1..], p) && AllImages(doc[1..])[0] == doc[1..][p].value[0];
      assert FirstNonEmptyPage(doc, p + 1);
    }
  }

  /** `as u32` on a 64-bit signed integer: two's-complement truncation. */
  function AsU32(x: int): (r: nat)
    ensures r < 0x1_0000_0000
    ensures 0 <= x < 0x1_0000_0000 ==> r == x
    ensures (x - r) % 0x1_0000_0000 == 0
  {
    x % 0x1_0000_0000
  }

  const FlateDecode: string := "FlateDecode"
  const DCTDecode: string := "DCTDecode"

  /** The two variables the filter loop updates. */
  datatype Decoded = Decoded(data: seq<bv8>, load: bool)

  /** The filter loop, from the state `acc`, over `filters` left to right:
      `FlateDecode` inflates the data and clears `load`, `DCTDecode` sets
      `load`, any other name aborts. */
  function ApplyFilters(inflate: seq<bv8> -> Option<seq<bv8>>, acc: Decoded, filters: seq<string>): Result<Decoded>
    decreases |filters|
  {
    if filters == [] then Ok(acc)
    else if filters[0] == FlateDecode then
      match inflate(acc.data)
      case None => Err(FlateDecodeFailed)
      case Some(decoded) => ApplyFilters(inflate, Decoded(decoded, false), filters[1..])
    else if filters[0] == DCTDecode then
      ApplyFilters(inflate, acc.(load := true), filters[1..])
    else
      Err(UnsupportedFilter(filters[0]))
  }

  /** The loop as written: `data` and `load` updated in place, one filter at a time. */
  method DecodeFilters(inflate: seq<bv8> -> Option<seq<bv8>>, content: seq<bv8>, filters: seq<string>)
    returns (r: Result<Decoded>)
    ensures r == ApplyFilters(inflate, Decoded(content, false), filters)
  {
    var data := content;
    var load := false;
    for i := 0 to |filters|
      invariant ApplyFilters(inflate, Decoded(data, load), filters[i..])
             == ApplyFilters(inflate, Decoded(content, false), filters)
    {
      assert filters[i..][1..] == filters[i + 1..];
      var filter := filters[i];
      if filter == FlateDecode {
        var decoded := inflate(data);
        if decoded.None? {
          return Err(FlateDecodeFailed);
        }
        data := decoded.value;
        load := false;
      } else if filter == DCTDecode {
        load := true;
      } else {
        return Err(UnsupportedFilter(filter));
      }
    }
    assert filters[|filters|..] == [];
    r := Ok(Decoded(data, load));
  }

  /** After a successful loop, `load` is set exactly when the last filter is
      `DCTDecode` (with no filters it keeps its starting value). */
  lemma {:induction false} ApplyFiltersLoad(inflate: seq<bv8> -> Option<seq<bv8>>, acc: Decoded, filters: seq<string>)
    requires ApplyFilters(inflate, acc, filters).Ok?
    ensures ApplyFilters(inflate, acc, filters).value.load
        == if filters == [] then acc.load else filters[|filters| - 1] == DCTDecode
    decreases |filters|
  {
    if filters != [] {
      var next := if filters[0] == FlateDecode then Decoded(inflate(acc.data).value, false) else acc.(load := true);
      ApplyFiltersLoad(inflate, next, filters[1..]);
      if |filters| > 1 {
        assert filters[1..][|filters| - 2] == filters[|filters| - 1];
      }
    }
  }

  /** A successful loop saw only the two supported filter names. */
  lemma {:induction false} ApplyFiltersOnlySupported(inflate: seq<bv8> -> Option<seq<bv8>>, acc: Decoded, filters: seq<string>)
    requires ApplyFilters(inflate, acc, filters).Ok?
    ensures forall f :: f in filters ==> f == FlateDecode || f == DCTDecode
    decreases |filters|
  {
    if filters != [] {
      var next := if filters[0] == FlateDecode then Decoded(inflate(acc.data).value, false) else acc.(load := true);
      ApplyFiltersOnlySupported(inflate, next, filters[1..]);
      assert filters == [filters[0]] + filters[1..];
    }
  }

  /** The loop fails only in its two ways: an inflate failure or an unsupported
      filter, which is then one of the listed filters. */
  lemma {:induction false} ApplyFiltersErrors(inflate: seq<bv8> -> Option<seq<bv8>>, acc: Decoded, filters: seq<string>)
    requires ApplyFilters(inflate, acc, filters).Err?
    ensures ApplyFilters(inflate, acc, filters).error == FlateDecodeFailed
         || (ApplyFilters(inflate, acc, filters).error.UnsupportedFilter?
             && ApplyFilters(inflate, acc, filters).error.filter in filters
             && ApplyFilters(inflate, acc, filters).error.filter != FlateDecode
             && ApplyFilters(inflate, acc, filters).error.filter != DCTDecode)
    decreases |filters|
  {
    if filters[0] == FlateDecode && inflate(acc.data).Some? {
      ApplyFiltersErrors(inflate, Decoded(inflate(acc.data).value, false), filters[1..]);
    } else if filters[0] == DCTDecode {
      ApplyFiltersErrors(inflate, acc.(load := true), filters[1..]);
    }
  }

  /** Without `FlateDecode` the data is never touched and the loop cannot
      fail unless a name is unsupported. */
  lemma {:induction false} ApplyFiltersDctOnly(inflate: seq<bv8> -> Option<seq<bv8>>, acc: Decoded, filters: seq<string>)
    requires forall f :: f in filters ==> f == DCTDecode
    ensures ApplyFilters(inflate, acc, filters) == Ok(Decoded(acc.data, acc.load || filters != []))
    decreases |filters|
  {
    if filters != [] {
      assert filters[0] in filters;
      assert forall f :: f in filters[1..] ==> f in filters;
      ApplyFiltersDctOnly(inflate, acc.(load := true), filters[1..]);
    }
  }

  /** The raw-buffer path: the data read as a width x height RGB8 image. */
  function RawRgb8(codec: Codec, img: PdfImage, data: seq<bv8>): Result<DynamicImage>
  {
    match codec.fromRawRgb8(AsU32(img.width), AsU32(img.height), data)
    case Some(decoded) => Ok(decoded)
    case None => Err(UnableToConvertDataToImage)
  }

  /** How `convert_pdf` turns the first PDF image into a decoded image. */
  function DecodePdfImage(codec: Codec, img: PdfImage): Result<DynamicImage>
  {
    match img.filters
    case None => RawRgb8(codec, img, img.content)
    case Some(filters) =>
      match ApplyFilters(codec.inflate, Decoded(img.content, false), filters)
      case Err(e) => Err(e)
      case Ok(d) =>
        if d.load then
          (match codec.loadFromMemory(d.data)
           case Some(decoded) => Ok(decoded)
           case None => Err(LoadingFromMemoryFailed))
        else RawRgb8(codec, img, d.data)
  }

  /** The filtered data goes through the image loader if and only if the last
      filter is `DCTDecode`; with no filters, or any other last filter, it is
      read as a raw RGB8 buffer. */
  lemma DecodePdfImageRoute(codec: Codec, img: PdfImage)
    ensures img.filters.None? ==> DecodePdfImage(codec, img) == RawRgb8(codec, img, img.content)
    ensures img.filters.Some? && ApplyFilters(codec.inflate, Decoded(img.content, false), img.filters.value).Ok? ==>
      var fs := img.filters.value;
      var d := ApplyFilters(codec.inflate, Decoded(img.content, false), fs).value;
      if fs != [] && fs[|fs| - 1] == DCTDecode then
        DecodePdfImage(codec, img) == (if codec.loadFromMemory(d.data).Some? then Ok(codec.loadFromMemory(d.data).value) else Err(LoadingFromMemoryFailed))
      else
        DecodePdfImage(codec, img) == RawRgb8(codec, img, d.data)
  {
    if img.filters.Some? && ApplyFilters(codec.inflate, Decoded(img.content, false), img.filters.value).Ok? {
      ApplyFiltersLoad(codec.inflate, Decoded(img.content, false), img.filters.value);
    }
  }

  /** `convert_pdf`: load the document, take the first image of any page,
      resolve the token, decode the image, encode it. */
  function ConvertPdf(codec: Codec, input: seq<bv8>, token: string): (r: Result<seq<bv8>>)
    ensures codec.loadDocument(input).None? ==> r == Err(UnableToLoadDocument)
    ensures codec.loadDocument(input).Some? && FirstImage(codec.loadDocument(input).value).None? ==> r == Err(NoImagesInPdf)
    ensures codec.loadDocument(input).Some? && FirstImage(codec.loadDocument(input).value).Some? && token !in FormatTokens
            ==> r == Err(UnrecognisedFormat)
    ensures r.Ok? <==>
              && codec.loadDocument(input).Some?
              && FirstImage(codec.loadDocument(input).value).Some?
              && FormatFromToken(token).Some?
              && DecodePdfImage(codec, FirstImage(codec.loadDocument(input).value).value).Ok?
              && codec.writeTo(DecodePdfImage(codec, FirstImage(codec.loadDocument(input).value).value).value,
                               FormatFromToken(token).value).Some?
    ensures codec.loadDocument(input).Some? && FirstImage(codec.loadDocument(input).value).Some?
            && FormatFromToken(token).Some? ==>
              var first := FirstImage(codec.loadDocument(input).value).value;
              var format := FormatFromToken(token).value;
              match DecodePdfImage(codec, first)
              case Err(e) => r == Err(e)
              case Ok(img) =>
                && (r.Ok? <==> codec.writeTo(img, format).Some?)
                && (r.Ok? ==> r.value == codec.writeTo(img, format).value)
                && (r.Err? ==> r.error == UnableToConvert)
  {
    match codec.loadDocument(input)
    case None => Err(UnableToLoadDocument)
    case Some(doc) =>
      match FirstImage(doc)
      case None => Err(NoImagesInPdf)
      case Some(first) =>
        match FormatFromToken(token)
        case None => Err(UnrecognisedFormat)
        case Some(format) =>
          match DecodePdfImage(codec, first)
          case Err(e) => Err(e)
          case Ok(decoded) => Encode(codec, decoded, format)
  }
}
