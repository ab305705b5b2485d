/** The upload route: extracts text from uploaded files by extension and
    returns a bounded excerpt (or an error) per file. */
module Uploads {
  import opened Common

  newtype byte = x: int | 0 <= x < 256

  type Bytes = seq<byte>

  /** 10 MiB per file. */
  const MaxFileBytes: nat := 10 * 1024 * 1024

  /** At most this many characters of each file go to the agents. */
  const MaxExcerptChars: nat := 3000

  const NoFilesDetail: string := "No files uploaded."
  const UnknownError: string := "Unknown error occurred."

  /** An uploaded file: the name the client sent and its bytes, or None when
      reading the upload raises. */
  datatype Upload = Upload(filename: string, raw: Option<Bytes>)

  /** The format libraries, each answering None where it would raise. */
  datatype Extractors = Extractors(
    jsonPretty: Bytes -> Option<string>,          // UTF-8 decode, json.loads, json.dumps with indent 2
    decodeText: Bytes -> Option<string>,          // UTF-8 decode ignoring bad bytes
    pdfPageTexts: Bytes -> Option<seq<string>>,   // each page's extracted text ("" when none)
    pdfImageTexts: Bytes -> Option<seq<string>>,  // OCR text of each embedded image, page by page
    docxParagraphs: Bytes -> Option<seq<string>>, // the text of each paragraph
    imageOcr: Bytes -> Option<string>)            // OCR text of an image

  /** An exception leaving `extract_text_from_file`. */
  datatype Failure = HttpError(status: nat, detail: string) | OtherError

  /** The kinds of file the route knows, chosen by the lower-cased suffix. */
  datatype FileKind = Json | PlainText | Pdf | Docx | Image | Unsupported

  /** The suffix tests in the order the route makes them; the first that
      succeeds decides. */
  function KindOf(lowered: string): FileKind {
    if EndsWith(lowered, ".json") then Json
    else if EndsWith(lowered, ".txt") then PlainText
    else if EndsWith(lowered, ".pdf") then Pdf
    else if EndsWith(lowered, ".docx") then Docx
    else if EndsWith(lowered, ".png") || EndsWith(lowered, ".jpg") || EndsWith(lowered, ".jpeg") then Image
    else Unsupported
  }

  function OversizeDetail(filename: string): string {
    "File " + filename + " exceeds maximum size of 10 MB."
  }

  /** PDF text: the pages' text, or failing that the OCR text of the embedded
      images, or a fixed message. */
  function PdfText(raw: Bytes, ex: Extractors): string {
    match ex.pdfPageTexts(raw)
    case None => "Could not extract text from PDF."
    case Some(pages) =>
      var combined := Strip(Join("\n", pages));
      if combined != "" then combined
      else match ex.pdfImageTexts(raw)
        case None => "Could not extract text from PDF."
        case Some(imageTexts) =>
          var ocr := Strip(Join("\n", imageTexts));
          if ocr != "" then ocr else "No extractable text in PDF."
  }

  /** The text of a file within the size limit, by kind. */
  function Dispatch(lowered: string, raw: Bytes, ex: Extractors): string {
    match KindOf(lowered)
    case Json =>
      (match ex.jsonPretty(raw) case Some(t) => t case None => "Could not parse JSON file.")
    case PlainText =>
      (match ex.decodeText(raw) case Some(t) => t case None => "Could not decode text file.")
    case Pdf => PdfText(raw, ex)
    case Docx =>
      (match ex.docxParagraphs(raw)
       case Some(ps) => Join("\n", ps)
       case None => "Could not extract text from DOCX.")
    case Image =>
      (match ex.imageOcr(raw)
       case Some(t) => if Strip(t) != "" then Strip(t) else "OCR found no readable text."
       case None => "Could not run OCR on image.")
    case Unsupported => "No extractor implemented for: " + lowered
  }

  /** `extract_text_from_file`. */
  function ExtractText(u: Upload, ex: Extractors): Result<string, Failure> {
    match u.raw
    case None => Err(OtherError)
    case Some(raw) =>
      if |raw| > MaxFileBytes then Err(HttpError(400, OversizeDetail(u.filename)))
      else Ok(Dispatch(Lower(u.filename), raw, ex))
  }

  /** `text[:MAX_EXCERPT_CHARS]`. */
  function Excerpt(text: string): string {
    if |text| <= MaxExcerptChars then text else text[..MaxExcerptChars]
  }

  /** One entry of the route's answer. */
  datatype FileEntry =
    | Extracted(filename: string, excerpt: string)
    | Failed(filename: string, error: string)

  /** The entry the loop of `upload_files` appends for one file. */
  function EntryFor(u: Upload, ex: Extractors): FileEntry {
    match ExtractText(u, ex)
    case Ok(text) => Extracted(u.filename, Excerpt(text))
    case Err(HttpError(_, detail)) => Failed(u.filename, detail)
    case Err(OtherError) => Failed(u.filename, UnknownError)
  }

  /** `upload_files`: no files is a 400 error; otherwise one entry per file,
      in order. */
  method UploadFiles(files: seq<Upload>, ex: Extractors) returns (result: Result<seq<FileEntry>, Failure>)
    ensures result.Err? <==> files == []
    ensures result.Err? ==> result.error == HttpError(400, NoFilesDetail)
    ensures result.Ok? ==> |result.value| == |files|
    ensures result.Ok? ==> forall i :: 0 <= i < |files| ==> result.value[i] == EntryFor(files[i], ex)
  {
    if |files| == 0 {
      return Err(HttpError(400, NoFilesDetail));
    }
    var entries: seq<FileEntry> := [];
    var i := 0;
    while i < |files|
      invariant 0 <= i <= |files|
      invariant |entries| == i
      invariant forall j :: 0 <= j < i ==> entries[j] == EntryFor(files[j], ex)
    {
      var f := files[i];
      var extracted := ExtractText(f, ex);
      match extracted {
        case Ok(text) =>
          var excerpt := if |text| <= MaxExcerptChars then text else text[..MaxExcerptChars];
          entries := entries + [Extracted(f.filename, excerpt)];
        case Err(HttpError(_, detail)) =>
          entries := entries + [Failed(f.filename, detail)];
        case Err(OtherError) =>
          entries := entries + [Failed(f.filename, UnknownError)];
      }
      i := i + 1;
    }
    return Ok(entries);
  }

  // ---------------------------------------------------------------------------
  // Properties

  /** No name ends with two of the known suffixes, so the order of the tests
      never matters: each kind is chosen exactly by its own suffixes. */
  lemma KindBySuffix(lowered: string)
    ensures KindOf(lowered) == Json <==> EndsWith(lowered, ".json")
    ensures KindOf(lowered) == PlainText <==> EndsWith(lowered, ".txt")
    ensures KindOf(lowered) == Pdf <==> EndsWith(lowered, ".pdf")
    ensures KindOf(lowered) == Docx <==> EndsWith(lowered, ".docx")
    ensures KindOf(lowered) == Image <==>
      EndsWith(lowered, ".png") || EndsWith(lowered, ".jpg") || EndsWith(lowered, ".jpeg")
  {
    var n := |lowered|;
    if EndsWith(lowered, ".json") { assert lowered[n - 1] == 'n' && lowered[n - 2] == 'o'; }
    if EndsWith(lowered, ".txt") { assert lowered[n - 1] == 't'; }
    if EndsWith(lowered, ".pdf") { assert lowered[n - 1] == 'f'; }
    if EndsWith(lowered, ".docx") { assert lowered[n - 1] == 'x'; }
    if EndsWith(lowered, ".png") { assert lowered[n - 1] == 'g' && lowered[n - 2] == 'n'; }
    if EndsWith(lowered, ".jpg") { assert lowered[n - 1] == 'g' && lowered[n - 2] == 'p'; }
    if EndsWith(lowered, ".jpeg") { assert lowered[n - 1] == 'g' && lowered[n - 2] == 'e'; }
  }

  /** An oversize file is refused with a 400 error naming it, whatever its
      extension and whatever the extractors would do. */
  lemma OversizeRefusedBeforeDispatch(u: Upload, ex: Extractors, other: Extractors)
    requires u.raw.Some? && |u.raw.value| > MaxFileBytes
    ensures ExtractText(u, ex) == Err(HttpError(400, OversizeDetail(u.filename)))
    ensures ExtractText(u, ex) == ExtractText(u, other)
    ensures EntryFor(u, ex) == Failed(u.filename, OversizeDetail(u.filename))
  {
  }

  /** A readable file within the limit always yields text, never an exception:
      an extractor that fails is replaced by its fixed message, and an
      unknown extension by a message naming the lower-cased file name. */
  lemma ExtractionNeverRaises(u: Upload, ex: Extractors)
    requires u.raw.Some? && |u.raw.value| <= MaxFileBytes
    ensures ExtractText(u, ex).Ok?
    ensures KindOf(Lower(u.filename)) == Unsupported ==>
      ExtractText(u, ex).value == "No extractor implemented for: " + Lower(u.filename)
    ensures KindOf(Lower(u.filename)) == Json && ex.jsonPretty(u.raw.value).None? ==>
      ExtractText(u, ex).value == "Could not parse JSON file."
    ensures KindOf(Lower(u.filename)) == PlainText && ex.decodeText(u.raw.value).None? ==>
      ExtractText(u, ex).value == "Could not decode text file."
    ensures KindOf(Lower(u.filename)) == Pdf && ex.pdfPageTexts(u.raw.value).None? ==>
      ExtractText(u, ex).value == "Could not extract text from PDF."
    ensures (KindOf(Lower(u.filename)) == Pdf && ex.pdfPageTexts(u.raw.value).Some?
             && Strip(Join("\n", ex.pdfPageTexts(u.raw.value).value)) == ""
             && ex.pdfImageTexts(u.raw.value).None?) ==>
      ExtractText(u, ex).value == "Could not extract text from PDF."
    ensures KindOf(Lower(u.filename)) == Docx && ex.docxParagraphs(u.raw.value).None? ==>
      ExtractText(u, ex).value == "Could not extract text from DOCX."
    ensures KindOf(Lower(u.filename)) == Image && ex.imageOcr(u.raw.value).None? ==>
      ExtractText(u, ex).value == "Could not run OCR on image."
  {
  }

  /** PDF text is never empty: stripped page text, else stripped OCR text, else
      a fixed message. */
  lemma PdfTextNonEmpty(raw: Bytes, ex: Extractors)
    ensures PdfText(raw, ex) != ""
    ensures var t := PdfText(raw, ex);
      t == "Could not extract text from PDF." || t == "No extractable text in PDF."
      || (!IsSpace(t[0]) && !IsSpace(t[|t| - 1]))
  {
    match ex.pdfPageTexts(raw)
    case None =>
    case Some(pages) =>
      var combined := Strip(Join("\n", pages));
      if combined == "" {
        match ex.pdfImageTexts(raw)
        case None =>
        case Some(imageTexts) =>
      }
  }

  /** Each entry names its file and carries either an excerpt, a prefix of the
      extracted text of at most 3000 characters, or an error. */
  lemma EntryShape(u: Upload, ex: Extractors)
    ensures EntryFor(u, ex).filename == u.filename
    ensures ExtractText(u, ex).Ok? ==>
      EntryFor(u, ex).Extracted?
      && EntryFor(u, ex).excerpt <= ExtractText(u, ex).value
      && |EntryFor(u, ex).excerpt| <= MaxExcerptChars
      && (|ExtractText(u, ex).value| <= MaxExcerptChars ==> EntryFor(u, ex).excerpt == ExtractText(u, ex).value)
    ensures ExtractText(u, ex).Err? ==> EntryFor(u, ex).Failed?
    ensures ExtractText(u, ex) == Err(OtherError) ==> EntryFor(u, ex).error == UnknownError
  {
  }
}
