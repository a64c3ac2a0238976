/**
  Upload validation and text extraction (utils/document_processor.py).
  `DocumentProcessor` holds only a text splitter that is never updated, so its
  operations are modelled as module-level functions and methods.
*/
module DocumentProcessor {
  import opened Wrappers
  import opened Config
  import OsPath

  type byte = x: int | 0 <= x < 256

  /** An uploaded file: its client-side name and its bytes (`getvalue()`). */
  datatype UploadedFile = UploadedFile(name: string, content: seq<byte>)

  /**
    Why `extract_text` raises: an unsupported type (its ValueError), or an
    exception from the PDF reader or the UTF-8 decoder, carried with its text.
  */
  datatype ExtractError = UnsupportedFileType(extension: string) | PdfReadError(message: string) | DecodeError(message: string)

  const NO_FILE_MESSAGE: string := "No file uploaded"

  /** The size message; the source formats MAX_FILE_SIZE/1024/1024, which is 5.0. */
  const SIZE_LIMIT_MESSAGE: string := "File size exceeds 5.0MB limit"

  const UNSUPPORTED_TYPE_PREFIX: string := "Unsupported file type. Please upload: "

  /** `len(file.getvalue())`. */
  function FileSize(file: UploadedFile): nat {
    |file.content|
  }

  /** `sep.join(parts)`. */
  function Join(sep: string, parts: seq<string>): string
    decreases |parts|
  {
    if parts == [] then ""
    else if |parts| == 1 then parts[0]
    else parts[0] + sep + Join(sep, parts[1..])
  }

  /** The type-rejection message, listing the allowed extensions. */
  function UnsupportedTypeMessage(): (m: string)
    ensures m == "Unsupported file type. Please upload: .pdf, .txt"
  {
    UNSUPPORTED_TYPE_PREFIX + Join(", ", ALLOWED_EXTENSIONS)
  }

  /**
    `os.path.splitext(name)[1].lower()`. Its properties are stated by
    ExtensionShape and ExtensionIsLoweredTail rather than here, which keeps
    the contracts that mention it cheap to verify.
  */
  function FileExtension(name: string): (ext: string)
    ensures ext == [] || ext[0] == '.'
  {
    OsPath.Lower(OsPath.SplitExt(name).1)
  }

  /** A name has a non-empty extension exactly when splitext finds one; it then starts with its only dot and holds no '/'. */
  lemma ExtensionShape(name: string)
    ensures FileExtension(name) != [] <==> OsPath.HasExtension(name)
    ensures var ext := FileExtension(name);
      ext != [] ==> ext[0] == '.' && forall k :: 0 < k < |ext| ==> ext[k] != '.' && ext[k] != '/'
  {
    var split := OsPath.SplitExt(name);
    LowerSuffix(split.0, split.1);
  }

  /** The extension is the lower-cased tail of the name. */
  lemma ExtensionIsLoweredTail(name: string)
    ensures var ext := FileExtension(name);
      |ext| <= |name| && forall k :: 0 <= k < |ext| ==> ext[k] == OsPath.LowerChar(name[|name| - |ext| + k])
  {
    var split := OsPath.SplitExt(name);
    LowerSuffix(split.0, split.1);
  }

  /** Lower-casing a suffix lower-cases the tail of the whole string and keeps separators. */
  lemma LowerSuffix(root: string, suffix: string)
    ensures forall k :: 0 <= k < |suffix| ==>
      OsPath.Lower(suffix)[k] == OsPath.LowerChar((root + suffix)[|root + suffix| - |suffix| + k])
    ensures forall k :: 0 <= k < |suffix| ==>
      (OsPath.Lower(suffix)[k] == '.' <==> suffix[k] == '.') && (OsPath.Lower(suffix)[k] == '/' <==> suffix[k] == '/')
  {
    forall k | 0 <= k < |suffix|
      ensures (root + suffix)[|root + suffix| - |suffix| + k] == suffix[k]
    {
    }
  }

  /**
    `validate_file`: absent file first, then the size ceiling (inclusive),
    then the extension allow-list; `(True, "")` exactly when all three pass.
  */
  function ValidateFile(file: Option<UploadedFile>): (r: (bool, string))
    ensures r.0 <==> file.Some? && FileSize(file.value) <= MAX_FILE_SIZE && FileExtension(file.value.name) in ALLOWED_EXTENSIONS
    ensures r.0 ==> r.1 == ""
    ensures file.None? ==> r == (false, NO_FILE_MESSAGE)
    ensures file.Some? && FileSize(file.value) > MAX_FILE_SIZE ==> r == (false, SIZE_LIMIT_MESSAGE)
    ensures file.Some? && FileSize(file.value) <= MAX_FILE_SIZE && FileExtension(file.value.name) !in ALLOWED_EXTENSIONS ==>
      r == (false, "Unsupported file type. Please upload: .pdf, .txt")
  {
    match file
    case None => (false, NO_FILE_MESSAGE)
    case Some(f) =>
      if FileSize(f) > MAX_FILE_SIZE then (false, SIZE_LIMIT_MESSAGE)
      else if FileExtension(f.name) !in ALLOWED_EXTENSIONS then (false, UnsupportedTypeMessage())
      else (true, "")
  }

  /** `str(e)` for an extraction error: the ValueError names the extension, foreign errors keep their own text. */
  function ExtractErrorMessage(e: ExtractError): (m: string)
    ensures e.UnsupportedFileType? ==> m == "Unsupported file type: " + e.extension
    ensures !e.UnsupportedFileType? ==> m == e.message
  {
    match e
    case UnsupportedFileType(ext) => "Unsupported file type: " + ext
    case PdfReadError(msg) => msg
    case DecodeError(msg) => msg
  }

  /** Total length of the pages' text. */
  function TotalLength(pages: seq<string>): nat {
    if pages == [] then 0 else |pages[0]| + TotalLength(pages[1..])
  }

  /** What a PDF yields: each page's text followed by a newline, in page order. */
  function PdfText(pages: seq<string>): string {
    if pages == [] then "" else pages[0] + "\n" + PdfText(pages[1..])
  }

  lemma {:induction false} PdfTextAppend(a: seq<string>, b: seq<string>)
    ensures PdfText(a + b) == PdfText(a) + PdfText(b)
  {
    if a == [] {
      assert a + b == b;
    } else {
      assert (a + b)[1..] == a[1..] + b;
      PdfTextAppend(a[1..], b);
    }
  }

  /** Appending one page appends its text and a newline: the step `text += page + "\n"`. */
  lemma PdfTextSnoc(pages: seq<string>, page: string)
    ensures PdfText(pages + [page]) == PdfText(pages) + page + "\n"
  {
    PdfTextAppend(pages, [page]);
    assert PdfText([page]) == page + "\n" + PdfText([]);
  }

  /** Page `i` appears, followed by a newline, after the text of every earlier page and before that of every later one. */
  lemma PdfTextAtPage(pages: seq<string>, i: nat)
    requires i < |pages|
    ensures PdfText(pages) == PdfText(pages[..i]) + pages[i] + "\n" + PdfText(pages[i + 1..])
  {
    assert pages == pages[..i] + pages[i..];
    PdfTextAppend(pages[..i], pages[i..]);
    assert pages[i..][1..] == pages[i + 1..];
  }

  /** The text is as long as all pages together plus one newline per page. */
  lemma {:induction false} PdfTextLength(pages: seq<string>)
    ensures |PdfText(pages)| == TotalLength(pages) + |pages|
  {
    if pages != [] {
      PdfTextLength(pages[1..]);
    }
  }

  /** No pages give no text; otherwise the text ends with a newline. */
  lemma {:induction false} PdfTextEnds(pages: seq<string>)
    ensures pages == [] ==> PdfText(pages) == ""
    ensures pages != [] ==> |PdfText(pages)| > 0 && PdfText(pages)[|PdfText(pages)| - 1] == '\n'
  {
    if pages != [] {
      PdfTextAtPage(pages, |pages| - 1);
      assert pages[|pages|..] == [];
    }
  }

  /** `_extract_from_pdf`, once the reader has produced the pages' text. */
  method ExtractFromPdf(pages: seq<string>) returns (text: string)
    ensures text == PdfText(pages)
  {
    text := "";
    for i := 0 to |pages|
      invariant text == PdfText(pages[..i])
    {
      assert pages[..i + 1] == pages[..i] + [pages[i]];
      PdfTextSnoc(pages[..i], pages[i]);
      text := text + (pages[i] + "\n");
    }
    assert pages[..|pages|] == pages;
  }

  /**
    `extract_text`: dispatch on the same lower-cased extension as validation.
    `readPdfPages` stands for PdfReader and each page's `extract_text()`,
    `decodeUtf8` for `bytes.decode('utf-8')`; each yields a Failure with the
    exception's text where the Python call raises.
  */
  method ExtractText(file: UploadedFile, readPdfPages: seq<byte> -> Result<seq<string>, string>, decodeUtf8: seq<byte> -> Result<string, string>)
    returns (r: Result<string, ExtractError>)
    ensures FileExtension(file.name) == ".pdf" ==>
      r == match readPdfPages(file.content)
           case Success(pages) => Success(PdfText(pages))
           case Failure(e) => Failure(PdfReadError(e))
    ensures FileExtension(file.name) == ".txt" ==>
      r == match decodeUtf8(file.content)
           case Success(text) => Success(text)
           case Failure(e) => Failure(DecodeError(e))
    ensures FileExtension(file.name) !in ALLOWED_EXTENSIONS ==> r == Failure(UnsupportedFileType(FileExtension(file.name)))
    ensures ValidateFile(Some(file)).0 ==> !(r.Failure? && r.error.UnsupportedFileType?)
    ensures r.Failure? && r.error.UnsupportedFileType? ==>
      ExtractErrorMessage(r.error) == "Unsupported file type: " + FileExtension(file.name)
  {
    var ext := FileExtension(file.name);
    if ext == ".pdf" {
      match readPdfPages(file.content)
      case Success(pages) =>
        var text := ExtractFromPdf(pages);
        r := Success(text);
      case Failure(e) =>
        r := Failure(PdfReadError(e));
    } else if ext == ".txt" {
      r := match decodeUtf8(file.content)
           case Success(text) => Success(text)
           case Failure(e) => Failure(DecodeError(e));
    } else {
      r := Failure(UnsupportedFileType(ext));
    }
  }

  /** Extensions are compared after lower-casing: an upper-case suffix is accepted. */
  lemma UpperCaseExtension()
    ensures FileExtension("Report.PDF") == ".pdf"
  {
    var p := "Report.PDF";
    OsPath.LastIndexIs(p, '.', 6, OsPath.RFind(p, '.'));
    assert OsPath.RFind(p, '/') == -1;
    assert p[0..6] == "Report";
    assert OsPath.DotStartsExtension(p) by { assert p[0..6][0] != '.'; }
    assert OsPath.SplitExt(p).1 == ".PDF";
  }

  /** Only the suffix from the last dot counts. */
  lemma LastDotExtension()
    ensures FileExtension("a.b.txt") == ".txt"
  {
    var q := "a.b.txt";
    OsPath.LastIndexIs(q, '.', 3, OsPath.RFind(q, '.'));
    assert OsPath.RFind(q, '/') == -1;
    assert OsPath.DotStartsExtension(q) by { assert q[0..3][0] != '.'; }
    assert OsPath.SplitExt(q).1 == ".txt";
  }

  /** A lone leading dot does not start an extension. */
  lemma LeadingDotNoExtension()
    ensures FileExtension(".pdf") == ""
  {
    var d := ".pdf";
    OsPath.LastIndexIs(d, '.', 0, OsPath.RFind(d, '.'));
  }

  /** A name without a dot has no extension. */
  lemma NoDotNoExtension(name: string)
    requires '.' !in name
    ensures FileExtension(name) == ""
  {
  }

  /** Upper-case and multi-dot names are accepted. */
  lemma AcceptedNames(content: seq<byte>)
    requires |content| <= MAX_FILE_SIZE
    ensures ValidateFile(Some(UploadedFile("Report.PDF", content))) == (true, "")
    ensures ValidateFile(Some(UploadedFile("a.b.txt", content))) == (true, "")
  {
    UpperCaseExtension();
    AllowedVerdict(UploadedFile("Report.PDF", content));
    LastDotExtension();
    AllowedVerdict(UploadedFile("a.b.txt", content));
  }

  lemma AllowedVerdict(file: UploadedFile)
    requires FileSize(file) <= MAX_FILE_SIZE
    requires FileExtension(file.name) == ".pdf" || FileExtension(file.name) == ".txt"
    ensures ValidateFile(Some(file)) == (true, "")
  {
  }

  /** A name without an extension, or with only a leading dot, is refused for its type. */
  lemma RefusedNames(content: seq<byte>)
    requires |content| <= MAX_FILE_SIZE
    ensures ValidateFile(Some(UploadedFile("pdf", content))) == (false, UnsupportedTypeMessage())
    ensures ValidateFile(Some(UploadedFile(".pdf", content))) == (false, UnsupportedTypeMessage())
  {
    NoDotNoExtension("pdf");
    RefusedVerdict(UploadedFile("pdf", content));
    LeadingDotNoExtension();
    RefusedVerdict(UploadedFile(".pdf", content));
  }

  lemma RefusedVerdict(file: UploadedFile)
    requires FileSize(file) <= MAX_FILE_SIZE
    requires FileExtension(file.name) == ""
    ensures ValidateFile(Some(file)) == (false, UnsupportedTypeMessage())
  {
  }

  /** The size ceiling is inclusive: exactly MAX_FILE_SIZE bytes pass it, one more byte fails it. */
  lemma SizeBoundary(name: string, content: seq<byte>, extra: byte)
    requires |content| == MAX_FILE_SIZE
    ensures ValidateFile(Some(UploadedFile(name, content))).1 != SIZE_LIMIT_MESSAGE
    ensures ValidateFile(Some(UploadedFile(name, content + [extra]))) == (false, SIZE_LIMIT_MESSAGE)
  {
  }
}
