/**
 * `extract_text_from_file` (fileFunctions.py): turning one document into page units, each with
 * its page number, its detected title and its lines. The file readers themselves (`readlines`,
 * pdfplumber, python-docx) are outside the model; `FileViews` holds what each of them returns.
 */
module Extraction {
  import opened Wrappers
  import opened Ascii

  /** The title of a page with no upper-case line. */
  const Unknown: string := "Unknown"

  /** One `(page_number, page_title, text)` tuple of `page_data`. */
  datatype PageUnit = PageUnit(number: nat, title: string, lines: seq<string>)

  /**
   * What the readers return for one file, `None` where the reader raises:
   * `textLines` is `readlines()` (every line keeps its "\n"), `pdfPages` is `extract_text()`
   * of each page (which may be `None`), `docxParagraphs` is the `text` of each paragraph.
   */
  datatype FileViews = FileViews(
    textLines: Option<seq<string>>,
    pdfPages: Option<seq<Option<string>>>,
    docxParagraphs: Option<seq<string>>)

  /** The exceptions `extract_text_from_file` lets escape. */
  datatype ExtractError = UnsupportedFormat(path: string) | ReadFailure(path: string)

  // ---------------------------------------------------------------------------------------
  // Title detection
  // ---------------------------------------------------------------------------------------

  /** `next((line.strip() for line in lines if line.strip().isupper()), "Unknown")`. */
  function DetectTitle(lines: seq<string>): (title: string)
    ensures title == Unknown || IsUpper(title)
  {
    if lines == [] then Unknown
    else if IsUpper(Strip(lines[0])) then Strip(lines[0])
    else DetectTitle(lines[1..])
  }

  /** `next((line for line in text if line.isupper()), "Unknown")`, used on DOCX paragraphs. */
  function FirstUpper(lines: seq<string>): (title: string)
    ensures title == Unknown || IsUpper(title)
  {
    if lines == [] then Unknown
    else if IsUpper(lines[0]) then lines[0]
    else FirstUpper(lines[1..])
  }

  /**
   * The title is the stripped form of the first line whose stripped form is upper-case,
   * and "Unknown" when there is no such line: for `k` the index of that first line
   * (or `|lines|` when there is none), the title is determined.
   */
  lemma {:induction false} TitleIsFirstUpperLine(lines: seq<string>, k: nat)
    requires k <= |lines|
    requires forall j :: 0 <= j < k ==> !IsUpper(Strip(lines[j]))
    requires k < |lines| ==> IsUpper(Strip(lines[k]))
    ensures DetectTitle(lines) == if k < |lines| then Strip(lines[k]) else Unknown
  {
    if k > 0 {
      TitleIsFirstUpperLine(lines[1..], k - 1);
    }
  }

  /** "Unknown" is not upper-case, so no detected title can be confused with it. */
  lemma UnknownNotUpper()
    ensures !IsUpper(Unknown)
  {
    assert Unknown[1..] == "nknown";
  }

  /** The title is "Unknown" exactly when no stripped line is upper-case. */
  lemma {:induction false} UnknownIffNoUpperLine(lines: seq<string>)
    ensures DetectTitle(lines) == Unknown <==> forall j :: 0 <= j < |lines| ==> !IsUpper(Strip(lines[j]))
  {
    if lines != [] {
      UnknownIffNoUpperLine(lines[1..]);
      if IsUpper(Strip(lines[0])) {
        assert DetectTitle(lines) != Unknown by {
          UnknownNotUpper();
        }
      } else {
        assert DetectTitle(lines) == DetectTitle(lines[1..]);
        assert (forall j :: 0 <= j < |lines| ==> !IsUpper(Strip(lines[j])))
           <==> (forall j :: 0 <= j < |lines[1..]| ==> !IsUpper(Strip(lines[1..][j]))) by {
          assert forall j :: 1 <= j < |lines| ==> lines[j] == lines[1..][j - 1];
        }
      }
    }
  }

  /** A page's "Part" is never blank: either an upper-case line or "Unknown". */
  lemma TitleNotBlank(lines: seq<string>)
    ensures !AllSpace(DetectTitle(lines))
  {
    var title := DetectTitle(lines);
    if title == Unknown {
      assert !IsSpace(title[0]);
    } else {
      UpperNotBlank(title);
    }
  }

  /** On lines that are already stripped, the DOCX title rule and the general one agree. */
  lemma {:induction false} FirstUpperIsDetectTitle(lines: seq<string>)
    requires forall i :: 0 <= i < |lines| ==> IsStripped(lines[i])
    ensures FirstUpper(lines) == DetectTitle(lines)
  {
    if lines != [] {
      StripStripped(lines[0]);
      FirstUpperIsDetectTitle(lines[1..]);
    }
  }

  // ---------------------------------------------------------------------------------------
  // Lines of a DOCX document and of a PDF page
  // ---------------------------------------------------------------------------------------

  /** `[p.text.strip() for p in doc.paragraphs if p.text.strip()]`. */
  function DocxLines(paragraphs: seq<string>): (text: seq<string>)
    ensures |text| <= |paragraphs|
    ensures forall i :: 0 <= i < |text| ==> text[i] != [] && IsStripped(text[i])
  {
    if paragraphs == [] then []
    else
      var t := Strip(paragraphs[0]);
      var rest := DocxLines(paragraphs[1..]);
      if t == [] then rest
      else
        var text := [t] + rest;
        assert forall i :: 1 <= i < |text| ==> text[i] == rest[i - 1];
        text
  }

  /** The filter works paragraph by paragraph: the lines of joined paragraph lists are joined. */
  lemma {:induction false} DocxLinesJoin(a: seq<string>, b: seq<string>)
    ensures DocxLines(a + b) == DocxLines(a) + DocxLines(b)
  {
    if a == [] {
      assert a + b == b;
    } else {
      var x, rest := a[0], a[1..];
      var front: seq<string> := if Strip(x) == [] then [] else [Strip(x)];
      assert DocxLines(a) == front + DocxLines(rest) by {
        assert a == [x] + rest;
        DocxLinesCons(x, rest);
      }
      assert DocxLines(a + b) == front + DocxLines(rest + b) by {
        assert a + b == [x] + (rest + b);
        DocxLinesCons(x, rest + b);
      }
      DocxLinesJoin(rest, b);
      Reassociate(front, DocxLines(rest), DocxLines(b));
    }
  }

  /** Joining line lists is associative. */
  lemma Reassociate(p: seq<string>, q: seq<string>, r: seq<string>)
    ensures p + (q + r) == (p + q) + r
  {
  }

  /** A paragraph in front contributes its stripped text, if any, in front of the others' lines. */
  lemma DocxLinesCons(x: string, rest: seq<string>)
    ensures DocxLines([x] + rest) == (if Strip(x) == [] then [] else [Strip(x)]) + DocxLines(rest)
  {
    assert ([x] + rest)[0] == x && ([x] + rest)[1..] == rest;
  }

  /** One paragraph gives its stripped text when that is not empty, and nothing otherwise. */
  lemma DocxLinesSingle(x: string)
    ensures DocxLines([x]) == if Strip(x) == [] then [] else [Strip(x)]
  {
    assert [x][1..] == [];
  }

  /**
   * The DOCX filter drops exactly the blank paragraphs: a paragraph's stripped text is among
   * the lines exactly when the paragraph is not all whitespace, and every line is the
   * stripped text of some paragraph.
   */
  lemma DocxLinesKeepNonBlank(paragraphs: seq<string>)
    ensures forall i :: 0 <= i < |paragraphs| ==>
      (Strip(paragraphs[i]) in DocxLines(paragraphs) <==> !AllSpace(paragraphs[i]))
    ensures forall t :: t in DocxLines(paragraphs) ==>
      exists j :: 0 <= j < |paragraphs| && t == Strip(paragraphs[j])
  {
    NonBlankParagraphsKept(paragraphs);
    LinesComeFromParagraphs(paragraphs);
    forall i | 0 <= i < |paragraphs|
      ensures Strip(paragraphs[i]) in DocxLines(paragraphs) <==> !AllSpace(paragraphs[i])
    {
      StripEmptyIff(paragraphs[i]);
    }
  }

  /** Every paragraph whose stripped text is not empty contributes that text. */
  lemma {:induction false} NonBlankParagraphsKept(paragraphs: seq<string>)
    ensures forall i :: 0 <= i < |paragraphs| && Strip(paragraphs[i]) != [] ==>
      Strip(paragraphs[i]) in DocxLines(paragraphs)
  {
    if paragraphs != [] {
      var rest := paragraphs[1..];
      NonBlankParagraphsKept(rest);
      forall i | 0 <= i < |paragraphs| && Strip(paragraphs[i]) != []
        ensures Strip(paragraphs[i]) in DocxLines(paragraphs)
      {
        if i > 0 {
          assert paragraphs[i] == rest[i - 1];
          assert Strip(rest[i - 1]) in DocxLines(rest);
        }
      }
    }
  }

  /** Every line is the stripped text of some paragraph. */
  lemma {:induction false} LinesComeFromParagraphs(paragraphs: seq<string>)
    ensures forall t :: t in DocxLines(paragraphs) ==>
      exists j :: 0 <= j < |paragraphs| && t == Strip(paragraphs[j])
  {
    if paragraphs != [] {
      var rest := paragraphs[1..];
      LinesComeFromParagraphs(rest);
      forall t | t in DocxLines(paragraphs)
        ensures exists j :: 0 <= j < |paragraphs| && t == Strip(paragraphs[j])
      {
        if t != Strip(paragraphs[0]) {
          assert t in DocxLines(rest);
          var j :| 0 <= j < |rest| && t == Strip(rest[j]);
          assert rest[j] == paragraphs[j + 1];
        }
      }
    }
  }

  /** `s.split("\n")`. */
  function SplitLines(s: string): (parts: seq<string>)
    ensures |parts| >= 1
    ensures forall i :: 0 <= i < |parts| ==> '\n' !in parts[i]
  {
    if s == [] then [""]
    else
      var rest := SplitLines(s[1..]);
      if s[0] == '\n' then [""] + rest
      else [[s[0]] + rest[0]] + rest[1..]
  }

  /** `"\n".join(parts)`. */
  function JoinLines(parts: seq<string>): string
    requires |parts| >= 1
  {
    if |parts| == 1 then parts[0] else parts[0] + "\n" + JoinLines(parts[1..])
  }

  /** Joining the pieces of a split gives back the text. */
  lemma {:induction false} JoinSplit(s: string)
    ensures JoinLines(SplitLines(s)) == s
  {
    if s != [] {
      JoinSplit(s[1..]);
      var rest := SplitLines(s[1..]);
      if s[0] != '\n' {
        if |rest| == 1 {
          assert JoinLines(SplitLines(s)) == [s[0]] + rest[0];
        } else {
          var parts := SplitLines(s);
          assert parts[1..] == rest[1..];
          assert JoinLines(parts) == [s[0]] + rest[0] + "\n" + JoinLines(rest[1..]);
        }
      }
    }
  }

  /** Splitting a text made of pieces without newlines gives back the pieces. */
  lemma {:induction false} SplitJoin(parts: seq<string>)
    requires |parts| >= 1
    requires forall i :: 0 <= i < |parts| ==> '\n' !in parts[i]
    ensures SplitLines(JoinLines(parts)) == parts
  {
    if |parts| == 1 {
      SplitNoNewline(parts[0]);
    } else {
      SplitJoin(parts[1..]);
      SplitAfterPiece(parts[0], JoinLines(parts[1..]));
    }
  }

  /** A text without newlines splits into itself alone. */
  lemma {:induction false} SplitNoNewline(a: string)
    requires '\n' !in a
    ensures SplitLines(a) == [a]
  {
    if a != [] {
      SplitNoNewline(a[1..]);
      assert [a[0]] + a[1..] == a;
    }
  }

  /** A piece without newlines followed by "\n" and more text splits into the piece first. */
  lemma {:induction false} SplitAfterPiece(a: string, rest: string)
    requires '\n' !in a
    ensures SplitLines(a + "\n" + rest) == [a] + SplitLines(rest)
  {
    if a != [] {
      SplitAfterPiece(a[1..], rest);
      assert (a + "\n" + rest)[1..] == a[1..] + "\n" + rest;
      assert [a[0]] + a[1..] == a;
    } else {
      assert (a + "\n" + rest)[1..] == rest;
    }
  }

  /** `page.extract_text().split("\n") if page.extract_text() else []`. */
  function PdfLines(text: Option<string>): seq<string>
  {
    match text
    case None => []
    case Some(t) => if t == [] then [] else SplitLines(t)
  }

  /** The unit appended for PDF page number `n`, whose extracted text is `text`. */
  function PdfUnit(n: nat, text: Option<string>): PageUnit
  {
    var lines := PdfLines(text);
    PageUnit(n, DetectTitle(lines), lines)
  }

  /** `page_data` for a PDF: one unit per page, numbered from 1. */
  function PdfUnits(pages: seq<Option<string>>): (units: seq<PageUnit>)
  {
    seq(|pages|, i requires 0 <= i < |pages| => PdfUnit(i + 1, pages[i]))
  }

  // ---------------------------------------------------------------------------------------
  // Dispatch on the extension
  // ---------------------------------------------------------------------------------------

  /** The three suffix tests, case-sensitive, in the order the source makes them. */
  predicate Supported(path: string) {
    EndsWith(path, ".txt") || EndsWith(path, ".pdf") || EndsWith(path, ".docx")
  }

  /** What `extract_text_from_file(path)` returns or raises. */
  function Extract(path: string, views: FileViews): Result<seq<PageUnit>, ExtractError>
  {
    if EndsWith(path, ".txt") then
      match views.textLines
      case None => Err(ReadFailure(path))
      case Some(text) => Ok([PageUnit(1, DetectTitle(text), text)])
    else if EndsWith(path, ".pdf") then
      match views.pdfPages
      case None => Err(ReadFailure(path))
      case Some(pages) => Ok(PdfUnits(pages))
    else if EndsWith(path, ".docx") then
      match views.docxParagraphs
      case None => Err(ReadFailure(path))
      case Some(paragraphs) =>
        var text := DocxLines(paragraphs);
        Ok([PageUnit(1, FirstUpper(text), text)])
    else
      Err(UnsupportedFormat(path))
  }

  /** The PDF branch of `extract_text_from_file`: one unit appended per page, in page order. */
  method ExtractPdfPages(pages: seq<Option<string>>) returns (pageData: seq<PageUnit>)
    ensures pageData == PdfUnits(pages)
    ensures |pageData| == |pages|
    ensures forall k :: 0 <= k < |pages| ==> pageData[k].number == k + 1
    ensures forall k :: 0 <= k < |pages| ==> pageData[k].lines == PdfLines(pages[k])
    ensures forall k :: 0 <= k < |pages| ==> pageData[k].title == DetectTitle(pageData[k].lines)
  {
    pageData := [];
    var i := 0;
    while i < |pages|
      invariant 0 <= i <= |pages|
      invariant |pageData| == i
      invariant forall k :: 0 <= k < i ==> pageData[k] == PdfUnit(k + 1, pages[k])
    {
      var lines := PdfLines(pages[i]);
      pageData := pageData + [PageUnit(i + 1, DetectTitle(lines), lines)];
      i := i + 1;
    }
    assert forall k :: 0 <= k < |pages| ==> pageData[k] == PdfUnits(pages)[k];
  }

  /** `extract_text_from_file`: the extension decides the reader; anything else is refused. */
  method ExtractText(path: string, views: FileViews) returns (r: Result<seq<PageUnit>, ExtractError>)
    ensures r == Extract(path, views)
  {
    if EndsWith(path, ".txt") {
      match views.textLines
      case None => r := Err(ReadFailure(path));
      case Some(text) => r := Ok([PageUnit(1, DetectTitle(text), text)]);
    } else if EndsWith(path, ".pdf") {
      match views.pdfPages
      case None => r := Err(ReadFailure(path));
      case Some(pages) =>
        var pageData := ExtractPdfPages(pages);
        r := Ok(pageData);
    } else if EndsWith(path, ".docx") {
      match views.docxParagraphs
      case None => r := Err(ReadFailure(path));
      case Some(paragraphs) =>
        var text := DocxLines(paragraphs);
        r := Ok([PageUnit(1, FirstUpper(text), text)]);
    } else {
      r := Err(UnsupportedFormat(path));
    }
  }

  /** Only a path without one of the three suffixes is refused as an unsupported format. */
  lemma UnsupportedIff(path: string, views: FileViews)
    ensures Extract(path, views) == Err(UnsupportedFormat(path)) <==> !Supported(path)
  {
  }

  /**
   * Every extracted document is a run of pages numbered 1, 2, ..., each titled by the title
   * rule applied to its own lines; text and DOCX files give exactly one page.
   */
  lemma ExtractedPages(path: string, views: FileViews)
    requires Extract(path, views).Ok?
    ensures var units := Extract(path, views).value;
      && (forall i :: 0 <= i < |units| ==> units[i].number == i + 1)
      && (forall i :: 0 <= i < |units| ==> units[i].title == DetectTitle(units[i].lines))
      && (!EndsWith(path, ".pdf") ==> |units| == 1)
      && (EndsWith(path, ".txt") ==> units[0].lines == views.textLines.value)
      && (!EndsWith(path, ".txt") && EndsWith(path, ".pdf") ==>
            |units| == |views.pdfPages.value| &&
            forall i :: 0 <= i < |units| ==> units[i].lines == PdfLines(views.pdfPages.value[i]))
      && (!EndsWith(path, ".txt") && !EndsWith(path, ".pdf") ==> units[0].lines == DocxLines(views.docxParagraphs.value))
  {
    if EndsWith(path, ".txt") {
    } else if EndsWith(path, ".pdf") {
      var units := PdfUnits(views.pdfPages.value);
      assert forall i :: 0 <= i < |units| ==> units[i] == PdfUnit(i + 1, views.pdfPages.value[i]);
    } else {
      FirstUpperIsDetectTitle(DocxLines(views.docxParagraphs.value));
    }
  }
}
