/**
 * The rows of the difference report built in `generate_excel_report` (fileFunctions.py): every
 * "- " line of a page's diff becomes a "missing" row, every "+ " line a "mismatch" row, page by
 * page in ascending page order and, within a page, in diff order.
 */
module Report {
  import opened Wrappers
  import opened Ascii
  import opened Extraction
  import opened Alignment
  import opened EditScript

  /** The product name written into every row. */
  const ProductName: string := "Bajaj Allianz Life Ins. Co. Ltd. "

  /** The two observation categories. */
  datatype Category = MissingInCustomerCopy | ContentMismatch

  /** The text the report shows for a category. */
  function Label(category: Category): string
  {
    match category
    case MissingInCustomerCopy => "Available in Filed Copy but missing in Customer Copy"
    case ContentMismatch => "Mismatch of content between Filed Copy and customer copy"
  }

  /** One entry of `report_data`, its eight keys in the order the source writes them. */
  datatype Row = Row(
    productName: string,
    productUin: string,
    sampleAffected: string,
    category: Category,
    part: string,
    pageNumber: nat,
    filedContent: string,
    customerContent: string)

  /** The row for a line of `page` the mother has and the candidate lacks. */
  function MissingRow(sample: string, page: PagePair, text: string): Row
  {
    Row(ProductName, "", sample, MissingInCustomerCopy, page.motherTitle, page.number, Strip(text), "")
  }

  /** The row for a line of `page` the candidate has and the mother lacks. */
  function MismatchRow(sample: string, page: PagePair, text: string): Row
  {
    Row(ProductName, "", sample, ContentMismatch, page.candidateTitle, page.number, "", Strip(text))
  }

  /** The two `if` branches of the inner loop: the row one `ndiff` line of `page` gives, if any. */
  function Classify(sample: string, page: PagePair, line: string): Option<Row>
  {
    if StartsWith(line, "- ") then Some(MissingRow(sample, page, line[2..]))
    else if StartsWith(line, "+ ") then Some(MismatchRow(sample, page, line[2..]))
    else None
  }

  /** The row an edit stands for. */
  function EditRow(sample: string, page: PagePair, op: DiffOp): Row
    requires IsEdit(op)
  {
    if op.Removed? then MissingRow(sample, page, op.text) else MismatchRow(sample, page, op.text)
  }

  /** The facts every row of a report shares, whatever its page and line. */
  predicate WellFormed(row: Row, sample: string) {
    && row.productName == ProductName
    && row.productUin == ""
    && row.sampleAffected == sample
    && (row.category == MissingInCustomerCopy ==> row.customerContent == "")
    && (row.category == ContentMismatch ==> row.filedContent == "")
  }

  /**
   * Classifying the line `ndiff` writes for an op: a removal gives the "missing" row of its
   * stripped text, an addition the "mismatch" row, and kept lines and hints give nothing.
   */
  lemma ClassifyLine(sample: string, page: PagePair, op: DiffOp)
    ensures Classify(sample, page, Line(op)) ==
      match op
      case Removed(t) => Some(MissingRow(sample, page, t))
      case Added(t) => Some(MismatchRow(sample, page, t))
      case Kept(_) => None
      case Hint(_) => None
  {
    assert Line(op)[..2] == Code(op);
  }

  /** An optional row as a list of zero or one rows. */
  function AsRows(row: Option<Row>): seq<Row>
  {
    if row.Some? then [row.value] else []
  }

  /** Whatever row a line gives is on the line's page and well formed. */
  lemma ClassifiedRowWellFormed(sample: string, page: PagePair, line: string)
    ensures forall r :: r in AsRows(Classify(sample, page, line)) ==> r.pageNumber == page.number && WellFormed(r, sample)
  {
  }

  /** The rows the inner loop appends for the diff lines `script` of `page`. */
  function ScriptRows(sample: string, page: PagePair, script: seq<DiffOp>): (rows: seq<Row>)
    ensures forall i :: 0 <= i < |rows| ==> rows[i].pageNumber == page.number && WellFormed(rows[i], sample)
  {
    if script == [] then []
    else
      var line := Line(script[|script| - 1]);
      ClassifiedRowWellFormed(sample, page, line);
      ScriptRows(sample, page, script[..|script| - 1]) + AsRows(Classify(sample, page, line))
  }

  /** The rows of one page: those of the diff of its two sides. */
  function PageRows(sample: string, page: PagePair, diff: (seq<string>, seq<string>) -> seq<DiffOp>): (rows: seq<Row>)
    ensures forall i :: 0 <= i < |rows| ==> rows[i].pageNumber == page.number
  {
    ScriptRows(sample, page, diff(page.motherLines, page.candidateLines))
  }

  /** The rows of all the pages visited, page after page. */
  function RowsOfPages(sample: string, pages: seq<PagePair>, diff: (seq<string>, seq<string>) -> seq<DiffOp>): (rows: seq<Row>)
    ensures forall i :: 0 <= i < |rows| ==> WellFormed(rows[i], sample)
  {
    if pages == [] then []
    else RowsOfPages(sample, pages[..|pages| - 1], diff) + PageRows(sample, pages[|pages| - 1], diff)
  }

  /** One more page adds that page's rows after the rows of the pages before it. */
  lemma RowsOfPagesStep(sample: string, pages: seq<PagePair>, i: nat, diff: (seq<string>, seq<string>) -> seq<DiffOp>)
    requires i < |pages|
    ensures RowsOfPages(sample, pages[..i + 1], diff) == RowsOfPages(sample, pages[..i], diff) + PageRows(sample, pages[i], diff)
  {
    assert pages[..i + 1][..i] == pages[..i];
  }

  /** `report_data` once the page loop has run over both documents. */
  function ReportRows(
    mother: seq<PageUnit>, candidate: seq<PageUnit>, sample: string,
    diff: (seq<string>, seq<string>) -> seq<DiffOp>): seq<Row>
  {
    RowsOfPages(sample, AlignPages(PageIndex(mother), PageIndex(candidate)), diff)
  }

  // ---------------------------------------------------------------------------------------
  // What the rows of one page are
  // ---------------------------------------------------------------------------------------

  /**
   * The rows of a script are its edits in order, one row each: row `i` is the row of edit `i`.
   * So there are exactly as many rows as removals and additions.
   */
  lemma {:induction false} ScriptRowsFollowEdits(sample: string, page: PagePair, script: seq<DiffOp>)
    ensures var rows := ScriptRows(sample, page, script);
      var edits := Edits(script);
      |rows| == |edits| && forall i :: 0 <= i < |rows| ==> rows[i] == EditRow(sample, page, edits[i])
  {
    if script != [] {
      var init := script[..|script| - 1];
      var op := script[|script| - 1];
      ScriptRowsFollowEdits(sample, page, init);
      ClassifyLine(sample, page, op);
    }
  }

  /** A removed line of a page's diff shows up among that page's rows, as its "missing" row. */
  lemma RemovedLineHasRow(sample: string, page: PagePair, script: seq<DiffOp>, text: string)
    requires Removed(text) in Edits(script)
    ensures MissingRow(sample, page, text) in ScriptRows(sample, page, script)
  {
    ScriptRowsFollowEdits(sample, page, script);
    var i :| 0 <= i < |Edits(script)| && Edits(script)[i] == Removed(text);
    assert ScriptRows(sample, page, script)[i] == MissingRow(sample, page, text);
  }

  /** An added line of a page's diff shows up among that page's rows, as its "mismatch" row. */
  lemma AddedLineHasRow(sample: string, page: PagePair, script: seq<DiffOp>, text: string)
    requires Added(text) in Edits(script)
    ensures MismatchRow(sample, page, text) in ScriptRows(sample, page, script)
  {
    ScriptRowsFollowEdits(sample, page, script);
    var i :| 0 <= i < |Edits(script)| && Edits(script)[i] == Added(text);
    assert ScriptRows(sample, page, script)[i] == MismatchRow(sample, page, text);
  }

  // ---------------------------------------------------------------------------------------
  // Rows across pages
  // ---------------------------------------------------------------------------------------

  /** Every row of a visited page is a row of the report. */
  lemma {:induction false} PageRowsInReport(
    sample: string, pages: seq<PagePair>, diff: (seq<string>, seq<string>) -> seq<DiffOp>, k: nat)
    requires k < |pages|
    ensures forall r :: r in PageRows(sample, pages[k], diff) ==> r in RowsOfPages(sample, pages, diff)
  {
    if k < |pages| - 1 {
      PageRowsInReport(sample, pages[..|pages| - 1], diff, k);
    }
  }

  /** Every row is on one of the pages visited. */
  lemma {:induction false} RowsOnVisitedPages(
    sample: string, pages: seq<PagePair>, diff: (seq<string>, seq<string>) -> seq<DiffOp>)
    ensures forall r :: r in RowsOfPages(sample, pages, diff) ==> r.pageNumber in Numbers(pages)
  {
    if pages != [] {
      var init := pages[..|pages| - 1];
      RowsOnVisitedPages(sample, init, diff);
      var before := RowsOfPages(sample, init, diff);
      var last := PageRows(sample, pages[|pages| - 1], diff);
      forall r | r in before ensures r.pageNumber in Numbers(pages) {
        var k :| 0 <= k < |Numbers(init)| && Numbers(init)[k] == r.pageNumber;
        assert Numbers(pages)[k] == init[k].number;
      }
      assert Numbers(pages)[|pages| - 1] == pages[|pages| - 1].number;
      assert RowsOfPages(sample, pages, diff) == before + last;
    }
  }

  /** Over ascending pages, every row before the last page's rows is on an earlier page. */
  lemma EarlierPagesFirst(
    sample: string, pages: seq<PagePair>, diff: (seq<string>, seq<string>) -> seq<DiffOp>)
    requires Ascending(pages) && pages != []
    ensures forall r :: r in RowsOfPages(sample, pages[..|pages| - 1], diff) ==> r.pageNumber < pages[|pages| - 1].number
  {
    var init := pages[..|pages| - 1];
    var before := RowsOfPages(sample, init, diff);
    RowsOnVisitedPages(sample, init, diff);
    forall r | r in before ensures r.pageNumber < pages[|pages| - 1].number {
      var k :| 0 <= k < |Numbers(init)| && Numbers(init)[k] == r.pageNumber;
      assert init[k] == pages[k];
    }
  }

  /** Rows are in page order: over ascending pages, no row comes after a row of a later page. */
  lemma {:induction false} RowsOrderedByPage(
    sample: string, pages: seq<PagePair>, diff: (seq<string>, seq<string>) -> seq<DiffOp>)
    requires Ascending(pages)
    ensures forall i, j :: 0 <= i < j < |RowsOfPages(sample, pages, diff)| ==>
      RowsOfPages(sample, pages, diff)[i].pageNumber <= RowsOfPages(sample, pages, diff)[j].pageNumber
  {
    if pages != [] {
      var init := pages[..|pages| - 1];
      RowsOrderedByPage(sample, init, diff);
      EarlierPagesFirst(sample, pages, diff);
      var before := RowsOfPages(sample, init, diff);
      var last := PageRows(sample, pages[|pages| - 1], diff);
      var rows := before + last;
      assert RowsOfPages(sample, pages, diff) == rows;
      forall i, j | 0 <= i < j < |rows| ensures rows[i].pageNumber <= rows[j].pageNumber {
        if j < |before| {
          assert rows[i] == before[i] && rows[j] == before[j];
        } else if i < |before| {
          assert rows[i] == before[i] && rows[j] == last[j - |before|];
          assert before[i] in before;
        } else {
          assert rows[i] == last[i - |before|] && rows[j] == last[j - |before|];
        }
      }
    }
  }

  /** The rows of `rows` that are on page `n`, in order. */
  function RowsOn(rows: seq<Row>, n: nat): seq<Row>
  {
    if rows == [] then []
    else RowsOn(rows[..|rows| - 1], n) + (if rows[|rows| - 1].pageNumber == n then [rows[|rows| - 1]] else [])
  }

  /** Selecting the rows of a page distributes over joined row lists. */
  lemma {:induction false} RowsOnJoin(a: seq<Row>, b: seq<Row>, n: nat)
    ensures RowsOn(a + b, n) == RowsOn(a, n) + RowsOn(b, n)
  {
    if b != [] {
      RowsOnJoin(a, b[..|b| - 1], n);
      assert (a + b)[..|a + b| - 1] == a + b[..|b| - 1];
    } else {
      assert a + b == a;
    }
  }

  /** Selecting page `n` from rows that are all on page `n` keeps them all, and from rows on other pages keeps none. */
  lemma {:induction false} RowsOnUniform(rows: seq<Row>, n: nat)
    ensures (forall i :: 0 <= i < |rows| ==> rows[i].pageNumber == n) ==> RowsOn(rows, n) == rows
    ensures (forall i :: 0 <= i < |rows| ==> rows[i].pageNumber != n) ==> RowsOn(rows, n) == []
  {
    if rows != [] {
      var init := rows[..|rows| - 1];
      RowsOnUniform(init, n);
      assert forall i :: 0 <= i < |init| ==> init[i] == rows[i];
      assert rows == init + [rows[|rows| - 1]];
    }
  }

  /**
   * The rows of page `k` form one contiguous, unreordered run in the report: no row of another
   * page falls between two of its rows, and picking out the rows numbered `pages[k].number`
   * gives exactly that page's rows, in diff order.
   */
  lemma PageRowsAreContiguous(
    sample: string, pages: seq<PagePair>, diff: (seq<string>, seq<string>) -> seq<DiffOp>, k: nat)
    requires Ascending(pages) && k < |pages|
    ensures var rows, n := RowsOfPages(sample, pages, diff), pages[k].number;
      forall i, l, j :: 0 <= i < l < j < |rows| && rows[i].pageNumber == n && rows[j].pageNumber == n ==>
        rows[l].pageNumber == n
    ensures RowsOn(RowsOfPages(sample, pages, diff), pages[k].number) == PageRows(sample, pages[k], diff)
  {
    RowsOrderedByPage(sample, pages, diff);
    PageRowsSelected(sample, pages, diff, k);
  }

  /** Picking out the rows numbered `pages[k].number` gives exactly page `k`'s rows, in diff order. */
  lemma {:induction false} PageRowsSelected(
    sample: string, pages: seq<PagePair>, diff: (seq<string>, seq<string>) -> seq<DiffOp>, k: nat)
    requires Ascending(pages) && k < |pages|
    ensures RowsOn(RowsOfPages(sample, pages, diff), pages[k].number) == PageRows(sample, pages[k], diff)
  {
    var init := pages[..|pages| - 1];
    var lastPage := pages[|pages| - 1];
    var before := RowsOfPages(sample, init, diff);
    var last := PageRows(sample, lastPage, diff);
    var n := pages[k].number;
    RowsOnJoin(before, last, n);
    RowsOnUniform(last, n);
    if k < |pages| - 1 {
      PageRowsSelected(sample, init, diff, k);
      assert init[k] == pages[k];
    } else {
      EarlierPagesFirst(sample, pages, diff);
      RowsOnUniform(before, n);
      assert forall i :: 0 <= i < |before| ==> before[i] in before;
      assert RowsOn(before, n) == [];
      assert RowsOn(last, n) == last;
    }
  }

  /** Total number of removals and additions over all pages' diffs. */
  function EditCount(pages: seq<PagePair>, diff: (seq<string>, seq<string>) -> seq<DiffOp>): nat
  {
    if pages == [] then 0
    else
      var page := pages[|pages| - 1];
      EditCount(pages[..|pages| - 1], diff) + |Edits(diff(page.motherLines, page.candidateLines))|
  }

  /** One row per removal or addition: the report has exactly as many rows as the diffs have edits. */
  lemma {:induction false} RowCountIsEditCount(
    sample: string, pages: seq<PagePair>, diff: (seq<string>, seq<string>) -> seq<DiffOp>)
    ensures |RowsOfPages(sample, pages, diff)| == EditCount(pages, diff)
  {
    if pages != [] {
      var page := pages[|pages| - 1];
      RowCountIsEditCount(sample, pages[..|pages| - 1], diff);
      ScriptRowsFollowEdits(sample, page, diff(page.motherLines, page.candidateLines));
    }
  }

  /** The report is empty exactly when no page's diff has a removal or an addition. */
  lemma NoRowsIffNoEdits(sample: string, pages: seq<PagePair>, diff: (seq<string>, seq<string>) -> seq<DiffOp>)
    ensures RowsOfPages(sample, pages, diff) == [] <==>
      forall k :: 0 <= k < |pages| ==> Edits(diff(pages[k].motherLines, pages[k].candidateLines)) == []
  {
    RowCountIsEditCount(sample, pages, diff);
    NoEditsIffZeroCount(pages, diff);
  }

  /** The edit count is zero exactly when every page's diff is free of edits. */
  lemma {:induction false} NoEditsIffZeroCount(pages: seq<PagePair>, diff: (seq<string>, seq<string>) -> seq<DiffOp>)
    ensures EditCount(pages, diff) == 0 <==>
      forall k :: 0 <= k < |pages| ==> Edits(diff(pages[k].motherLines, pages[k].candidateLines)) == []
  {
    if pages != [] {
      var init := pages[..|pages| - 1];
      NoEditsIffZeroCount(init, diff);
      assert forall k :: 0 <= k < |init| ==> init[k] == pages[k];
    }
  }

  // ---------------------------------------------------------------------------------------
  // What the report says about lines that differ
  // ---------------------------------------------------------------------------------------

  /**
   * A line the mother's page `k` has and the candidate's lacks is reported as missing on that
   * page, under the mother's title, with its stripped text as the filed content.
   */
  lemma MissingLineReported(
    sample: string, pages: seq<PagePair>, diff: (seq<string>, seq<string>) -> seq<DiffOp>, k: nat, line: string)
    requires k < |pages|
    requires IsEditScript(diff(pages[k].motherLines, pages[k].candidateLines), pages[k].motherLines, pages[k].candidateLines)
    requires line in pages[k].motherLines && line !in pages[k].candidateLines
    ensures MissingRow(sample, pages[k], line) in RowsOfPages(sample, pages, diff)
  {
    var script := diff(pages[k].motherLines, pages[k].candidateLines);
    MissingLineIsRemoved(script, line);
    RemovedLineHasRow(sample, pages[k], script, line);
    PageRowsInReport(sample, pages, diff, k);
  }

  /**
   * A line the candidate's page `k` has and the mother's lacks is reported as a mismatch on
   * that page, under the candidate's title, with its stripped text as the customer content.
   */
  lemma ExtraLineReported(
    sample: string, pages: seq<PagePair>, diff: (seq<string>, seq<string>) -> seq<DiffOp>, k: nat, line: string)
    requires k < |pages|
    requires IsEditScript(diff(pages[k].motherLines, pages[k].candidateLines), pages[k].motherLines, pages[k].candidateLines)
    requires line in pages[k].candidateLines && line !in pages[k].motherLines
    ensures MismatchRow(sample, pages[k], line) in RowsOfPages(sample, pages, diff)
  {
    var script := diff(pages[k].motherLines, pages[k].candidateLines);
    ExtraLineIsAdded(script, line);
    AddedLineHasRow(sample, pages[k], script, line);
    PageRowsInReport(sample, pages, diff, k);
  }

  /** If some visited page's two sides differ, the report is not empty. */
  lemma DifferentPageGivesRows(
    sample: string, pages: seq<PagePair>, diff: (seq<string>, seq<string>) -> seq<DiffOp>, k: nat)
    requires k < |pages|
    requires IsEditScript(diff(pages[k].motherLines, pages[k].candidateLines), pages[k].motherLines, pages[k].candidateLines)
    requires pages[k].motherLines != pages[k].candidateLines
    ensures RowsOfPages(sample, pages, diff) != []
  {
    DifferentLinesNeedEdits(diff(pages[k].motherLines, pages[k].candidateLines), pages[k].motherLines, pages[k].candidateLines);
    NoRowsIffNoEdits(sample, pages, diff);
  }

  /** A line diff that reports no edit when both sides are equal, as `ndiff` does. */
  ghost predicate QuietOnEqual(diff: (seq<string>, seq<string>) -> seq<DiffOp>) {
    forall lines :: Edits(diff(lines, lines)) == []
  }

  /** Comparing a document with itself gives no rows, with a diff that is quiet on equal sides. */
  lemma IdenticalDocumentsNoRows(units: seq<PageUnit>, sample: string, diff: (seq<string>, seq<string>) -> seq<DiffOp>)
    requires QuietOnEqual(diff)
    ensures ReportRows(units, units, sample, diff) == []
  {
    var pages := AlignPages(PageIndex(units), PageIndex(units));
    NoRowsIffNoEdits(sample, pages, diff);
  }

  /**
   * A page the candidate does not have (its side is `("Unknown", [])`) gives one "missing" row
   * per mother line, in order, all under the mother's title for that page.
   */
  lemma MotherOnlyPageRows(sample: string, page: PagePair, diff: (seq<string>, seq<string>) -> seq<DiffOp>)
    requires page.candidateLines == []
    requires IsEditScript(diff(page.motherLines, []), page.motherLines, [])
    ensures |PageRows(sample, page, diff)| == |page.motherLines|
    ensures forall i :: 0 <= i < |page.motherLines| ==>
      PageRows(sample, page, diff)[i] == MissingRow(sample, page, page.motherLines[i])
  {
    var script := diff(page.motherLines, []);
    ScriptRowsFollowEdits(sample, page, script);
    OnlyRemovals(script);
  }

  /**
   * A page the mother does not have gives one "mismatch" row per candidate line, in order,
   * all under the candidate's title for that page.
   */
  lemma CandidateOnlyPageRows(sample: string, page: PagePair, diff: (seq<string>, seq<string>) -> seq<DiffOp>)
    requires page.motherLines == []
    requires IsEditScript(diff([], page.candidateLines), [], page.candidateLines)
    ensures |PageRows(sample, page, diff)| == |page.candidateLines|
    ensures forall i :: 0 <= i < |page.candidateLines| ==>
      PageRows(sample, page, diff)[i] == MismatchRow(sample, page, page.candidateLines[i])
  {
    var script := diff([], page.candidateLines);
    ScriptRowsFollowEdits(sample, page, script);
    OnlyAdditions(script);
  }

  /** Two one-page documents are compared as one page pair, page 1. */
  lemma SinglePageAlignment(mt: string, m: seq<string>, ct: string, c: seq<string>)
    ensures AlignPages(PageIndex([PageUnit(1, mt, m)]), PageIndex([PageUnit(1, ct, c)])) == [PagePair(1, mt, m, ct, c)]
  {
    var index := PageIndex([PageUnit(1, mt, m)]);
    var index' := PageIndex([PageUnit(1, ct, c)]);
    assert [PageUnit(1, mt, m)][..0] == [];
    assert [PageUnit(1, ct, c)][..0] == [];
    assert index == map[1 := (mt, m)] && index' == map[1 := (ct, c)];
    assert index.Keys + index'.Keys == {1};
    assert SetMin({1}) == 1;
    assert {1} - {1} == {};
    assert SortedPageNumbers({1}) == [1];
  }

  /** The reference diff replaces a single line by a different single line. */
  lemma ReplaceOneLine(x: string, y: string)
    requires x != y
    ensures ReferenceDiff([x], [y]) == [Removed(x), Added(y)]
  {
    assert Removals([x]) == [Removed(x)];
    assert Additions([y]) == [Added(y)];
  }

  /** The reference diff keeps a first line both sides share. */
  lemma KeepFirstLine(x: string, a: seq<string>, b: seq<string>)
    ensures ReferenceDiff([x] + a, [x] + b) == [Kept(x)] + ReferenceDiff(a, b)
  {
    assert ([x] + a)[1..] == a && ([x] + b)[1..] == b;
  }

  /** Every line of `p`, kept. */
  function Kepts(p: seq<string>): (script: seq<DiffOp>)
    ensures |script| == |p|
  {
    seq(|p|, i requires 0 <= i < |p| => Kept(p[i]))
  }

  /**
   * Two pages that share their first lines and differ in their last line: the reference diff
   * keeps the shared lines, then removes the mother's last line and adds the candidate's.
   */
  lemma {:induction false} SharedLinesThenReplacement(p: seq<string>, y: string, z: string)
    requires y != z
    ensures ReferenceDiff(p + [y], p + [z]) == Kepts(p) + [Removed(y), Added(z)]
  {
    if p == [] {
      assert p + [y] == [y] && p + [z] == [z];
      ReplaceOneLine(y, z);
    } else {
      SharedLinesThenReplacement(p[1..], y, z);
      KeepFirstLine(p[0], p[1..] + [y], p[1..] + [z]);
      assert [p[0]] + (p[1..] + [y]) == p + [y];
      assert [p[0]] + (p[1..] + [z]) == p + [z];
      assert Kepts(p) == [Kept(p[0])] + Kepts(p[1..]);
    }
  }

  /** Kept lines are no edits. */
  lemma {:induction false} KeptLinesNoEdits(p: seq<string>)
    ensures Edits(Kepts(p)) == []
  {
    if p != [] {
      KeptLinesNoEdits(p[..|p| - 1]);
      assert Kepts(p)[..|p| - 1] == Kepts(p[..|p| - 1]);
    }
  }

  /**
   * Two text files, each one page, sharing a first line `head` that is upper-case once
   * stripped and a second line `x`, and differing in their third and last line (the "TITLE A",
   * "clause one", "clause two" against "clause three" example): with the reference line diff
   * the report is one "missing" row for the mother's third line, then one "mismatch" row for
   * the candidate's, both on page 1 under the detected title, the stripped `head`.
   */
  lemma ChangedThirdLineScenario(
    motherPath: string, candidatePath: string, sample: string, head: string, x: string, y: string, z: string)
    requires EndsWith(motherPath, ".txt") && EndsWith(candidatePath, ".txt")
    requires IsUpper(Strip(head))
    requires y != z
    ensures var mother := Extract(motherPath, FileViews(Some([head, x, y]), None, None));
      var candidate := Extract(candidatePath, FileViews(Some([head, x, z]), None, None));
      var page := PagePair(1, Strip(head), [head, x, y], Strip(head), [head, x, z]);
      && mother.Ok? && candidate.Ok?
      && ReportRows(mother.value, candidate.value, sample, ReferenceDiff)
        == [MissingRow(sample, page, y), MismatchRow(sample, page, z)]
  {
    var m, c := [head, x, y], [head, x, z];
    var title := Strip(head);
    var page := PagePair(1, title, m, title, c);
    var rows := [MissingRow(sample, page, y), MismatchRow(sample, page, z)];
    assert Extract(motherPath, FileViews(Some(m), None, None)) == Ok([PageUnit(1, title, m)]) by {
      assert DetectTitle(m) == title;
    }
    assert Extract(candidatePath, FileViews(Some(c), None, None)) == Ok([PageUnit(1, title, c)]) by {
      assert DetectTitle(c) == title;
    }
    assert AlignPages(PageIndex([PageUnit(1, title, m)]), PageIndex([PageUnit(1, title, c)])) == [page] by {
      SinglePageAlignment(title, m, title, c);
    }
    assert PageRows(sample, page, ReferenceDiff) == rows by {
      var shared := [head, x];
      assert shared + [y] == m && shared + [z] == c;
      SharedLinesThenReplacement(shared, y, z);
      ReplacementEdits(shared, y, z);
      ReplacementRows(sample, page, Kepts(shared) + [Removed(y), Added(z)], y, z);
    }
    assert RowsOfPages(sample, [page], ReferenceDiff) == rows by {
      assert [page][..0] == [];
    }
  }

  /**
   * The same two pages with any line diff meeting the contract assumed of `ndiff`: when the
   * changed lines appear nowhere else on the pages, the report holds the "missing" row of the
   * mother's line and the "mismatch" row of the candidate's, both under the shared title.
   */
  lemma ChangedThirdLineReportedByAnyDiff(
    sample: string, title: string, head: string, x: string, y: string, z: string,
    diff: (seq<string>, seq<string>) -> seq<DiffOp>)
    requires y != z && y != head && y != x && z != head && z != x
    requires IsEditScript(diff([head, x, y], [head, x, z]), [head, x, y], [head, x, z])
    ensures var page := PagePair(1, title, [head, x, y], title, [head, x, z]);
      var rows := ReportRows([PageUnit(1, title, [head, x, y])], [PageUnit(1, title, [head, x, z])], sample, diff);
      && MissingRow(sample, page, y) in rows
      && MismatchRow(sample, page, z) in rows
  {
    var m, c := [head, x, y], [head, x, z];
    var page := PagePair(1, title, m, title, c);
    SinglePageAlignment(title, m, title, c);
    assert y in m && y !in c;
    assert z in c && z !in m;
    MissingLineReported(sample, [page], diff, 0, y);
    ExtraLineReported(sample, [page], diff, 0, z);
  }

  /** A script whose only edits are a removal and then an addition gives the "missing" row, then the "mismatch" row. */
  lemma ReplacementRows(sample: string, page: PagePair, script: seq<DiffOp>, y: string, z: string)
    requires Edits(script) == [Removed(y), Added(z)]
    ensures ScriptRows(sample, page, script) == [MissingRow(sample, page, y), MismatchRow(sample, page, z)]
  {
    ScriptRowsFollowEdits(sample, page, script);
  }

  /** Of kept lines followed by a removal and an addition, the edits are the removal and the addition. */
  lemma ReplacementEdits(p: seq<string>, y: string, z: string)
    ensures Edits(Kepts(p) + [Removed(y), Added(z)]) == [Removed(y), Added(z)]
  {
    KeptLinesNoEdits(p);
    SplitScript(Kepts(p), [Removed(y), Added(z)]);
    assert [Removed(y), Added(z)][..1] == [Removed(y)];
    assert [Removed(y)][..0] == [];
  }

  /**
   * A removed or added line that is blank or all whitespace (an empty PDF line, "\n", "  \n")
   * strips to "", so its row has both content cells empty.
   */
  lemma BlankLineGivesEmptyRow(sample: string, page: PagePair, text: string)
    requires AllSpace(text)
    ensures MissingRow(sample, page, text).filedContent == "" && MissingRow(sample, page, text).customerContent == ""
    ensures MismatchRow(sample, page, text).filedContent == "" && MismatchRow(sample, page, text).customerContent == ""
  {
    StripEmptyIff(text);
  }

  /**
   * When every aligned page pair has the same lines on both sides, a diff quiet on equal sides
   * gives no rows, whatever the pages' titles or whether a page exists on one side only.
   */
  lemma NoRowsWhenPagesAgree(sample: string, pages: seq<PagePair>, diff: (seq<string>, seq<string>) -> seq<DiffOp>)
    requires QuietOnEqual(diff)
    requires forall k :: 0 <= k < |pages| ==> pages[k].motherLines == pages[k].candidateLines
    ensures RowsOfPages(sample, pages, diff) == []
  {
    NoRowsIffNoEdits(sample, pages, diff);
  }

  /**
   * With a diff that turns each page's mother lines into its candidate lines and is quiet on
   * equal sides, the report is empty exactly when every aligned page pair has the same lines.
   */
  lemma NoRowsIffPagesAgree(sample: string, pages: seq<PagePair>, diff: (seq<string>, seq<string>) -> seq<DiffOp>)
    requires QuietOnEqual(diff)
    requires forall k :: 0 <= k < |pages| ==>
      IsEditScript(diff(pages[k].motherLines, pages[k].candidateLines), pages[k].motherLines, pages[k].candidateLines)
    ensures RowsOfPages(sample, pages, diff) == [] <==>
      forall k :: 0 <= k < |pages| ==> pages[k].motherLines == pages[k].candidateLines
  {
    if forall k :: 0 <= k < |pages| ==> pages[k].motherLines == pages[k].candidateLines {
      NoRowsWhenPagesAgree(sample, pages, diff);
    } else {
      var k :| 0 <= k < |pages| && pages[k].motherLines != pages[k].candidateLines;
      DifferentPageGivesRows(sample, pages, diff, k);
    }
  }
}
