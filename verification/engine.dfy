/**
 * The top of the comparison engine (fileFunctions.py): `generate_excel_report`, which compares
 * one candidate file with the mother file and writes a report only when they differ, and
 * `compare_with_mother_file`, which does so for every file of a folder, one failure not stopping
 * the others, then moves the compared files away. Paths are POSIX paths.
 */
module Engine {
  import opened Wrappers
  import opened Ascii
  import opened Extraction
  import opened DateToken
  import opened Alignment
  import opened EditScript
  import opened Report
  import opened Render

  // ---------------------------------------------------------------------------------------
  // Paths
  // ---------------------------------------------------------------------------------------

  /** `os.path.basename`: what follows the last '/'. */
  function Basename(path: string): (name: string)
    ensures |name| <= |path| && name == path[|path| - |name|..]
    ensures '/' !in name
    ensures |name| == |path| || path[|path| - |name| - 1] == '/'
  {
    if path == [] || path[|path| - 1] == '/' then []
    else
      var init := Basename(path[..|path| - 1]);
      assert path[|path| - |init| - 1..] == path[..|path| - 1][|path| - 1 - |init|..] + [path[|path| - 1]];
      init + [path[|path| - 1]]
  }

  /**
   * `os.path.join(folder, name)`: an absolute `name` replaces the folder; otherwise `name` follows
   * the folder, separated from a non-empty folder by exactly one added or existing '/'.
   */
  function JoinPath(folder: string, name: string): (path: string)
    ensures EndsWith(path, name)
  {
    if StartsWith(name, "/") then name
    else if folder == [] || folder[|folder| - 1] == '/' then folder + name
    else folder + "/" + name
  }

  /**
   * Where the name goes: an absolute name is the whole path; a relative one follows the folder,
   * after exactly one '/' (the folder's own or an added one) unless the folder is empty.
   */
  lemma JoinPathPlacesName(folder: string, name: string)
    ensures var path := JoinPath(folder, name);
      && (StartsWith(name, "/") ==> path == name)
      && (!StartsWith(name, "/") ==> path == folder + name || path == folder + "/" + name)
      && (!StartsWith(name, "/") && folder != [] ==>
            && |path| > |name| && path[|path| - |name| - 1] == '/'
            && |path| == |folder| + |name| + (if folder[|folder| - 1] == '/' then 0 else 1))
      && (folder == [] ==> path == name)
  {
    var path := JoinPath(folder, name);
    if StartsWith(name, "/") {
      assert path == name;
    } else if folder == [] {
      assert path == name;
    } else if folder[|folder| - 1] == '/' {
      assert path == folder + name;
      assert path[|path| - |name| - 1] == folder[|folder| - 1];
    } else {
      assert path == folder + "/" + name;
      assert path[|path| - |name| - 1] == '/';
    }
  }

  /** `s.rstrip('/')`. */
  function TrimSlashes(s: string): (r: string)
    ensures |r| <= |s| && r == s[..|r|]
    ensures r == [] || r[|r| - 1] != '/'
    ensures forall i :: |r| <= i < |s| ==> s[i] == '/'
  {
    if s == [] || s[|s| - 1] != '/' then s else TrimSlashes(s[..|s| - 1])
  }

  /**
   * `os.path.dirname`: everything up to the last '/', with the trailing slashes dropped unless
   * that is all there is.
   */
  function Dirname(path: string): (dir: string)
    ensures |dir| <= |path| && dir == path[..|dir|]
  {
    var head := path[..|path| - |Basename(path)|];
    var dir := FolderPart(head);
    assert dir == head[..|dir|];
    dir
  }

  /** The folder named by the part of a path up to its last '/': trailing slashes dropped unless that is all there is. */
  function FolderPart(head: string): (dir: string)
    ensures |dir| <= |head| && dir == head[..|dir|]
  {
    var trimmed := TrimSlashes(head);
    if trimmed == [] then head else trimmed
  }

  /** A path has an empty folder part exactly when it holds no '/'. */
  lemma DirnameEmptyIff(path: string)
    ensures Dirname(path) == [] <==> '/' !in path
  {
    var name := Basename(path);
    var head := path[..|path| - |name|];
    if |name| < |path| {
      assert head != [] && head[|head| - 1] == '/';
      assert path[|path| - |name| - 1] in path;
    } else {
      assert name == path[0..] == path;
      assert head == [];
    }
  }

  /** The name of a file placed after a folder and a '/' is the file's name. */
  lemma {:induction false} BasenameAfterSlash(prefix: string, name: string)
    requires '/' !in name
    requires prefix == [] || prefix[|prefix| - 1] == '/'
    ensures Basename(prefix + name) == name
  {
    if name != [] {
      var init, c := name[..|name| - 1], name[|name| - 1];
      assert c in name;
      assert name == init + [c];
      assert prefix + name == (prefix + init) + [c];
      BasenameAfterSlash(prefix, init);
      BasenameSnoc(prefix + init, c);
    }
  }

  /** A character other than '/' added to a path extends its base name. */
  lemma BasenameSnoc(path: string, c: char)
    requires c != '/'
    ensures Basename(path + [c]) == Basename(path) + [c]
  {
    assert (path + [c])[..|path|] == path;
  }

  /** Joining a folder and a plain file name and taking the base name gives the name back. */
  lemma BasenameOfJoin(folder: string, name: string)
    requires name != [] && '/' !in name
    ensures Basename(JoinPath(folder, name)) == name
  {
    if folder == [] || folder[|folder| - 1] == '/' {
      BasenameAfterSlash(folder, name);
    } else {
      BasenameAfterSlash(folder + "/", name);
      assert folder + "/" + name == (folder + "/") + name;
    }
  }

  /** A slash appended to a folder is trimmed with its other trailing slashes. */
  lemma TrimSlashesAfterSlash(folder: string)
    ensures TrimSlashes(folder + "/") == TrimSlashes(folder)
  {
    assert (folder + "/")[..|folder|] == folder;
  }

  /** Trimming trailing slashes twice changes nothing. */
  lemma TrimSlashesIdempotent(s: string)
    ensures TrimSlashes(TrimSlashes(s)) == TrimSlashes(s)
  {
  }

  /**
   * The folder of a plain file name joined to a folder is that folder, without its trailing
   * slashes, unless the folder is nothing but slashes.
   */
  lemma DirnameOfJoin(folder: string, name: string)
    requires name != [] && '/' !in name
    requires TrimSlashes(folder) != []
    ensures Dirname(JoinPath(folder, name)) == TrimSlashes(folder)
  {
    var path := JoinPath(folder, name);
    BasenameOfJoin(folder, name);
    JoinedFolderPart(folder, name);
    DirnameBeforeBasename(path);
  }

  /** The folder of a path is the part before its base name, trimmed of trailing slashes unless only slashes. */
  lemma DirnameBeforeBasename(path: string)
    ensures Dirname(path) == FolderPart(path[..|path| - |Basename(path)|])
  {
  }

  /** What precedes a plain name joined to a folder trims to the folder's own trimmed form. */
  lemma JoinedFolderPart(folder: string, name: string)
    requires name != [] && '/' !in name
    requires folder != []
    ensures var path := JoinPath(folder, name);
      |name| <= |path| && TrimSlashes(path[..|path| - |name|]) == TrimSlashes(folder)
  {
    assert !StartsWith(name, "/") by {
      assert name[0] in name;
    }
    var path := JoinPath(folder, name);
    if folder[|folder| - 1] == '/' {
      assert path == folder + name;
      assert path[..|path| - |name|] == folder;
    } else {
      assert path == folder + "/" + name;
      assert path[..|path| - |name|] == folder + "/";
      TrimSlashesAfterSlash(folder);
    }
  }

  // ---------------------------------------------------------------------------------------
  // One comparison
  // ---------------------------------------------------------------------------------------

  /** What follows the candidate's base name in its report's file name. */
  const ReportSuffix: string := " Report.xlsx"

  /** The folder, beside the mother file, that receives the reports. */
  const ReportFolder: string := "Comparison_Reports"

  /** The sub-folder of the compared folder that receives the compared files. */
  const ProcessedFolder: string := "processed"

  /**
   * How one call of `generate_excel_report` ends: an exception raised while extracting (caught
   * and printed), nothing written because no row was found, or a workbook written at `path`
   * holding `sheet`, its cells after the merge.
   */
  datatype Outcome = Failed(error: ExtractError) | NoDifferences | Written(path: string, sheet: seq<seq<Cell>>)

  /** The specification of `generate_excel_report`. */
  function Generate(
    motherPath: string, motherViews: FileViews, candidatePath: string, candidateViews: FileViews,
    outputDir: string, diff: (seq<string>, seq<string>) -> seq<DiffOp>): Outcome
  {
    match Extract(motherPath, motherViews)
    case Err(e) => Failed(e)
    case Ok(mother) =>
      match Extract(candidatePath, candidateViews)
      case Err(e) => Failed(e)
      case Ok(candidate) =>
        var name := Basename(candidatePath);
        var rows := ReportRows(mother, candidate, ExtractDate(name), diff);
        if rows == [] then NoDifferences
        else Written(JoinPath(outputDir, name + ReportSuffix), Merged(Table(Basename(motherPath), name, rows)))
  }

  /**
   * `generate_excel_report`: extract both files, walk the aligned pages and each page's diff
   * lines appending a row for every removal and addition, and, when some row was found, build
   * the sheet and work out each data row's fill and each column's width.
   */
  method GenerateExcelReport(
    motherPath: string, motherViews: FileViews, candidatePath: string, candidateViews: FileViews,
    outputDir: string, diff: (seq<string>, seq<string>) -> seq<DiffOp>)
    returns (outcome: Outcome, fills: seq<Option<string>>, widths: seq<nat>)
    ensures outcome == Generate(motherPath, motherViews, candidatePath, candidateViews, outputDir, diff)
    ensures outcome.Written? ==>
      && |fills| == |outcome.sheet| - 1
      && (forall i :: 0 <= i < |fills| ==> fills[i] == RowFill(outcome.sheet[i + 1]))
      && |widths| == Columns
      && (forall c :: 0 <= c < Columns ==> widths[c] == ColumnWidth(Column(outcome.sheet, c)))
    ensures !outcome.Written? ==> fills == [] && widths == []
  {
    fills, widths := [], [];
    var motherData := ExtractText(motherPath, motherViews);
    if motherData.Err? {
      return Failed(motherData.error), fills, widths;
    }
    var comparisonData := ExtractText(candidatePath, candidateViews);
    if comparisonData.Err? {
      return Failed(comparisonData.error), fills, widths;
    }
    var motherPages := PageIndex(motherData.value);
    var comparisonPages := PageIndex(comparisonData.value);
    var comparisonFilename := Basename(candidatePath);
    var extractedDate := ExtractDate(comparisonFilename);

    var reportData := CollectRows(motherPages, comparisonPages, extractedDate, diff);
    if reportData == [] {
      return NoDifferences, fills, widths;
    }
    var sheet := Merged(Table(Basename(motherPath), comparisonFilename, reportData));
    fills, widths := FormatSheet(sheet);
    outcome := Written(JoinPath(outputDir, comparisonFilename + ReportSuffix), sheet);
  }

  /**
   * The page loop of `generate_excel_report`: the pages of either document in ascending order,
   * each contributing the rows of its diff lines.
   */
  method CollectRows(
    motherPages: PageMap, comparisonPages: PageMap, extractedDate: string,
    diff: (seq<string>, seq<string>) -> seq<DiffOp>)
    returns (reportData: seq<Row>)
    ensures reportData == RowsOfPages(extractedDate, AlignPages(motherPages, comparisonPages), diff)
  {
    var allPageNums := SortedPageNumbers(motherPages.Keys + comparisonPages.Keys);
    ghost var pages := AlignPages(motherPages, comparisonPages);
    AlignedPages(motherPages, comparisonPages);
    reportData := [];
    for i := 0 to |allPageNums|
      invariant |pages| == |allPageNums|
      invariant reportData == RowsOfPages(extractedDate, pages[..i], diff)
    {
      var page := PairAt(motherPages, comparisonPages, allPageNums[i]);
      assert page == pages[i];
      RowsOfPagesStep(extractedDate, pages, i, diff);
      reportData := AppendDiffRows(reportData, extractedDate, page, diff(page.motherLines, page.candidateLines));
    }
    assert pages[..|pages|] == pages;
  }

  /**
   * The diff-line loop of `generate_excel_report`: each line of the diff appends the row
   * `Classify` gives it, if any.
   */
  method AppendDiffRows(before: seq<Row>, extractedDate: string, page: PagePair, diffLines: seq<DiffOp>)
    returns (reportData: seq<Row>)
    ensures reportData == before + ScriptRows(extractedDate, page, diffLines)
  {
    reportData := before;
    for j := 0 to |diffLines|
      invariant reportData == before + ScriptRows(extractedDate, page, diffLines[..j])
    {
      ScriptRowsStep(extractedDate, page, diffLines, j);
      var row := Classify(extractedDate, page, Line(diffLines[j]));
      if row.Some? {
        reportData := reportData + [row.value];
      }
    }
    assert diffLines[..|diffLines|] == diffLines;
  }

  /** Extending a prefix of a script by one line adds that line's row, if any. */
  lemma ScriptRowsStep(sample: string, page: PagePair, script: seq<DiffOp>, j: nat)
    requires j < |script|
    ensures ScriptRows(sample, page, script[..j + 1])
         == ScriptRows(sample, page, script[..j]) + AsRows(Classify(sample, page, Line(script[j])))
  {
    var prefix := script[..j + 1];
    assert prefix[..|prefix| - 1] == script[..j];
  }

  /** A report is written under the candidate's base name followed by " Report.xlsx". */
  lemma WrittenReportName(
    motherPath: string, motherViews: FileViews, candidatePath: string, candidateViews: FileViews,
    outputDir: string, diff: (seq<string>, seq<string>) -> seq<DiffOp>)
    requires Generate(motherPath, motherViews, candidatePath, candidateViews, outputDir, diff).Written?
    ensures var path := Generate(motherPath, motherViews, candidatePath, candidateViews, outputDir, diff).path;
      && Basename(path) == Basename(candidatePath) + ReportSuffix
      && EndsWith(path, ReportSuffix)
  {
    var name := Basename(candidatePath) + ReportSuffix;
    GeneratedPath(motherPath, motherViews, candidatePath, candidateViews, outputDir, diff);
    NameWithSuffix(Basename(candidatePath));
    BasenameOfJoin(outputDir, name);
  }

  lemma GeneratedPath(
    motherPath: string, motherViews: FileViews, candidatePath: string, candidateViews: FileViews,
    outputDir: string, diff: (seq<string>, seq<string>) -> seq<DiffOp>)
    requires Generate(motherPath, motherViews, candidatePath, candidateViews, outputDir, diff).Written?
    ensures Generate(motherPath, motherViews, candidatePath, candidateViews, outputDir, diff).path
         == JoinPath(outputDir, Basename(candidatePath) + ReportSuffix)
  {
  }

  lemma NameWithSuffix(name: string)
    requires '/' !in name
    ensures var full := name + ReportSuffix; full != [] && '/' !in full && EndsWith(full, ReportSuffix)
  {
    var full := name + ReportSuffix;
    forall i | 0 <= i < |full| ensures full[i] != '/' {
      if i >= |name| {
        assert full[i] == ReportSuffix[i - |name|];
      }
    }
    assert full[|name|..] == ReportSuffix;
  }

  /**
   * A report is written exactly when both files are extracted and some aligned page's diff
   * holds an edit; it then has one data row per edit below its header row.
   */
  lemma WrittenIffEdits(
    motherPath: string, motherViews: FileViews, candidatePath: string, candidateViews: FileViews,
    outputDir: string, diff: (seq<string>, seq<string>) -> seq<DiffOp>)
    requires Extract(motherPath, motherViews).Ok? && Extract(candidatePath, candidateViews).Ok?
    ensures var pages := AlignPages(PageIndex(Extract(motherPath, motherViews).value), PageIndex(Extract(candidatePath, candidateViews).value));
      var outcome := Generate(motherPath, motherViews, candidatePath, candidateViews, outputDir, diff);
      && (outcome.Written? <==> EditCount(pages, diff) != 0)
      && (outcome.NoDifferences? <==> EditCount(pages, diff) == 0)
      && (outcome.Written? ==> |outcome.sheet| == EditCount(pages, diff) + 1)
  {
    var pages := AlignPages(PageIndex(Extract(motherPath, motherViews).value), PageIndex(Extract(candidatePath, candidateViews).value));
    var sample := ExtractDate(Basename(candidatePath));
    RowCountIsEditCount(sample, pages, diff);
  }

  /** The mother file is extracted first: when it cannot be, nothing about the candidate matters. */
  lemma MotherFailureFirst(
    motherPath: string, motherViews: FileViews, candidatePath: string, candidateViews: FileViews,
    outputDir: string, diff: (seq<string>, seq<string>) -> seq<DiffOp>)
    requires Extract(motherPath, motherViews).Err?
    ensures Generate(motherPath, motherViews, candidatePath, candidateViews, outputDir, diff)
         == Failed(Extract(motherPath, motherViews).error)
  {
  }

  /** A candidate without a supported suffix fails with the unsupported-format error, naming it. */
  lemma UnsupportedCandidateFails(
    motherPath: string, motherViews: FileViews, candidatePath: string, candidateViews: FileViews,
    outputDir: string, diff: (seq<string>, seq<string>) -> seq<DiffOp>)
    requires Extract(motherPath, motherViews).Ok?
    requires !Supported(candidatePath)
    ensures Generate(motherPath, motherViews, candidatePath, candidateViews, outputDir, diff)
         == Failed(UnsupportedFormat(candidatePath))
  {
    UnsupportedIff(candidatePath, candidateViews);
  }

  /** Comparing a file with an identical extraction writes nothing, with a quiet diff. */
  lemma IdenticalFilesNoReport(
    motherPath: string, motherViews: FileViews, candidatePath: string, candidateViews: FileViews,
    outputDir: string, diff: (seq<string>, seq<string>) -> seq<DiffOp>)
    requires Extract(motherPath, motherViews).Ok?
    requires Extract(candidatePath, candidateViews) == Extract(motherPath, motherViews)
    requires QuietOnEqual(diff)
    ensures Generate(motherPath, motherViews, candidatePath, candidateViews, outputDir, diff) == NoDifferences
  {
    IdenticalDocumentsNoRows(Extract(motherPath, motherViews).value, ExtractDate(Basename(candidatePath)), diff);
  }

  /**
   * Once both files are extracted, and the diff turns each aligned page's mother lines into its
   * candidate lines and is quiet on equal sides, a report is written exactly when some aligned
   * page pair's lines differ, and nothing is written exactly when every pair agrees.
   */
  lemma WrittenIffPagesDiffer(
    motherPath: string, motherViews: FileViews, candidatePath: string, candidateViews: FileViews,
    outputDir: string, diff: (seq<string>, seq<string>) -> seq<DiffOp>)
    requires Extract(motherPath, motherViews).Ok? && Extract(candidatePath, candidateViews).Ok?
    requires QuietOnEqual(diff)
    requires var pages := AlignPages(PageIndex(Extract(motherPath, motherViews).value), PageIndex(Extract(candidatePath, candidateViews).value));
      forall k :: 0 <= k < |pages| ==>
        IsEditScript(diff(pages[k].motherLines, pages[k].candidateLines), pages[k].motherLines, pages[k].candidateLines)
    ensures var pages := AlignPages(PageIndex(Extract(motherPath, motherViews).value), PageIndex(Extract(candidatePath, candidateViews).value));
      var outcome := Generate(motherPath, motherViews, candidatePath, candidateViews, outputDir, diff);
      && (outcome.Written? <==> exists k :: 0 <= k < |pages| && pages[k].motherLines != pages[k].candidateLines)
      && (outcome.NoDifferences? <==> forall k :: 0 <= k < |pages| ==> pages[k].motherLines == pages[k].candidateLines)
  {
    var pages := AlignPages(PageIndex(Extract(motherPath, motherViews).value), PageIndex(Extract(candidatePath, candidateViews).value));
    NoRowsIffPagesAgree(ExtractDate(Basename(candidatePath)), pages, diff);
  }

  // ---------------------------------------------------------------------------------------
  // The folder batch
  // ---------------------------------------------------------------------------------------

  /** One entry of the compared folder's listing: its name, whether it is a file, its contents. */
  datatype Entry = Entry(name: string, isFile: bool, views: FileViews)

  /** The folder the reports go to: "Comparison_Reports" beside the mother file. */
  function OutputDir(motherPath: string): string
  {
    JoinPath(Dirname(motherPath), ReportFolder)
  }

  /** What the loop does with one entry: files are compared, anything else is skipped. */
  function CompareEntry(
    motherPath: string, motherViews: FileViews, folder: string, entry: Entry,
    diff: (seq<string>, seq<string>) -> seq<DiffOp>): Option<Outcome>
  {
    if entry.isFile then
      Some(Generate(motherPath, motherViews, JoinPath(folder, entry.name), entry.views, OutputDir(motherPath), diff))
    else None
  }

  /** The outcomes of the batch loop, one per listing entry, in listing order. */
  function BatchOutcomes(
    motherPath: string, motherViews: FileViews, folder: string, entries: seq<Entry>,
    diff: (seq<string>, seq<string>) -> seq<DiffOp>): (outcomes: seq<Option<Outcome>>)
    ensures |outcomes| == |entries|
  {
    if entries == [] then []
    else
      BatchOutcomes(motherPath, motherViews, folder, entries[..|entries| - 1], diff)
        + [CompareEntry(motherPath, motherViews, folder, entries[|entries| - 1], diff)]
  }

  /** The names `move_to_processed_folder` moves: every file of the listing, in listing order. */
  function FileNames(entries: seq<Entry>): (names: seq<string>)
    ensures |names| <= |entries|
    ensures forall e :: e in entries && e.isFile ==> e.name in names
    ensures forall n :: n in names ==> exists e :: e in entries && e.isFile && e.name == n
  {
    if entries == [] then []
    else
      var init := FileNames(entries[..|entries| - 1]);
      var last := entries[|entries| - 1];
      assert forall e :: e in entries ==> e in entries[..|entries| - 1] || e == last;
      init + (if last.isFile then [last.name] else [])
  }
  /** The file names of a listing split in two are those of the first part, then those of the second: listing order is kept. */
  lemma {:induction false} FileNamesJoin(a: seq<Entry>, b: seq<Entry>)
    ensures FileNames(a + b) == FileNames(a) + FileNames(b)
  {
    if b == [] {
      assert a + b == a;
    } else {
      var init, last := b[..|b| - 1], b[|b| - 1];
      var named := if last.isFile then [last.name] else [];
      assert b == init + [last];
      assert a + b == (a + init) + [last];
      calc {
        FileNames(a + b);
        { FileNamesSnoc(a + init, last); }
        FileNames(a + init) + named;
        { FileNamesJoin(a, init); }
        (FileNames(a) + FileNames(init)) + named;
        { Reassociate(FileNames(a), FileNames(init), named); }
        FileNames(a) + (FileNames(init) + named);
        { FileNamesSnoc(init, last); }
        FileNames(a) + FileNames(b);
      }
    }
  }

  /** One more entry at the end of a listing adds its name at the end when it is a file. */
  lemma FileNamesSnoc(entries: seq<Entry>, e: Entry)
    ensures FileNames(entries + [e]) == FileNames(entries) + (if e.isFile then [e.name] else [])
  {
    assert (entries + [e])[..|entries|] == entries;
  }


  /**
   * How the batch ends: refused because the compared folder is not a folder, or run, with the
   * outcome of every listing entry (`None` for what is not a file), the "processed" folder and
   * the names of the files moved into it.
   */
  datatype Batch = NotAFolder | Ran(outcomes: seq<Option<Outcome>>, processed: string, moved: seq<string>)

  /**
   * `compare_with_mother_file`: every file of the folder is compared with the mother file in
   * listing order; a comparison that fails ends only itself, since `generate_excel_report`
   * catches its exceptions; then every file is moved to the "processed" sub-folder.
   */
  method CompareWithMotherFile(
    motherPath: string, motherViews: FileViews, folder: string, folderIsDir: bool, entries: seq<Entry>,
    diff: (seq<string>, seq<string>) -> seq<DiffOp>)
    returns (batch: Batch)
    ensures !folderIsDir <==> batch == NotAFolder
    ensures batch.Ran? ==>
      && |batch.outcomes| == |entries|
      && batch.outcomes == BatchOutcomes(motherPath, motherViews, folder, entries, diff)
      && batch.processed == JoinPath(folder, ProcessedFolder)
      && batch.moved == FileNames(entries)
  {
    if !folderIsDir {
      return NotAFolder;
    }
    var outputDir := OutputDir(motherPath);
    var outcomes := CompareEach(motherPath, motherViews, folder, entries, outputDir, diff);
    var processed := JoinPath(folder, ProcessedFolder);
    var moved := MoveToProcessedFolder(entries);
    batch := Ran(outcomes, processed, moved);
  }

  /** The loop over the folder listing: each entry in turn, in listing order. */
  method CompareEach(
    motherPath: string, motherViews: FileViews, folder: string, entries: seq<Entry>, outputDir: string,
    diff: (seq<string>, seq<string>) -> seq<DiffOp>)
    returns (outcomes: seq<Option<Outcome>>)
    requires outputDir == OutputDir(motherPath)
    ensures outcomes == BatchOutcomes(motherPath, motherViews, folder, entries, diff)
  {
    outcomes := [];
    for k := 0 to |entries|
      invariant outcomes == BatchOutcomes(motherPath, motherViews, folder, entries[..k], diff)
    {
      var outcome := CompareOne(motherPath, motherViews, folder, entries[k], outputDir, diff);
      BatchOutcomesStep(motherPath, motherViews, folder, entries, k, diff);
      outcomes := outcomes + [outcome];
    }
    assert entries[..|entries|] == entries;
  }

  /** One more entry adds its outcome after those of the entries before it. */
  lemma BatchOutcomesStep(
    motherPath: string, motherViews: FileViews, folder: string, entries: seq<Entry>, k: nat,
    diff: (seq<string>, seq<string>) -> seq<DiffOp>)
    requires k < |entries|
    ensures BatchOutcomes(motherPath, motherViews, folder, entries[..k + 1], diff)
         == BatchOutcomes(motherPath, motherViews, folder, entries[..k], diff)
            + [CompareEntry(motherPath, motherViews, folder, entries[k], diff)]
  {
    assert entries[..k + 1][..k] == entries[..k];
  }

  /** One turn of the batch loop: a file is compared with the mother file, anything else skipped. */
  method CompareOne(
    motherPath: string, motherViews: FileViews, folder: string, entry: Entry, outputDir: string,
    diff: (seq<string>, seq<string>) -> seq<DiffOp>)
    returns (outcome: Option<Outcome>)
    requires outputDir == OutputDir(motherPath)
    ensures outcome == CompareEntry(motherPath, motherViews, folder, entry, diff)
  {
    if entry.isFile {
      var generated, _, _ := GenerateExcelReport(motherPath, motherViews, JoinPath(folder, entry.name), entry.views, outputDir, diff);
      outcome := Some(generated);
    } else {
      outcome := None;
    }
  }

  /** `move_to_processed_folder`: the files of the listing, moved one by one in listing order. */
  method MoveToProcessedFolder(entries: seq<Entry>) returns (moved: seq<string>)
    ensures moved == FileNames(entries)
  {
    moved := [];
    for k := 0 to |entries|
      invariant moved == FileNames(entries[..k])
    {
      assert entries[..k + 1][..k] == entries[..k];
      if entries[k].isFile {
        moved := moved + [entries[k].name];
      }
    }
    assert entries[..|entries|] == entries;
  }

  /**
   * Every file of the folder is compared, and what happens to one does not depend on the
   * others: entry `k`'s outcome is that of comparing it alone, whatever the other entries are.
   */
  lemma {:induction false} EveryFileCompared(
    motherPath: string, motherViews: FileViews, folder: string, entries: seq<Entry>,
    diff: (seq<string>, seq<string>) -> seq<DiffOp>)
    ensures forall k :: 0 <= k < |entries| ==>
      BatchOutcomes(motherPath, motherViews, folder, entries, diff)[k]
        == CompareEntry(motherPath, motherViews, folder, entries[k], diff)
  {
    if entries != [] {
      var init := entries[..|entries| - 1];
      EveryFileCompared(motherPath, motherViews, folder, init, diff);
      forall k | 0 <= k < |entries|
        ensures BatchOutcomes(motherPath, motherViews, folder, entries, diff)[k]
             == CompareEntry(motherPath, motherViews, folder, entries[k], diff)
      {
        if k < |init| {
          assert entries[k] == init[k];
        }
      }
    }
  }

  /** A file entry's outcome is the comparison of that file with the mother file; anything else has none. */
  lemma FileEntryOutcome(
    motherPath: string, motherViews: FileViews, folder: string, entry: Entry,
    diff: (seq<string>, seq<string>) -> seq<DiffOp>)
    ensures CompareEntry(motherPath, motherViews, folder, entry, diff).Some? <==> entry.isFile
    ensures entry.isFile ==>
      CompareEntry(motherPath, motherViews, folder, entry, diff)
        == Some(Generate(motherPath, motherViews, JoinPath(folder, entry.name), entry.views, OutputDir(motherPath), diff))
  {
  }

  /** With an unsupported mother file every file of the folder fails, with the mother's error. */
  lemma UnsupportedMotherFailsEveryFile(
    motherPath: string, motherViews: FileViews, folder: string, entry: Entry,
    diff: (seq<string>, seq<string>) -> seq<DiffOp>)
    requires !Supported(motherPath)
    requires entry.isFile
    ensures CompareEntry(motherPath, motherViews, folder, entry, diff) == Some(Failed(UnsupportedFormat(motherPath)))
  {
    UnsupportedIff(motherPath, motherViews);
  }

  /** Every report of a batch lands in "Comparison_Reports" under its file's name plus " Report.xlsx". */
  lemma BatchReportNames(
    motherPath: string, motherViews: FileViews, folder: string, entry: Entry,
    diff: (seq<string>, seq<string>) -> seq<DiffOp>)
    requires entry.name != [] && '/' !in entry.name
    requires CompareEntry(motherPath, motherViews, folder, entry, diff).Some?
    requires CompareEntry(motherPath, motherViews, folder, entry, diff).value.Written?
    ensures CompareEntry(motherPath, motherViews, folder, entry, diff).value.path
         == JoinPath(OutputDir(motherPath), entry.name + ReportSuffix)
  {
    BasenameOfJoin(folder, entry.name);
  }

  /** The report folder is named "Comparison_Reports" and sits in the mother file's own folder. */
  lemma ReportsBesideMother(folder: string, motherName: string)
    requires motherName != [] && '/' !in motherName
    requires TrimSlashes(folder) != []
    ensures var motherPath := JoinPath(folder, motherName);
      && Dirname(OutputDir(motherPath)) == Dirname(motherPath)
      && Basename(OutputDir(motherPath)) == ReportFolder
  {
    var motherPath := JoinPath(folder, motherName);
    var dir := Dirname(motherPath);
    DirnameOfJoin(folder, motherName);
    TrimSlashesIdempotent(folder);
    assert '/' !in ReportFolder;
    DirnameOfJoin(dir, ReportFolder);
    BasenameOfJoin(dir, ReportFolder);
  }

  /** The compared files are moved into a sub-folder "processed" of the compared folder. */
  lemma ProcessedInsideFolder(folder: string)
    requires TrimSlashes(folder) != []
    ensures Dirname(JoinPath(folder, ProcessedFolder)) == TrimSlashes(folder)
    ensures Basename(JoinPath(folder, ProcessedFolder)) == ProcessedFolder
  {
    assert '/' !in ProcessedFolder;
    DirnameOfJoin(folder, ProcessedFolder);
    BasenameOfJoin(folder, ProcessedFolder);
  }
}
