# Document comparison engine, modelled in Dafny

This project models the comparison engine in `fileFunctions.py`. The engine takes a "mother"
(filed) copy of an insurance policy document. It compares every file of a folder of customer
copies against it. For each customer copy that differs, it writes a spreadsheet report, then
moves the compared files to a `processed` sub-folder.

The modules follow the stages of that engine:

| module | file | stage |
|---|---|---|
| `Wrappers` | `wrappers.dfy` | `Option` and `Result` |
| `Ascii` | `ascii.dfy` | the `str` helpers the engine relies on: `strip`, `isupper`, `startswith`, `endswith`, `\d`, `\w` |
| `Extraction` | `extraction.dfy` | `extract_text_from_file`: the extension picks the reader, the page units, the title rule |
| `DateToken` | `date_token.dfy` | `extract_date_from_filename`: the leftmost `\b(20\d{6})\b` |
| `Alignment` | `alignment.dfy` | the page dictionaries and the walk over the sorted union of page numbers |
| `EditScript` | `edit_script.dfy` | the output of `difflib.ndiff` seen as an edit script, plus a reference diff that meets its contract |
| `Report` | `report.dfy` | classifying diff lines into "missing" and "mismatch" rows, page by page |
| `Render` | `render.dfy` | the sheet's cells, the vertical merge, each row's fill colour, each column's width |
| `Engine` | `engine.dfy` | `generate_excel_report`, `compare_with_mother_file`, `move_to_processed_folder`, and POSIX path handling |

The loops of the source are methods, each proved against a specification function:

- `Engine.GenerateExcelReport` is proved against `Engine.Generate`;
- `Engine.CollectRows` and `Engine.AppendDiffRows` against `Report.RowsOfPages` and `Report.ScriptRows`;
- `Render.FormatSheet` against `Render.RowFill` and `Render.ColumnWidth`;
- `Extraction.ExtractPdfPages` against `Extraction.PdfUnits`;
- `Engine.CompareWithMotherFile` and `Engine.CompareEach` against `Engine.BatchOutcomes` and `Engine.FileNames`;
- `Engine.MoveToProcessedFolder` against `Engine.FileNames`.

The lemmas then state what those specification functions promise.

The line diff is a parameter `diff` of the model. The source calls `difflib.ndiff`, whose
algorithm is not modelled. Where a lemma needs to know what `diff` does, it takes one of two
hypotheses:

- `EditScript.IsEditScript(diff(a, b), a, b)`: the script's kept and removed lines spell `a`,
  and its kept and added lines spell `b`;
- `Report.QuietOnEqual(diff)`: equal inputs give no edits.

`EditScript.ReferenceDiff` is a concrete diff, proved to meet both hypotheses.

## Model

| member | source | states |
|---|---|---|
| `Ascii.Strip` | fileFunctions.py:23 | the stripped line starts and ends with non-whitespace and is no longer than the line |
| `Ascii.StripSplits` | fileFunctions.py:23 | a line is some whitespace, then its stripped text, then some whitespace |
| `Ascii.StripEmptyIff` | fileFunctions.py:39 | a paragraph strips to "" exactly when it is all whitespace |
| `Ascii.StripIdempotent` | fileFunctions.py:39-41 | stripping twice changes nothing, so DOCX lines, already stripped, keep their text when the title rule strips them |
| `Extraction.DetectTitle` | fileFunctions.py:22-24 | the title is "Unknown" or an upper-case string |
| `Extraction.TitleIsFirstUpperLine` | fileFunctions.py:22-24 | the title is the stripped text of the first line whose stripped text is upper-case, or "Unknown" when no line is |
| `Extraction.UnknownIffNoUpperLine` | fileFunctions.py:31-34 | the title is "Unknown" exactly when no stripped line is upper-case; "Unknown" is never mistaken for a detected title |
| `Extraction.TitleNotBlank` | fileFunctions.py:22-24 | a page's title is never blank: it is an upper-case line or "Unknown" |
| `Extraction.FirstUpper` | fileFunctions.py:41 | the DOCX title is "Unknown" or an upper-case paragraph |
| `Extraction.FirstUpperIsDetectTitle` | fileFunctions.py:39-41 | on the stripped, non-blank DOCX paragraphs, the DOCX title rule agrees with the rule for text and PDF pages |
| `Extraction.DocxLines` | fileFunctions.py:39 | the DOCX lines are non-empty and stripped, at most one per paragraph |
| `Extraction.DocxLinesKeepNonBlank` | fileFunctions.py:39 | a paragraph's stripped text is among the DOCX lines exactly when the paragraph is not all whitespace, and every line is the stripped text of some paragraph |
| `Extraction.DocxLinesJoin` | fileFunctions.py:39 | the filter keeps paragraph order: the lines of two paragraph lists joined are the lines of the first, then those of the second |
| `Extraction.DocxLinesSingle` | fileFunctions.py:39 | a single paragraph gives its stripped text when that is not empty, and nothing otherwise (with `DocxLinesJoin` this determines the lines of every document) |
| `Extraction.SplitLines` | fileFunctions.py:30 | splitting on "\n" gives at least one piece, and no piece contains "\n" |
| `Extraction.JoinSplit` | fileFunctions.py:30 | joining the pieces with "\n" gives back the page text |
| `Extraction.SplitJoin` | fileFunctions.py:30 | pieces without "\n", joined and split again, are the same pieces |
| `Extraction.ExtractPdfPages` | fileFunctions.py:27-35 | one unit per PDF page, numbered from 1 in page order; a page without text has no lines; every title comes from its own page's lines |
| `Extraction.ExtractText` | fileFunctions.py:15-47 | the result of extraction, or the error it raises: text, PDF and DOCX readers chosen by case-sensitive suffix; anything else is refused |
| `Extraction.UnsupportedIff` | fileFunctions.py:44-45 | the unsupported-format error is raised exactly for a path ending in none of ".txt", ".pdf", ".docx" |
| `Extraction.ExtractedPages` | fileFunctions.py:19-42 | extracted pages are numbered 1, 2, ...; each is titled from its own lines; text and DOCX files give exactly one page, holding the file's lines or the DOCX paragraphs' non-blank stripped texts; a PDF gives one page per PDF page, holding that page's split lines |
| `DateToken.FindDate` | fileFunctions.py:52 | the search returns the first position holding a date token at word boundaries, and None when no position does |
| `DateToken.ExtractDate` | fileFunctions.py:50-53 | the date is "" or eight digits starting with "20" |
| `DateToken.ExtractDateIsLeftmost` | fileFunctions.py:52-53 | the date is the token at the leftmost matching position, or "" when none matches |
| `DateToken.NoDateIff` | fileFunctions.py:53 | "" is returned exactly when the pattern matches nowhere in the name |
| `DateToken.UnderscoreHidesDate` | fileFunctions.py:52 | "Policy_20240615_v2.pdf" gives "": the underscore is a word character, so there is no `\b` before the digits |
| `DateToken.SpacedDateFound` | fileFunctions.py:52 | "Policy 20240615 v2.pdf" gives "20240615" |
| `DateToken.PlainNameHasNoDate` | fileFunctions.py:53 | "Policy_final.pdf" gives "" |
| `Alignment.PageIndex` | fileFunctions.py:110-115 | the dictionary's keys are exactly the page numbers of the units |
| `Alignment.PageIndexFindsEveryUnit` | fileFunctions.py:110-115 | with distinct page numbers, every unit's title and lines are found under its number |
| `Alignment.SortedPageNumbers` | fileFunctions.py:117 | the sorted numbers are strictly ascending and are exactly the numbers of the set |
| `Alignment.AlignPages` | fileFunctions.py:117-126 | the walk visits every page number of either document once, in ascending order; each side is that document's page, or ("Unknown", []) when the document lacks it |
| `EditScript.Line` | fileFunctions.py:131-154 | a diff line is a two-character code followed by the line it is about, so `line[2:]` is that line |
| `EditScript.Edits` | fileFunctions.py:130-156 | the edits of a diff are removals and additions only, in diff order |
| `EditScript.NoEditsSameSides` | fileFunctions.py:128 | a diff without edits relates a page to an identical page |
| `EditScript.DifferentLinesNeedEdits` | fileFunctions.py:128 | a diff between two different pages has at least one edit |
| `EditScript.MissingLineIsRemoved` | fileFunctions.py:128-131 | a line the mother has and the candidate lacks is removed somewhere in the diff |
| `EditScript.ExtraLineIsAdded` | fileFunctions.py:128-144 | a line the candidate has and the mother lacks is added somewhere in the diff |
| `EditScript.OnlyRemovals` | fileFunctions.py:123-128 | a diff against a missing page (no lines) removes every mother line, in order, and nothing else |
| `EditScript.OnlyAdditions` | fileFunctions.py:123-128 | a diff from a missing page adds every candidate line, in order, and nothing else |
| `EditScript.ReferenceDiffIsEditScript` | fileFunctions.py:128 | the reference diff meets the contract assumed of `ndiff`: it turns the mother's lines into the candidate's |
| `EditScript.ReferenceDiffQuietOnEqual` | fileFunctions.py:128 | like `ndiff`, the reference diff has no edit for two equal pages |
| `Report.ClassifyLine` | fileFunctions.py:131-156 | a "- " line gives the "missing" row of its stripped text under the mother's title; a "+ " line gives the "mismatch" row under the candidate's title; kept lines and "? " hints give nothing |
| `Report.ClassifiedRowWellFormed` | fileFunctions.py:132-155 | every row carries the product name, an empty UIN and the sample date; a "missing" row has an empty customer content, a "mismatch" row an empty filed content |
| `Report.ScriptRows` | fileFunctions.py:130-156 | every row of a page's diff is on that page and well formed |
| `Report.ScriptRowsFollowEdits` | fileFunctions.py:130-156 | a page's rows are its diff's edits, one row per edit, in diff order |
| `Report.RemovedLineHasRow` | fileFunctions.py:131-143 | every removed line has its "missing" row |
| `Report.AddedLineHasRow` | fileFunctions.py:144-156 | every added line has its "mismatch" row |
| `Report.PageRows` | fileFunctions.py:128-156 | all rows of a page carry that page's number |
| `Report.RowsOfPages` | fileFunctions.py:122-156 | every row of the report is well formed for the candidate's date |
| `Report.PageRowsInReport` | fileFunctions.py:122-156 | every row of every visited page is in the report |
| `Report.RowsOnVisitedPages` | fileFunctions.py:122 | every row is on a page the walk visited |
| `Report.RowsOrderedByPage` | fileFunctions.py:117-156 | rows are in ascending page order |
| `Report.PageRowsAreContiguous` | fileFunctions.py:122-156 | the rows of a page are exactly that page's diff rows, in diff order, and no other page's rows fall among them |
| `Report.RowCountIsEditCount` | fileFunctions.py:130-156 | the report has exactly as many rows as all pages' diffs have edits |
| `Report.NoRowsIffNoEdits` | fileFunctions.py:158-160 | the report is empty exactly when no page's diff has an edit |
| `Report.MissingLineReported` | fileFunctions.py:131-143 | a line only the mother's page has is reported as missing on that page, under the mother's title |
| `Report.ExtraLineReported` | fileFunctions.py:144-156 | a line only the candidate's page has is reported as a mismatch on that page, under the candidate's title |
| `Report.DifferentPageGivesRows` | fileFunctions.py:122-160 | if any visited page differs between the two documents, the report is not empty |
| `Report.IdenticalDocumentsNoRows` | fileFunctions.py:110-160 | a document compared with itself gives no rows |
| `Report.NoRowsWhenPagesAgree` | fileFunctions.py:128-160 | when every aligned page pair has the same lines on both sides, even a page one file lacks and the other has without text, a diff quiet on equal sides gives no rows |
| `Report.NoRowsIffPagesAgree` | fileFunctions.py:128-160 | with a diff that turns each page's mother lines into its candidate lines and is quiet on equal sides, the report is empty exactly when every aligned page pair has the same lines |
| `Report.MotherOnlyPageRows` | fileFunctions.py:123-143 | a page only the mother has gives one "missing" row per mother line, in order |
| `Report.CandidateOnlyPageRows` | fileFunctions.py:124-156 | a page only the candidate has gives one "mismatch" row per candidate line, in order |
| `Report.SinglePageAlignment` | fileFunctions.py:110-126 | two one-page documents are walked as the single page pair 1 |
| `Report.ChangedThirdLineScenario` | fileFunctions.py:19-156 | two one-page text files whose first line is an upper-case title and whose third and last line differs, compared with the reference diff, give one "missing" row for the old line, then one "mismatch" row for the new, both on page 1 under the title detected from the first line |
| `Report.ChangedThirdLineReportedByAnyDiff` | fileFunctions.py:122-156 | with any diff meeting the contract assumed of `ndiff`, the same two pages yield at least the "missing" row of the old line and the "mismatch" row of the new, when those lines appear nowhere else on the pages |
| `Report.BlankLineGivesEmptyRow` | fileFunctions.py:140-153 | a removed or added line that is blank or all whitespace (an empty PDF line, "\n", "  \n") gives a row whose filed and customer contents are both empty |
| `Render.Decimal` | fileFunctions.py:198 | a page number is displayed as at least one digit, all decimal digits |
| `Render.DecimalSpellsNumber` | fileFunctions.py:198 | `str(n)` spells `n` in decimal, with no leading zero unless `n` is 0, so its length is that of the number's decimal form |
| `Render.Headers` | fileFunctions.py:133-154 | the sheet has eight non-empty column headers |
| `Render.Table` | fileFunctions.py:162-167 | the sheet has the header row plus one row per report row, eight cells each |
| `Render.Merged` | fileFunctions.py:71-80 | merging keeps the sheet's shape |
| `Render.MaxLength` | fileFunctions.py:196-199 | the result bounds every non-empty cell's display length and is attained by one of them, or is 0 when the column has no non-empty cell |
| `Render.FormatSheet` | fileFunctions.py:180-202 | each data row gets the fill its category cell calls for; each column gets its longest non-empty value's length plus 2 |
| `Render.LabelsDiffer` | fileFunctions.py:183-194 | the two category labels differ, so the two fill branches never both apply |
| `Render.ReportRowFills` | fileFunctions.py:180-194 | a report row is filled red exactly when it is a "missing" row, green otherwise; no data row is left unfilled |
| `Render.SameValuesSameWidth` | fileFunctions.py:196-202 | a column's width depends only on which non-empty values it holds |
| `Render.MergeKeepsWidths` | fileFunctions.py:71-80 | the vertical merge of the first three columns changes no column's width |
| `Render.SheetColumnsHaveValues` | fileFunctions.py:196-199 | every column of a report sheet has a value, its header, so `max` always has something to compare, and each width is at least the header's length plus 2 |
| `Engine.Basename` | fileFunctions.py:119 | the base name is the part of the path after its last '/' and holds no '/' |
| `Engine.JoinPath` | fileFunctions.py:164 | the joined path ends with the name joined |
| `Engine.JoinPathPlacesName` | fileFunctions.py:164 | an absolute name is the whole path; a relative name follows the folder, after exactly one '/' (the folder's own, or one added when the folder does not end in '/'), so the path is one character longer than folder and name only in the second case; an empty folder gives the name |
| `Engine.TrimSlashes` | fileFunctions.py:220 | trimming removes only trailing slashes, and the result does not end in '/' |
| `Engine.Dirname` | fileFunctions.py:220 | the folder of a path is a prefix of it |
| `Engine.DirnameEmptyIff` | fileFunctions.py:220 | the folder of a path is empty exactly when the path has no '/' |
| `Engine.DirnameOfJoin` | fileFunctions.py:220-221 | the folder of a plain name joined to a folder is that folder without its trailing slashes |
| `Engine.BasenameOfJoin` | fileFunctions.py:164 | the base name of a folder joined with a plain file name is that file name |
| `Engine.GenerateExcelReport` | fileFunctions.py:103-207 | the outcome is the extraction error, "no differences" or the written sheet, as `Generate` defines; the fills and widths computed are those of the written sheet |
| `Engine.CollectRows` | fileFunctions.py:117-156 | `report_data` is the rows of the aligned pages, page by page |
| `Engine.AppendDiffRows` | fileFunctions.py:130-156 | the diff-line loop appends exactly the rows of the page's diff lines, in order |
| `Engine.WrittenReportName` | fileFunctions.py:164 | a report's file name is the candidate's base name followed by " Report.xlsx" |
| `Engine.WrittenIffEdits` | fileFunctions.py:158-167 | once both files are extracted, a report is written exactly when the diffs have an edit, and nothing is written exactly when they have none; the sheet has one row per edit under its header row |
| `Engine.MotherFailureFirst` | fileFunctions.py:106-107 | when the mother file cannot be extracted, that error is the outcome, whatever the candidate |
| `Engine.UnsupportedCandidateFails` | fileFunctions.py:107 | a candidate with an unsupported suffix fails with the unsupported-format error naming it |
| `Engine.IdenticalFilesNoReport` | fileFunctions.py:158-160 | a candidate extracting identically to the mother gives no report |
| `Engine.WrittenIffPagesDiffer` | fileFunctions.py:128-167 | once both files are extracted, and with a diff that turns each aligned page's mother lines into its candidate lines and is quiet on equal sides, a report is written exactly when some aligned page pair's lines differ, and nothing is written exactly when every pair agrees |
| `Engine.BatchOutcomes` | fileFunctions.py:225-228 | the batch has one outcome per listing entry |
| `Engine.FileNames` | fileFunctions.py:243-247 | the names moved are exactly the listing's files |
| `Engine.FileNamesJoin` | fileFunctions.py:243-247 | the names are picked out in listing order: those of a listing's first part come before those of its second |
| `Engine.CompareWithMotherFile` | fileFunctions.py:210-232 | the batch is refused exactly when the folder is not a folder; otherwise every entry is handled in listing order, the "processed" sub-folder is the folder joined with "processed", and the moved names are the listing's files |
| `Engine.CompareEach` | fileFunctions.py:225-228 | the loop over the listing yields, in listing order, each entry's own outcome: its comparison when it is a file, none otherwise |
| `Engine.CompareOne` | fileFunctions.py:226-228 | a file entry is compared with the mother file, anything else is skipped |
| `Engine.MoveToProcessedFolder` | fileFunctions.py:235-249 | the files of the listing are moved, in listing order, and nothing else is |
| `Engine.EveryFileCompared` | fileFunctions.py:225-228 | a file's outcome does not depend on the other entries: a failing comparison does not stop or change the others |
| `Engine.FileEntryOutcome` | fileFunctions.py:226-228 | an entry has an outcome exactly when it is a file, and that outcome is its comparison with the mother file |
| `Engine.UnsupportedMotherFailsEveryFile` | fileFunctions.py:225-228 | with an unsupported mother file, every file of the folder fails with the mother's unsupported-format error |
| `Engine.BatchReportNames` | fileFunctions.py:220-228 | every report of the batch is written to "Comparison_Reports" beside the mother file, under its file's name plus " Report.xlsx" |
| `Engine.ReportsBesideMother` | fileFunctions.py:220-221 | the report folder is called "Comparison_Reports" and lies in the same folder as the mother file |
| `Engine.ProcessedInsideFolder` | fileFunctions.py:231 | the "processed" folder is a sub-folder of the compared folder |

## Where the code and its design notes differ

The tool's design notes describe some behaviour differently from the code. The model follows
the code in each case.

- The design notes give `"Policy_20240615_v2.pdf"` → `"20240615"` as an example of reading the
  date. In the code the pattern is `\b(20\d{6})\b`, and `_` is a word character, so there is
  no word boundary around the digits. The result is `""`; see `DateToken.UnderscoreHidesDate`.
- The design notes say exactly one of the two content cells of a row is non-empty. In the
  code, a removed or added line that is blank, or all whitespace, is stripped to `""`. That
  gives a row with both content cells empty; see `Report.BlankLineGivesEmptyRow`.
- The design notes call the line diff minimal (LCS-based). The model assumes only that the
  diff turns one side into the other (`EditScript.IsEditScript`). Nothing here depends on
  minimality.
- The design notes say a page whose text cannot be extracted becomes a page with no lines,
  and the rest of the document is still compared. In the code, an exception from the PDF or
  DOCX reader (fileFunctions.py:28-35, 38) escapes `extract_text_from_file`, and
  `generate_excel_report` gives up on the whole file (fileFunctions.py:206-207). The model
  follows the code: a reader that raises is `ReadFailure` for the file. Only a page whose
  `extract_text()` is `None` or empty becomes a page with no lines (fileFunctions.py:30).

## Left out

- The desktop front end (`main.py`) and its dialogs are not part of this model.
- Reading files: `open().readlines()`, pdfplumber and python-docx are replaced by the `FileViews` each would return. `None` stands for a reader that raises, which becomes `ReadFailure`; which exception the reader raises is not modelled.
- `Report.ChangedThirdLineScenario` is proved with the reference diff, not with `ndiff`; for any diff meeting the assumed contract, `Report.ChangedThirdLineReportedByAnyDiff` proves only that the two rows are among the report's rows.
- `difflib.ndiff` is a parameter: its matching algorithm, its minimality and the placement of its "? " hint lines are not modelled. Hints are a `DiffOp`, and no row is made from them.
- `Engine.GenerateExcelReport`: exceptions raised by pandas or openpyxl while writing the workbook are not modelled; `Written` assumes the write succeeds.
- Writing the `.xlsx` file itself is not modelled: the model computes the sheet's cell values, fills and widths, not the bytes.
- `format_excel_sheet`'s borders and vertical alignment are not modelled, since they change no value, fill or width.
- `Render.Merged` models a merge only by its effect on cell values: every cell below the top one in a merged block becomes empty.
- `os.makedirs` for the two output folders and `shutil.move` are not modelled as file-system effects; `Engine.MoveToProcessedFolder` returns the names it would move.
- The folder listing and `os.path.isfile`/`os.path.isdir` become parameters (`entries`, `folderIsDir`).
- `Engine.MoveToProcessedFolder` takes the same listing as the comparison loop. The source lists the folder a second time, and the model assumes nothing changed in between.
- Console output (`print`) is left out. The messages carry no information the outcomes do not.
- `Ascii`: character classes are ASCII only. Python's Unicode whitespace, case and word characters are not modelled.
- `Engine.Basename`, `Engine.Dirname`, `Engine.JoinPath`: POSIX paths only. Windows drive letters and back-slashes are not modelled.
