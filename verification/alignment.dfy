/**
 * Page alignment in `generate_excel_report` (fileFunctions.py): each document's pages go into a
 * dictionary keyed by page number, and the comparison visits the sorted union of both key sets,
 * standing in `("Unknown", [])` for a page one side does not have.
 */
module Alignment {
  import opened Extraction

  /** `{page_num: (title, text) for page_num, title, text in page_data}`. */
  type PageMap = map<nat, (string, seq<string>)>

  /** The dictionary comprehension: a later unit with the same page number replaces an earlier one. */
  function PageIndex(units: seq<PageUnit>): (pages: PageMap)
    ensures pages.Keys == set i | 0 <= i < |units| :: units[i].number
  {
    if units == [] then map[]
    else
      var last := units[|units| - 1];
      var init := PageIndex(units[..|units| - 1]);
      assert forall i :: 0 <= i < |units| - 1 ==> units[..|units| - 1][i] == units[i];
      init[last.number := (last.title, last.lines)]
  }

  /** No two units share a page number. */
  predicate DistinctNumbers(units: seq<PageUnit>) {
    forall i, j :: 0 <= i < j < |units| ==> units[i].number != units[j].number
  }

  /** When page numbers are distinct, every unit is found under its own number. */
  lemma {:induction false} PageIndexFindsEveryUnit(units: seq<PageUnit>)
    requires DistinctNumbers(units)
    ensures forall i :: 0 <= i < |units| ==>
      units[i].number in PageIndex(units) && PageIndex(units)[units[i].number] == (units[i].title, units[i].lines)
  {
    if units != [] {
      var init := units[..|units| - 1];
      PageIndexFindsEveryUnit(init);
      assert forall i :: 0 <= i < |units| - 1 ==> init[i] == units[i];
    }
  }

  /** `mother_pages.get(page_num, ("Unknown", []))`. */
  function PageOrUnknown(pages: PageMap, n: nat): (string, seq<string>)
  {
    if n in pages then pages[n] else (Unknown, [])
  }

  /** Every non-empty finite set of page numbers has a least element. */
  lemma {:induction false} LeastElement(s: set<nat>) returns (m: nat)
    requires s != {}
    ensures m in s && forall x :: x in s ==> m <= x
    decreases |s|
  {
    var x :| x in s;
    if s == {x} {
      m := x;
    } else {
      var least := LeastElement(s - {x});
      m := if x < least then x else least;
      forall y | y in s ensures m <= y {
        if y != x {
          assert y in s - {x};
        }
      }
    }
  }

  lemma MinimumExists(s: set<nat>)
    requires s != {}
    ensures exists m :: m in s && forall x :: x in s ==> m <= x
  {
    var m := LeastElement(s);
  }

  /** The least page number of a non-empty set. */
  function SetMin(s: set<nat>): (m: nat)
    requires s != {}
    ensures m in s && forall x :: x in s ==> m <= x
  {
    MinimumExists(s);
    var m :| m in s && forall x :: x in s ==> m <= x;
    m
  }

  /** `sorted(s)`: the page numbers of `s` in strictly ascending order, each once. */
  function SortedPageNumbers(s: set<nat>): (nums: seq<nat>)
    ensures forall i, j :: 0 <= i < j < |nums| ==> nums[i] < nums[j]
    ensures forall n :: n in nums <==> n in s
    decreases |s|
  {
    if s == {} then []
    else
      var m := SetMin(s);
      [m] + SortedPageNumbers(s - {m})
  }

  /** One step of the page loop: the page number and both sides' `(title, lines)`. */
  datatype PagePair = PagePair(
    number: nat,
    motherTitle: string, motherLines: seq<string>,
    candidateTitle: string, candidateLines: seq<string>)

  /** Page pairs in strictly ascending page order. */
  predicate Ascending(pages: seq<PagePair>) {
    forall i, j :: 0 <= i < j < |pages| ==> pages[i].number < pages[j].number
  }

  /** The page numbers of `pages`, in order. */
  function Numbers(pages: seq<PagePair>): seq<nat>
  {
    seq(|pages|, i requires 0 <= i < |pages| => pages[i].number)
  }

  /**
   * The pages the comparison loop visits: every page number of either document exactly once,
   * in ascending order, each side's title and lines taken from its own document or
   * `("Unknown", [])` when that document has no such page.
   */
  function AlignPages(mother: PageMap, candidate: PageMap): (pages: seq<PagePair>)
    ensures Ascending(pages)
    ensures forall n :: n in Numbers(pages) <==> n in mother || n in candidate
    ensures forall i :: 0 <= i < |pages| ==>
      && (pages[i].motherTitle, pages[i].motherLines) == PageOrUnknown(mother, pages[i].number)
      && (pages[i].candidateTitle, pages[i].candidateLines) == PageOrUnknown(candidate, pages[i].number)
  {
    var nums := SortedPageNumbers(mother.Keys + candidate.Keys);
    var pages := seq(|nums|, i requires 0 <= i < |nums| => PairAt(mother, candidate, nums[i]));
    assert Numbers(pages) == nums;
    pages
  }

  /** The aligned pages are the pairs of the sorted page numbers, one by one. */
  lemma AlignedPages(mother: PageMap, candidate: PageMap)
    ensures var nums := SortedPageNumbers(mother.Keys + candidate.Keys);
      && |AlignPages(mother, candidate)| == |nums|
      && forall i :: 0 <= i < |nums| ==> AlignPages(mother, candidate)[i] == PairAt(mother, candidate, nums[i])
  {
  }

  /** The loop body's two `get` calls for page `n`. */
  function PairAt(mother: PageMap, candidate: PageMap, n: nat): (page: PagePair)
    ensures page.number == n
  {
    var (mt, ml) := PageOrUnknown(mother, n);
    var (ct, cl) := PageOrUnknown(candidate, n);
    PagePair(n, mt, ml, ct, cl)
  }
}
