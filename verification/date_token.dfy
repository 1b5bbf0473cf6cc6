/**
 * `extract_date_from_filename` (fileFunctions.py): the leftmost match of the regular expression
 * `\b(20\d{6})\b` in a file name, or "" when there is none. Character classes are ASCII.
 */
module DateToken {
  import opened Wrappers
  import opened Ascii

  /** `\b` at position `i`: a word character on exactly one side, the string ends counting as non-word. */
  predicate WordBoundary(s: string, i: nat)
    requires i <= |s|
  {
    (i > 0 && IsWordChar(s[i - 1])) != (i < |s| && IsWordChar(s[i]))
  }

  /** The pattern `\b20\d{6}\b` matches the eight characters starting at `i`. */
  predicate DateAt(s: string, i: nat) {
    && i + 8 <= |s|
    && WordBoundary(s, i)
    && s[i] == '2' && s[i + 1] == '0'
    && (forall k :: i + 2 <= k < i + 8 ==> IsDigit(s[k]))
    && WordBoundary(s, i + 8)
  }

  /** `re.search`: try the start positions from `from` on, in order, and stop at the first match. */
  function FindDate(s: string, from: nat): (found: Option<nat>)
    requires from <= |s|
    ensures found.Some? ==> from <= found.value && DateAt(s, found.value)
    ensures found.Some? ==> forall j :: from <= j < found.value ==> !DateAt(s, j)
    ensures found.None? ==> forall j :: from <= j ==> !DateAt(s, j)
    decreases |s| - from
  {
    if from == |s| then None
    else if DateAt(s, from) then Some(from)
    else FindDate(s, from + 1)
  }

  /** `match.group(1) if match else ""`: an 8-digit token that starts with "20", or "". */
  function ExtractDate(filename: string): (date: string)
    ensures date == [] || (|date| == 8 && date[..2] == "20" && forall k :: 0 <= k < 8 ==> IsDigit(date[k]))
  {
    match FindDate(filename, 0)
    case Some(k) => filename[k..k + 8]
    case None => ""
  }

  /**
   * The extracted date is the token at the leftmost matching position `k`, and "" when no
   * position matches (`k == |filename|`).
   */
  lemma ExtractDateIsLeftmost(filename: string, k: nat)
    requires k <= |filename|
    requires forall j :: 0 <= j < k ==> !DateAt(filename, j)
    requires k < |filename| ==> DateAt(filename, k)
    ensures ExtractDate(filename) == if k < |filename| then filename[k..k + 8] else ""
  {
  }

  /** No date is reported exactly when the pattern matches nowhere. */
  lemma NoDateIff(filename: string)
    ensures ExtractDate(filename) == "" <==> forall j :: 0 <= j <= |filename| ==> !DateAt(filename, j)
  {
  }

  /** An underscore is a word character, so a token right after one is not matched. */
  lemma UnderscoreHidesDate()
    ensures ExtractDate("Policy_20240615_v2.pdf") == ""
  {
    var s := "Policy_20240615_v2.pdf";
    forall j | 0 <= j <= |s| ensures !DateAt(s, j) {
      if j == 7 {
        assert IsWordChar(s[6]);
      }
    }
    NoDateIff(s);
  }

  /** A token set off by spaces is found. */
  lemma SpacedDateFound()
    ensures ExtractDate("Policy 20240615 v2.pdf") == "20240615"
  {
    var s := "Policy 20240615 v2.pdf";
    assert DateAt(s, 7);
    forall j | 0 <= j < 7 ensures !DateAt(s, j) {
    }
    ExtractDateIsLeftmost(s, 7);
  }

  /** A name without such a token gives "". */
  lemma PlainNameHasNoDate()
    ensures ExtractDate("Policy_final.pdf") == ""
  {
    var s := "Policy_final.pdf";
    NoDateIff(s);
  }
}
