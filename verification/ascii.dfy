/**
 * The character classes and string helpers of Python's `str` that the comparison engine uses,
 * restricted to ASCII: `str.isspace`, `str.isupper`, `str.strip`, `str.startswith`,
 * `str.endswith`, and the regular-expression classes `\d` and `\w`.
 */
module Ascii {

  /** Python's whitespace among ASCII characters: `\t \n \v \f \r`, the separators `\x1c`-`\x1f`, space. */
  predicate IsSpace(c: char) {
    ('\t' <= c <= '\r') || ('\U{1c}' <= c <= '\U{1f}') || c == ' '
  }

  predicate IsUpperChar(c: char) { 'A' <= c <= 'Z' }

  predicate IsLowerChar(c: char) { 'a' <= c <= 'z' }

  /** The regular-expression class `\d`. */
  predicate IsDigit(c: char) { '0' <= c <= '9' }

  /** The regular-expression class `\w`: a letter, a digit or the underscore. */
  predicate IsWordChar(c: char) {
    IsUpperChar(c) || IsLowerChar(c) || IsDigit(c) || c == '_'
  }

  /** Some character of `s` is an upper-case letter. */
  predicate HasUpperChar(s: string) {
    s != [] && (IsUpperChar(s[0]) || HasUpperChar(s[1..]))
  }

  /** Some character of `s` is a lower-case letter. */
  predicate HasLowerChar(s: string) {
    s != [] && (IsLowerChar(s[0]) || HasLowerChar(s[1..]))
  }

  /** `str.isupper`: at least one cased character and no lower-case one. */
  predicate IsUpper(s: string) {
    HasUpperChar(s) && !HasLowerChar(s)
  }

  predicate AllSpace(s: string) {
    forall i :: 0 <= i < |s| ==> IsSpace(s[i])
  }

  /** A string with no whitespace at either end, as `str.strip` leaves it. */
  predicate IsStripped(s: string) {
    s == [] || (!IsSpace(s[0]) && !IsSpace(s[|s| - 1]))
  }

  predicate StartsWith(s: string, prefix: string) {
    |prefix| <= |s| && s[..|prefix|] == prefix
  }

  predicate EndsWith(s: string, suffix: string) {
    |suffix| <= |s| && s[|s| - |suffix|..] == suffix
  }

  /** `str.lstrip()`: the suffix of `s` left after its leading whitespace. */
  function TrimStart(s: string): (r: string)
    ensures |r| <= |s|
    ensures r == [] || !IsSpace(r[0])
  {
    if s != [] && IsSpace(s[0]) then TrimStart(s[1..]) else s
  }

  /** `str.rstrip()`: the prefix of `s` left before its trailing whitespace. */
  function TrimEnd(s: string): (r: string)
    ensures |r| <= |s|
    ensures r == [] || (r[0] == s[0] && !IsSpace(r[|r| - 1]))
  {
    if s != [] && IsSpace(s[|s| - 1]) then TrimEnd(s[..|s| - 1]) else s
  }

  /** `str.strip()`. */
  function Strip(s: string): (r: string)
    ensures IsStripped(r)
    ensures |r| <= |s|
  {
    TrimEnd(TrimStart(s))
  }

  /**
   * What `strip` removes is whitespace and only whitespace: `s` is some whitespace, then the
   * stripped text, then some more whitespace.
   */
  lemma StripSplits(s: string) returns (lead: string, trail: string)
    ensures s == lead + Strip(s) + trail
    ensures AllSpace(lead) && AllSpace(trail)
  {
    lead := TrimStartSplits(s);
    trail := TrimEndSplits(TrimStart(s));
    Regroup(s, lead, TrimStart(s), Strip(s), trail);
  }

  /** `lstrip` removes a run of whitespace and nothing else. */
  lemma {:induction false} TrimStartSplits(s: string) returns (lead: string)
    ensures s == lead + TrimStart(s) && AllSpace(lead)
  {
    if s != [] && IsSpace(s[0]) {
      var rest := TrimStartSplits(s[1..]);
      lead := [s[0]] + rest;
      assert s == lead + TrimStart(s) by {
        assert TrimStart(s) == TrimStart(s[1..]);
        assert s[1..] == rest + TrimStart(s[1..]);
        assert lead + TrimStart(s[1..]) == [s[0]] + (rest + TrimStart(s[1..]));
        assert s == [s[0]] + s[1..];
      }
      assert AllSpace(lead) by {
        forall i | 0 <= i < |lead| ensures IsSpace(lead[i]) {
          if i > 0 {
            assert lead[i] == rest[i - 1];
          }
        }
      }
    } else {
      lead := [];
    }
  }

  /** `rstrip` removes a run of whitespace and nothing else. */
  lemma {:induction false} TrimEndSplits(s: string) returns (trail: string)
    ensures s == TrimEnd(s) + trail && AllSpace(trail)
  {
    if s != [] && IsSpace(s[|s| - 1]) {
      var rest := TrimEndSplits(s[..|s| - 1]);
      trail := rest + [s[|s| - 1]];
      assert s == TrimEnd(s) + trail by {
        assert TrimEnd(s) == TrimEnd(s[..|s| - 1]);
        assert s[..|s| - 1] == TrimEnd(s[..|s| - 1]) + rest;
        assert TrimEnd(s[..|s| - 1]) + trail == (TrimEnd(s[..|s| - 1]) + rest) + [s[|s| - 1]];
        assert s == s[..|s| - 1] + [s[|s| - 1]];
      }
      assert AllSpace(trail) by {
        forall i | 0 <= i < |trail| ensures IsSpace(trail[i]) {
          if i < |rest| {
            assert trail[i] == rest[i];
          }
        }
      }
    } else {
      trail := [];
    }
  }

  lemma Regroup(s: string, a: string, t: string, b: string, c: string)
    requires s == a + t && t == b + c
    ensures s == a + b + c
  {
  }

  /** Stripping a string that has no whitespace at its ends leaves it unchanged. */
  lemma StripStripped(s: string)
    requires IsStripped(s)
    ensures Strip(s) == s
  {
    if s != [] {
      assert TrimStart(s) == s;
    }
  }

  /** `strip` is idempotent. */
  lemma StripIdempotent(s: string)
    ensures Strip(Strip(s)) == Strip(s)
  {
    StripStripped(Strip(s));
  }

  /** `strip` yields the empty string exactly for the all-whitespace strings. */
  lemma StripEmptyIff(s: string)
    ensures Strip(s) == [] <==> AllSpace(s)
  {
    var lead, trail := StripSplits(s);
    var r := Strip(s);
    if r == [] {
      assert s == lead + trail;
      forall i | 0 <= i < |s| ensures IsSpace(s[i]) {
        if i < |lead| {
          assert s[i] == lead[i];
        } else {
          assert s[i] == trail[i - |lead|];
        }
      }
    } else {
      assert s[|lead|] == r[0];
    }
  }

  /** An upper-case string has a letter, so it is never all whitespace. */
  lemma {:induction false} UpperNotBlank(s: string)
    requires HasUpperChar(s)
    ensures !AllSpace(s)
  {
    if !IsUpperChar(s[0]) {
      UpperNotBlank(s[1..]);
      var i :| 0 <= i < |s[1..]| && !IsSpace(s[1..][i]);
      assert !IsSpace(s[i + 1]);
    }
  }
}
