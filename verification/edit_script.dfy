/**
 * The line diff of `generate_excel_report` (fileFunctions.py), `difflib.ndiff(mother, candidate)`,
 * taken abstractly: an edit script whose lines are kept ("  "), removed from the mother ("- "),
 * added in the candidate ("+ ") or intraline hints ("? "). The only property relied on is that
 * the script projects back onto both inputs; minimality is not assumed.
 */
module EditScript {

  /** One line of `ndiff` output, by its two-character code. */
  datatype DiffOp = Kept(text: string) | Removed(text: string) | Added(text: string) | Hint(text: string)

  /** The code `ndiff` writes in front of the line. */
  function Code(op: DiffOp): string
  {
    match op
    case Kept(_) => "  "
    case Removed(_) => "- "
    case Added(_) => "+ "
    case Hint(_) => "? "
  }

  /** The text line `ndiff` yields for `op`: its code, then the line it is about. */
  function Line(op: DiffOp): (line: string)
    ensures |line| == |op.text| + 2 && line[2..] == op.text
  {
    Code(op) + op.text
  }

  /** The mother's lines as the script tells them: kept and removed lines, in order. */
  function MotherSide(script: seq<DiffOp>): seq<string>
  {
    if script == [] then []
    else
      var op := script[|script| - 1];
      MotherSide(script[..|script| - 1]) + (if op.Kept? || op.Removed? then [op.text] else [])
  }

  /** The candidate's lines as the script tells them: kept and added lines, in order. */
  function CandidateSide(script: seq<DiffOp>): seq<string>
  {
    if script == [] then []
    else
      var op := script[|script| - 1];
      CandidateSide(script[..|script| - 1]) + (if op.Kept? || op.Added? then [op.text] else [])
  }

  /** The contract assumed of `ndiff(a, b)`: the script turns `a` into `b`. */
  predicate IsEditScript(script: seq<DiffOp>, a: seq<string>, b: seq<string>) {
    MotherSide(script) == a && CandidateSide(script) == b
  }

  /** A removal or an addition: the lines that become report rows. */
  predicate IsEdit(op: DiffOp) {
    op.Removed? || op.Added?
  }

  /** The removals and additions of the script, in script order. */
  function Edits(script: seq<DiffOp>): (edits: seq<DiffOp>)
    ensures |edits| <= |script|
    ensures forall i :: 0 <= i < |edits| ==> IsEdit(edits[i])
  {
    if script == [] then []
    else
      var op := script[|script| - 1];
      Edits(script[..|script| - 1]) + (if IsEdit(op) then [op] else [])
  }

  /** A script without removals or additions tells the same lines on both sides. */
  lemma {:induction false} NoEditsSameSides(script: seq<DiffOp>)
    requires Edits(script) == []
    ensures MotherSide(script) == CandidateSide(script)
  {
    if script != [] {
      NoEditsSameSides(script[..|script| - 1]);
    }
  }

  /** Two different line sequences cannot be related by a script without edits. */
  lemma DifferentLinesNeedEdits(script: seq<DiffOp>, a: seq<string>, b: seq<string>)
    requires IsEditScript(script, a, b) && a != b
    ensures Edits(script) != []
  {
    if Edits(script) == [] {
      NoEditsSameSides(script);
    }
  }

  /** A line the mother has and the candidate lacks is removed somewhere in the script. */
  lemma {:induction false} MissingLineIsRemoved(script: seq<DiffOp>, line: string)
    requires line in MotherSide(script) && line !in CandidateSide(script)
    ensures Removed(line) in Edits(script)
  {
    var init := script[..|script| - 1];
    var op := script[|script| - 1];
    if line in MotherSide(init) {
      assert CandidateSide(init) <= CandidateSide(script);
      MissingLineIsRemoved(init, line);
    } else {
      assert op == Removed(line);
    }
  }

  /** A line the candidate has and the mother lacks is added somewhere in the script. */
  lemma {:induction false} ExtraLineIsAdded(script: seq<DiffOp>, line: string)
    requires line in CandidateSide(script) && line !in MotherSide(script)
    ensures Added(line) in Edits(script)
  {
    var init := script[..|script| - 1];
    var op := script[|script| - 1];
    if line in CandidateSide(init) {
      assert MotherSide(init) <= MotherSide(script);
      ExtraLineIsAdded(init, line);
    } else {
      assert op == Added(line);
    }
  }

  /** The two sides and the edits of a script split at any point are those of the parts, joined. */
  lemma {:induction false} SplitScript(s: seq<DiffOp>, t: seq<DiffOp>)
    ensures MotherSide(s + t) == MotherSide(s) + MotherSide(t)
    ensures CandidateSide(s + t) == CandidateSide(s) + CandidateSide(t)
    ensures Edits(s + t) == Edits(s) + Edits(t)
  {
    if t != [] {
      SplitScript(s, t[..|t| - 1]);
      assert (s + t)[..|s + t| - 1] == s + t[..|t| - 1];
    } else {
      assert s + t == s;
    }
  }

  /** Every line of `a`, removed. */
  function Removals(a: seq<string>): (script: seq<DiffOp>)
    ensures |script| == |a|
  {
    seq(|a|, i requires 0 <= i < |a| => Removed(a[i]))
  }

  /** Every line of `b`, added. */
  function Additions(b: seq<string>): (script: seq<DiffOp>)
    ensures |script| == |b|
  {
    seq(|b|, i requires 0 <= i < |b| => Added(b[i]))
  }

  /** Removing every line of `a` turns `a` into nothing, and every step is an edit. */
  lemma {:induction false} RemovalsTurnIntoNothing(a: seq<string>)
    ensures IsEditScript(Removals(a), a, [])
    ensures Edits(Removals(a)) == Removals(a)
  {
    if a != [] {
      var init := a[..|a| - 1];
      RemovalsTurnIntoNothing(init);
      assert Removals(a)[..|a| - 1] == Removals(init);
      assert a == init + [a[|a| - 1]];
    }
  }

  /** Adding every line of `b` turns nothing into `b`, and every step is an edit. */
  lemma {:induction false} AdditionsTurnNothingInto(b: seq<string>)
    ensures IsEditScript(Additions(b), [], b)
    ensures Edits(Additions(b)) == Additions(b)
  {
    if b != [] {
      var init := b[..|b| - 1];
      AdditionsTurnNothingInto(init);
      assert Additions(b)[..|b| - 1] == Additions(init);
      assert b == init + [b[|b| - 1]];
    }
  }

  /** A script that tells no candidate lines edits only by removing the mother's lines, in order. */
  lemma {:induction false} OnlyRemovals(script: seq<DiffOp>)
    requires CandidateSide(script) == []
    ensures Edits(script) == Removals(MotherSide(script))
  {
    if script != [] {
      var init := script[..|script| - 1];
      OnlyRemovals(init);
      var a := MotherSide(script);
      if script[|script| - 1].Removed? {
        assert a[..|a| - 1] == MotherSide(init);
        assert Removals(a) == Removals(MotherSide(init)) + [script[|script| - 1]];
      }
    }
  }

  /** A script that tells no mother lines edits only by adding the candidate's lines, in order. */
  lemma {:induction false} OnlyAdditions(script: seq<DiffOp>)
    requires MotherSide(script) == []
    ensures Edits(script) == Additions(CandidateSide(script))
  {
    if script != [] {
      var init := script[..|script| - 1];
      OnlyAdditions(init);
      var b := CandidateSide(script);
      if script[|script| - 1].Added? {
        assert b[..|b| - 1] == CandidateSide(init);
        assert Additions(b) == Additions(CandidateSide(init)) + [script[|script| - 1]];
      }
    }
  }

  /**
   * A simple line diff meeting the contract assumed of `ndiff`: keep the lines both sides
   * start with and the lines both sides end with; remove the rest of the mother's lines, then
   * add the rest of the candidate's. It shows that the contract can be met.
   */
  function ReferenceDiff(a: seq<string>, b: seq<string>): (script: seq<DiffOp>)
    decreases |a| + |b|
  {
    if a != [] && b != [] && a[0] == b[0] then [Kept(a[0])] + ReferenceDiff(a[1..], b[1..])
    else if a != [] && b != [] && a[|a| - 1] == b[|b| - 1] then
      ReferenceDiff(a[..|a| - 1], b[..|b| - 1]) + [Kept(a[|a| - 1])]
    else Removals(a) + Additions(b)
  }

  /** The reference diff turns `a` into `b`. */
  lemma {:induction false} ReferenceDiffIsEditScript(a: seq<string>, b: seq<string>)
    ensures IsEditScript(ReferenceDiff(a, b), a, b)
    decreases |a| + |b|
  {
    if a != [] && b != [] && a[0] == b[0] {
      ReferenceDiffIsEditScript(a[1..], b[1..]);
      KeptFirst(a, b, ReferenceDiff(a[1..], b[1..]));
    } else if a != [] && b != [] && a[|a| - 1] == b[|b| - 1] {
      ReferenceDiffIsEditScript(a[..|a| - 1], b[..|b| - 1]);
      KeptLast(a, b, ReferenceDiff(a[..|a| - 1], b[..|b| - 1]));
    } else {
      RemovalsTurnIntoNothing(a);
      AdditionsTurnNothingInto(b);
      SplitScript(Removals(a), Additions(b));
    }
  }

  /** Keeping a shared first line in front of a script for the rest gives a script for the whole. */
  lemma KeptFirst(a: seq<string>, b: seq<string>, rest: seq<DiffOp>)
    requires a != [] && b != [] && a[0] == b[0]
    requires IsEditScript(rest, a[1..], b[1..])
    ensures IsEditScript([Kept(a[0])] + rest, a, b)
  {
    SplitScript([Kept(a[0])], rest);
    assert [Kept(a[0])][..0] == [];
  }

  /** Keeping a shared last line after a script for the rest gives a script for the whole. */
  lemma KeptLast(a: seq<string>, b: seq<string>, rest: seq<DiffOp>)
    requires a != [] && b != [] && a[|a| - 1] == b[|b| - 1]
    requires IsEditScript(rest, a[..|a| - 1], b[..|b| - 1])
    ensures IsEditScript(rest + [Kept(a[|a| - 1])], a, b)
  {
    var script := rest + [Kept(a[|a| - 1])];
    assert script[..|script| - 1] == rest;
  }

  /** On equal inputs the reference diff keeps every line and edits none. */
  lemma {:induction false} ReferenceDiffQuietOnEqual(a: seq<string>)
    ensures Edits(ReferenceDiff(a, a)) == []
  {
    if a != [] {
      ReferenceDiffQuietOnEqual(a[1..]);
      SplitScript([Kept(a[0])], ReferenceDiff(a[1..], a[1..]));
      assert [Kept(a[0])][..0] == [];
    }
  }
}
