/**
 * The change detector `compare_files` of main.py.
 *
 * Both files are read with `readline` in lock step: each step takes one line
 * from each file. When either line is a comment, the pair is dropped; an
 * aligned non-comment line on the other side is therefore never looked at.
 * Otherwise unequal lines mean "changed" and two empty reads (both files at
 * end of file) mean "identical".
 */
module Compare {
  import opened Results
  import opened Lines

  /** `line.startswith('#')` */
  predicate IsComment(line: string) {
    line != [] && line[0] == '#'
  }

  /** What the k-th `readline` call returns: the k-th line, or "" once the file is exhausted. */
  function ReadAt(f: seq<Line>, k: nat): string {
    if k < |f| then f[k] else ""
  }

  /** The file after one `readline`; at end of file the cursor stays put. */
  function Rest(f: seq<Line>): seq<Line> {
    if f == [] then [] else f[1..]
  }

  /** The loop of `compare_files`, one step per call. */
  function Same(current: seq<Line>, previous: seq<Line>): bool
    decreases |current| + |previous|
  {
    var b1, b2 := ReadAt(current, 0), ReadAt(previous, 0);
    if IsComment(b1) || IsComment(b2) then Same(Rest(current), Rest(previous))
    else if b1 != b2 then false
    else if b1 == "" then true
    else Same(Rest(current), Rest(previous))
  }

  /** `compare_files(f1, f2)`, with `None` for a previous file that does not exist. */
  function Identical(current: seq<Line>, previous: Option<seq<Line>>): bool {
    previous.Some? && Same(current, previous.value)
  }

  /** The step at position k does not report a change. */
  predicate AgreeAt(a: seq<Line>, b: seq<Line>, k: nat) {
    IsComment(ReadAt(a, k)) || IsComment(ReadAt(b, k)) || ReadAt(a, k) == ReadAt(b, k)
  }

  function Longer(a: seq<Line>, b: seq<Line>): nat {
    if |a| < |b| then |b| else |a|
  }

  /** Reference definition: every aligned position up to the longer file agrees. */
  predicate Aligned(a: seq<Line>, b: seq<Line>) {
    forall k: nat :: k < Longer(a, b) ==> AgreeAt(a, b, k)
  }

  /** `Aligned` one read at a time: the first pair agrees and so do the rest. */
  lemma AlignedStep(a: seq<Line>, b: seq<Line>)
    requires a != [] || b != []
    ensures Aligned(a, b) <==> AgreeAt(a, b, 0) && Aligned(Rest(a), Rest(b))
  {
    assert Longer(Rest(a), Rest(b)) == Longer(a, b) - 1;
    forall k: nat
      ensures AgreeAt(Rest(a), Rest(b), k) == AgreeAt(a, b, k + 1)
    {
      assert ReadAt(Rest(a), k) == ReadAt(a, k + 1);
      assert ReadAt(Rest(b), k) == ReadAt(b, k + 1);
    }
    if AgreeAt(a, b, 0) && Aligned(Rest(a), Rest(b)) {
      forall k: nat | k < Longer(a, b)
        ensures AgreeAt(a, b, k)
      {
        if k > 0 {
          assert AgreeAt(Rest(a), Rest(b), k - 1);
        }
      }
    }
  }

  /** The comparator reports "identical" exactly when every aligned pair agrees. */
  lemma {:induction false} SameIsAligned(a: seq<Line>, b: seq<Line>)
    ensures Same(a, b) <==> Aligned(a, b)
    decreases |a| + |b|
  {
    if a != [] || b != [] {
      AlignedStep(a, b);
      var b1, b2 := ReadAt(a, 0), ReadAt(b, 0);
      if IsComment(b1) || IsComment(b2) {
        SameIsAligned(Rest(a), Rest(b));
      } else if b1 == b2 {
        SameIsAligned(Rest(a), Rest(b));
      }
    }
  }

  /** A file compared with an identical copy of itself is reported identical. */
  lemma SameReflexive(f: seq<Line>)
    ensures Same(f, f)
  {
    SameIsAligned(f, f);
  }

  lemma SameSymmetric(a: seq<Line>, b: seq<Line>)
    ensures Same(a, b) == Same(b, a)
  {
    SameIsAligned(a, b);
    SameIsAligned(b, a);
    assert forall k: nat :: AgreeAt(a, b, k) == AgreeAt(b, a, k);
  }

  /**
   * Any aligned pair of non-comment reads that differ makes the result "changed";
   * that includes one file at end of file ("") facing a non-comment line.
   */
  lemma MismatchIsChange(a: seq<Line>, b: seq<Line>, k: nat)
    requires !IsComment(ReadAt(a, k)) && !IsComment(ReadAt(b, k))
    requires ReadAt(a, k) != ReadAt(b, k)
    ensures !Same(a, b)
  {
    SameIsAligned(a, b);
    assert k < Longer(a, b) && !AgreeAt(a, b, k);
  }

  /** A comment line hides whatever line is aligned with it in the other file. */
  lemma CommentMasksAlignedLine(a: seq<Line>, b: seq<Line>, k: nat, x: Line)
    requires k < |b| && IsComment(ReadAt(a, k))
    ensures Same(a, b[k := x]) == Same(a, b)
  {
    var b' := b[k := x];
    SameIsAligned(a, b);
    SameIsAligned(a, b');
    assert Longer(a, b') == Longer(a, b);
    forall i: nat
      ensures AgreeAt(a, b', i) == AgreeAt(a, b, i)
    {
      if i != k {
        assert ReadAt(b', i) == ReadAt(b, i);
      }
    }
  }

  /** The non-comment lines of a file, in order. */
  function Uncommented(f: seq<Line>): seq<Line> {
    if f == [] then []
    else if IsComment(f[0]) then Uncommented(f[1..])
    else [f[0]] + Uncommented(f[1..])
  }

  /** Both files have their comment lines at the same positions. */
  predicate CommentsAligned(a: seq<Line>, b: seq<Line>) {
    forall k: nat :: k < Longer(a, b) ==> (IsComment(ReadAt(a, k)) <==> IsComment(ReadAt(b, k)))
  }

  /**
   * When comment lines sit at the same positions in both files (as in two
   * exports with the same header), the positional comparator is exactly
   * equality of the non-comment content.
   */
  lemma {:induction false} AlignedCommentsCompareContent(a: seq<Line>, b: seq<Line>)
    requires CommentsAligned(a, b)
    ensures Same(a, b) <==> Uncommented(a) == Uncommented(b)
    decreases |a| + |b|
  {
    if a != [] || b != [] {
      assert Longer(Rest(a), Rest(b)) == Longer(a, b) - 1;
      forall k: nat | k < Longer(Rest(a), Rest(b))
        ensures IsComment(ReadAt(Rest(a), k)) <==> IsComment(ReadAt(Rest(b), k))
      {
        assert ReadAt(Rest(a), k) == ReadAt(a, k + 1);
        assert ReadAt(Rest(b), k) == ReadAt(b, k + 1);
      }
      assert IsComment(ReadAt(a, 0)) <==> IsComment(ReadAt(b, 0));
      AlignedCommentsCompareContent(Rest(a), Rest(b));
      var b1, b2 := ReadAt(a, 0), ReadAt(b, 0);
      if IsComment(b1) {
        assert Uncommented(a) == Uncommented(Rest(a)) && Uncommented(b) == Uncommented(Rest(b));
      } else if b1 == b2 {
        assert Uncommented(a) == [b1] + Uncommented(Rest(a));
        assert Uncommented(b) == [b1] + Uncommented(Rest(b));
        assert Uncommented(a)[1..] == Uncommented(Rest(a));
        assert Uncommented(b)[1..] == Uncommented(Rest(b));
      } else {
        if a != [] && b != [] {
          assert Uncommented(a)[0] == b1 && Uncommented(b)[0] == b2;
        } else if a == [] {
          assert Uncommented(a) == [] && Uncommented(b) != [];
        } else {
          assert Uncommented(b) == [] && Uncommented(a) != [];
        }
      }
    }
  }

  /**
   * Outside that case the comparator is not content equality, in either
   * direction: one extra header comment reports an unchanged configuration as
   * changed, and a comment facing an edited line reports a changed one as identical.
   */
  lemma PositionalComparisonIsNotContentEquality()
    ensures var a: seq<Line>, b: seq<Line> := ["#c\n", "x\n"], ["x\n"];
      Uncommented(a) == Uncommented(b) && !Same(a, b)
    ensures var a: seq<Line>, b: seq<Line> := ["#c\n", "x\n"], ["y\n", "#d\n"];
      Uncommented(a) != Uncommented(b) && Same(a, b)
  {
    var a: seq<Line>, b: seq<Line> := ["#c\n", "x\n"], ["x\n"];
    MismatchIsChange(a, b, 1);
    var c: seq<Line> := ["y\n", "#d\n"];
    assert Uncommented(c)[0] == "y\n";
    SameIsAligned(a, c);
  }

  /**
   * The loop of `compare_files`, with one cursor per file. A missing previous
   * file gives "changed" before either file is read.
   */
  method CompareFiles(current: seq<Line>, previous: Option<seq<Line>>) returns (identical: bool)
    ensures previous.None? ==> !identical
    ensures identical == Identical(current, previous)
  {
    if previous.None? {
      return false;
    }
    var prev := previous.value;
    var i, j := 0, 0;
    while true
      invariant i <= |current| && j <= |prev|
      invariant Same(current, prev) == Same(current[i..], prev[j..])
      decreases |current| - i + |prev| - j
    {
      ghost var c, p := current[i..], prev[j..];
      var b1 := if i < |current| then current[i] else "";
      if i < |current| {
        i := i + 1;
      }
      var b2 := if j < |prev| then prev[j] else "";
      if j < |prev| {
        j := j + 1;
      }
      assert b1 == ReadAt(c, 0) && b2 == ReadAt(p, 0);
      assert Rest(c) == current[i..] && Rest(p) == prev[j..];
      if IsComment(b1) || IsComment(b2) {
        continue;
      }
      if b1 != b2 {
        return false;
      }
      if b1 == "" {
        return true;
      }
    }
  }

  /** `compare_files` on a file and a stored copy of it reports "identical". */
  lemma IdenticalCopy(f: seq<Line>)
    ensures Identical(f, Some(f))
  {
    SameReflexive(f);
  }
}
