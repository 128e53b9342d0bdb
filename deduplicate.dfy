/** `deduplicate_lines`: copy the lines of a file, writing each line only
    the first time it appears, and count the lines read and written. A line
    is compared exactly as the text-mode read returns it, line terminator
    included. */
module Deduplicate {

  /** No line occurs twice. */
  predicate NoDuplicates(s: seq<string>) {
    forall i, j :: 0 <= i < j < |s| ==> s[i] != s[j]
  }

  /** The distinct lines of `s`. */
  function Elements(s: seq<string>): set<string> {
    set x | x in s
  }

  lemma ElementsAppend(s: seq<string>, x: string)
    ensures Elements(s + [x]) == Elements(s) + {x}
  {
    assert forall y :: y in s + [x] <==> y in s || y == x;
  }

  /** What `deduplicate_lines` writes for the input `lines`: built the way
      its loop builds it, one input line at a time. */
  function Dedup(lines: seq<string>): (out: seq<string>)
    ensures |out| <= |lines|
  {
    if lines == [] then []
    else
      var n := |lines| - 1;
      var prefix := Dedup(lines[..n]);
      if lines[n] in prefix then prefix else prefix + [lines[n]]
  }

  /** The output repeats no line and holds every line of the input. */
  lemma {:induction false} DedupSpec(lines: seq<string>)
    ensures NoDuplicates(Dedup(lines))
    ensures Elements(Dedup(lines)) == Elements(lines)
  {
    if lines != [] {
      var n := |lines| - 1;
      DedupSpec(lines[..n]);
      assert lines == lines[..n] + [lines[n]];
      ElementsAppend(lines[..n], lines[n]);
      ElementsAppend(Dedup(lines[..n]), lines[n]);
    }
  }

  /** A line is already in the output exactly when it occurred earlier in the input. */
  lemma InOutputIffSeen(lines: seq<string>, x: string)
    ensures x in Dedup(lines) <==> x in lines
  {
    DedupSpec(lines);
    assert x in Dedup(lines) <==> x in Elements(Dedup(lines));
  }

  /** The positions of `lines` at which a line occurs for the first time. */
  function FirstPositions(lines: seq<string>): (idx: seq<nat>)
    ensures forall k :: 0 <= k < |idx| ==> idx[k] < |lines|
  {
    if lines == [] then []
    else
      var n := |lines| - 1;
      var prev := FirstPositions(lines[..n]);
      if lines[n] in lines[..n] then prev else prev + [n]
  }

  /** The positions are listed in increasing order. */
  lemma {:induction false} FirstPositionsIncreasing(lines: seq<string>)
    ensures forall k, l :: 0 <= k < l < |FirstPositions(lines)| ==> FirstPositions(lines)[k] < FirstPositions(lines)[l]
  {
    if lines != [] {
      FirstPositionsIncreasing(lines[..|lines| - 1]);
    }
  }

  /** `Dedup(lines)` is the subsequence of `lines` taken at `FirstPositions(lines)`. */
  lemma {:induction false} DedupKeepsFirstOccurrences(lines: seq<string>)
    ensures |FirstPositions(lines)| == |Dedup(lines)|
    ensures forall k :: 0 <= k < |Dedup(lines)| ==> Dedup(lines)[k] == lines[FirstPositions(lines)[k]]
  {
    if lines != [] {
      var n := |lines| - 1;
      var init := lines[..n];
      DedupKeepsFirstOccurrences(init);
      InOutputIffSeen(init, lines[n]);
      var prev, out := FirstPositions(init), Dedup(init);
      var idx, out' := FirstPositions(lines), Dedup(lines);
      if lines[n] in init {
        assert idx == prev && out' == out;
      } else {
        assert idx == prev + [n] && out' == out + [lines[n]];
      }
      forall k | 0 <= k < |out'| ensures out'[k] == lines[idx[k]] {
        if k < |out| {
          assert out'[k] == out[k] && idx[k] == prev[k] && init[prev[k]] == lines[prev[k]];
        }
      }
    }
  }

  /** Each listed position holds a line that does not occur before it. */
  lemma {:induction false} FirstPositionsAreFirst(lines: seq<string>)
    ensures forall k :: 0 <= k < |FirstPositions(lines)| ==>
      lines[FirstPositions(lines)[k]] !in lines[..FirstPositions(lines)[k]]
  {
    if lines != [] {
      var n := |lines| - 1;
      var init := lines[..n];
      FirstPositionsAreFirst(init);
      var prev := FirstPositions(init);
      forall k | 0 <= k < |FirstPositions(lines)|
        ensures lines[FirstPositions(lines)[k]] !in lines[..FirstPositions(lines)[k]]
      {
        if k < |prev| {
          var p := prev[k];
          assert FirstPositions(lines)[k] == p && init[..p] == lines[..p] && init[p] == lines[p];
        }
      }
    }
  }

  /** Every position at which a line occurs for the first time is listed. */
  lemma {:induction false} FirstPositionsComplete(lines: seq<string>, p: nat)
    requires p < |lines| && lines[p] !in lines[..p]
    ensures p in FirstPositions(lines)
  {
    var n := |lines| - 1;
    var init := lines[..n];
    if p < n {
      assert init[..p] == lines[..p] && init[p] == lines[p];
      FirstPositionsComplete(init, p);
    }
  }

  lemma {:induction false} DistinctCount(s: seq<string>)
    requires NoDuplicates(s)
    ensures |Elements(s)| == |s|
  {
    if s != [] {
      var n := |s| - 1;
      assert s == s[..n] + [s[n]];
      assert Elements(s) == Elements(s[..n]) + {s[n]};
      assert s[n] !in Elements(s[..n]);
      DistinctCount(s[..n]);
    }
  }

  /** The output has one line per distinct input line. */
  lemma DedupLength(lines: seq<string>)
    ensures |Dedup(lines)| == |Elements(lines)|
  {
    DedupSpec(lines);
    DistinctCount(Dedup(lines));
  }

  /** Input that has no repeated line passes through unchanged. */
  lemma {:induction false} DedupOfDistinct(s: seq<string>)
    requires NoDuplicates(s)
    ensures Dedup(s) == s
  {
    if s != [] {
      var n := |s| - 1;
      DedupOfDistinct(s[..n]);
      assert s[n] !in s[..n];
      assert s == s[..n] + [s[n]];
    }
  }

  /** Deduplicating the output again changes nothing. */
  lemma DedupIdempotent(lines: seq<string>)
    ensures Dedup(Dedup(lines)) == Dedup(lines)
  {
    DedupSpec(lines);
    DedupOfDistinct(Dedup(lines));
  }

  /** Lines are compared with their terminators: a final unterminated "a"
      is distinct from an earlier "a\n", while a repeated "a\n" is dropped. */
  lemma TerminatorIsPartOfTheLine()
    ensures Dedup(["a\n", "b\n", "a\n", "a"]) == ["a\n", "b\n", "a"]
  {
    assert ["a\n", "b\n", "a\n", "a"][..3] == ["a\n", "b\n", "a\n"];
    assert ["a\n", "b\n", "a\n"][..2] == ["a\n", "b\n"];
    assert ["a\n", "b\n"][..1] == ["a\n"];
    assert ["a\n"][..0] == [];
  }

  /** The loop of `deduplicate_lines`, with the lines it writes to `outfile`
      returned as `written`, together with its two counters. */
  method DeduplicateLines(lines: seq<string>) returns (written: seq<string>, totalLines: nat, uniqueLines: nat)
    ensures written == Dedup(lines)
    ensures totalLines == |lines|
    ensures uniqueLines == |written| == |Elements(lines)|
  {
    var seen: set<string> := {};
    written, totalLines, uniqueLines := [], 0, 0;
    for i := 0 to |lines|
      invariant totalLines == i
      invariant written == Dedup(lines[..i])
      invariant seen == Elements(written)
      invariant uniqueLines == |written|
    {
      var line := lines[i];
      assert lines[..i + 1][..i] == lines[..i];
      InOutputIffSeen(lines[..i], line);
      DedupSpec(lines[..i]);
      totalLines := totalLines + 1;
      if line !in seen {
        written := written + [line];
        seen := seen + {line};
        uniqueLines := uniqueLines + 1;
      }
    }
    assert lines[..|lines|] == lines;
    DedupLength(lines);
  }
}
