/** Removing the marked block from the tmux configuration on uninstall, and tidying the blank lines. */
module TmuxBlock {
  import opened Text

  const START := "# Groundskeeper configuration"
  const END := "# End Groundskeeper configuration"
  const TRIPLE := "\n\n\n"

  // ---------- the specification ----------

  predicate EndsInTriple(s: string) {
    var n := |s|;
    n >= 3 && s[n - 1] == '\n' && s[n - 2] == '\n' && s[n - 3] == '\n'
  }

  /** A newline is dropped just when two newlines stand right before it: every run of three or more
      becomes two, and everything else stays, in order. */
  function Squeeze(s: string): string {
    if s == [] then []
    else Squeeze(s[..|s| - 1]) + if EndsInTriple(s) then [] else [s[|s| - 1]]
  }

  function WithoutFinalNewlines(s: string): string {
    if s != [] && s[|s| - 1] == '\n' then WithoutFinalNewlines(s[..|s| - 1]) else s
  }

  /** Past the end marker and one newline after it. */
  function PastEnd(content: string): (i: nat)
    requires Contains(content, END)
    ensures i <= |content|
  {
    var end := Index(content, END) + |END|;
    if end < |content| && content[end] == '\n' then end + 1 else end
  }

  function Cut(content: string): string
    requires Contains(content, START) && Contains(content, END)
  {
    content[..Index(content, START)] + content[PastEnd(content)..]
  }

  // ---------- the code ----------

  /** `strings.ReplaceAll` of three newlines by two: left to right, without overlaps. */
  function ReplaceTriples(s: string): string {
    if s == [] then []
    else if |s| >= 3 && s[..3] == TRIPLE then "\n\n" + ReplaceTriples(s[3..])
    else [s[0]] + ReplaceTriples(s[1..])
  }

  method CollapseBlankLines(s: string) returns (r: string)
    ensures r == Squeeze(s)
  {
    r := s;
    while Contains(r, TRIPLE)
      invariant Squeeze(r) == Squeeze(s)
      decreases |r|
    {
      ReplacingShortens(r);
      ReplacingKeepsSqueeze(r);
      r := ReplaceTriples(r);
    }
    WithoutTriplesStays(r);
  }

  /** The file is rewritten just when both markers are there; it loses the block, its runs of newlines
      are squeezed, and it ends in exactly one newline. */
  method RemoveTmuxBlock(content: string) returns (updated: string, changed: bool)
    ensures changed <==> Contains(content, START) && Contains(content, END)
    ensures updated == if changed then WithoutFinalNewlines(Squeeze(Cut(content))) + "\n" else content
  {
    var startIdx := Index(content, START);
    var endIdx := Index(content, END);
    if startIdx == -1 || endIdx == -1 {
      return content, false;
    }
    endIdx := endIdx + |END|;
    if endIdx < |content| && content[endIdx] == '\n' {
      endIdx := endIdx + 1;
    }
    var newContent := content[..startIdx] + content[endIdx..];
    newContent := CollapseBlankLines(newContent);
    ghost var squeezed := newContent;
    while newContent != [] && newContent[|newContent| - 1] == '\n'
      invariant WithoutFinalNewlines(newContent) == WithoutFinalNewlines(squeezed)
    {
      newContent := newContent[..|newContent| - 1];
    }
    return newContent + "\n", true;
  }

  // ---------- the collapsing loop ----------

  lemma AtInTail(s: string, sub: string, i: nat)
    requires 0 < i <= |s|
    ensures At(s, sub, i) <==> At(s[1..], sub, i - 1)
  {
    if i + |sub| <= |s| {
      assert s[i..i + |sub|] == s[1..][i - 1..i - 1 + |sub|];
    }
  }

  lemma {:induction false} ReplacingNeverLengthens(s: string)
    ensures |ReplaceTriples(s)| <= |s|
  {
    if s == [] {
    } else if |s| >= 3 && s[..3] == TRIPLE {
      ReplacingNeverLengthens(s[3..]);
    } else {
      ReplacingNeverLengthens(s[1..]);
    }
  }

  lemma {:induction false} ReplacingAtShortens(s: string, i: nat)
    requires At(s, TRIPLE, i)
    ensures |ReplaceTriples(s)| < |s|
  {
    if s[..3] == TRIPLE {
      ReplacingNeverLengthens(s[3..]);
    } else {
      AtInTail(s, TRIPLE, i);
      ReplacingAtShortens(s[1..], i - 1);
    }
  }

  lemma ReplacingShortens(s: string)
    requires Contains(s, TRIPLE)
    ensures |ReplaceTriples(s)| < |s|
  {
    ReplacingAtShortens(s, Index(s, TRIPLE));
  }

  /** Squeezing from the left, when the text before ends in `run` newlines (two stand for more). */
  function SqueezeAfter(run: nat, s: string): string
    decreases |s|
  {
    if s == [] then []
    else if s[0] != '\n' then [s[0]] + SqueezeAfter(0, s[1..])
    else if run < 2 then "\n" + SqueezeAfter(run + 1, s[1..])
    else SqueezeAfter(2, s[1..])
  }

  function EndRun(s: string): nat {
    if s == [] || s[|s| - 1] != '\n' then 0
    else if |s| >= 2 && s[|s| - 2] == '\n' then 2
    else 1
  }

  lemma EndRunAppend(p: string, c: char)
    ensures EndsInTriple(p + [c]) <==> c == '\n' && EndRun(p) == 2
    ensures EndRun(p + [c]) == if c != '\n' then 0 else if EndRun(p) == 0 then 1 else 2
    ensures Squeeze(p + [c]) == Squeeze(p) + Added(p, c)
  {
    assert (p + [c])[..|p|] == p;
  }

  /** What one more character adds. */
  function Added(p: string, c: char): string {
    if c == '\n' && EndRun(p) == 2 then [] else [c]
  }

  lemma SqueezeAfterStep(p: string, s: string)
    requires s != []
    ensures SqueezeAfter(EndRun(p), s) == Added(p, s[0]) + SqueezeAfter(EndRun(p + [s[0]]), s[1..])
  {
    EndRunAppend(p, s[0]);
  }

  lemma Regroup(a: string, b: string, c: string)
    ensures (a + b) + c == a + (b + c)
  {
  }

  lemma {:induction false} SqueezeFromLeft(p: string, s: string)
    ensures Squeeze(p + s) == Squeeze(p) + SqueezeAfter(EndRun(p), s)
    decreases |s|
  {
    if s == [] {
      assert p + s == p;
    } else {
      var q, rest := p + [s[0]], s[1..];
      calc {
        Squeeze(p + s);
      == { assert p + s == q + rest; }
        Squeeze(q + rest);
      == { SqueezeFromLeft(q, rest); }
        Squeeze(q) + SqueezeAfter(EndRun(q), rest);
      == { EndRunAppend(p, s[0]); }
        (Squeeze(p) + Added(p, s[0])) + SqueezeAfter(EndRun(q), rest);
      == { Regroup(Squeeze(p), Added(p, s[0]), SqueezeAfter(EndRun(q), rest)); }
        Squeeze(p) + (Added(p, s[0]) + SqueezeAfter(EndRun(q), rest));
      == { SqueezeAfterStep(p, s); }
        Squeeze(p) + SqueezeAfter(EndRun(p), s);
      }
    }
  }

  lemma {:induction false} ReplacingKeepsSqueezeAfter(run: nat, s: string)
    requires run <= 2
    ensures SqueezeAfter(run, ReplaceTriples(s)) == SqueezeAfter(run, s)
    decreases |s|
  {
    if s == [] {
    } else if |s| >= 3 && s[..3] == TRIPLE {
      var rest := ReplaceTriples(s[3..]);
      ReplacingKeepsSqueezeAfter(2, s[3..]);
      assert s == TRIPLE + s[3..];
      TwoNewlines(run, rest);
      ThreeNewlines(run, s[3..]);
    } else {
      var rest := ReplaceTriples(s[1..]);
      ReplacingKeepsSqueezeAfter(if s[0] != '\n' then 0 else if run < 2 then run + 1 else 2, s[1..]);
      assert ([s[0]] + rest)[1..] == rest;
    }
  }

  lemma TwoNewlines(run: nat, s: string)
    requires run <= 2
    ensures SqueezeAfter(run, "\n\n" + s) == (if run == 0 then "\n\n" else if run == 1 then "\n" else "")
                                             + SqueezeAfter(2, s)
  {
    var t := "\n" + s;
    assert "\n\n" + s == "\n" + t && ("\n" + t)[1..] == t && t[1..] == s;
    assert SqueezeAfter(run, "\n" + t) == (if run < 2 then "\n" else "") + SqueezeAfter(if run < 2 then run + 1 else 2, t);
  }

  lemma ThreeNewlines(run: nat, s: string)
    requires run <= 2
    ensures SqueezeAfter(run, TRIPLE + s) == (if run == 0 then "\n\n" else if run == 1 then "\n" else "")
                                             + SqueezeAfter(2, s)
  {
    var t := "\n" + s;
    TwoNewlines(run, t);
    assert TRIPLE + s == "\n\n" + t && t[1..] == s;
  }

  lemma ReplacingKeepsSqueeze(s: string)
    ensures Squeeze(ReplaceTriples(s)) == Squeeze(s)
  {
    SqueezeFromLeft([], s);
    SqueezeFromLeft([], ReplaceTriples(s));
    assert [] + s == s && [] + ReplaceTriples(s) == ReplaceTriples(s);
    ReplacingKeepsSqueezeAfter(0, s);
  }

  lemma TripleAt(s: string, i: nat)
    ensures At(s, TRIPLE, i) <==> i + 3 <= |s| && s[i] == '\n' && s[i + 1] == '\n' && s[i + 2] == '\n'
  {
    if i + 3 <= |s| {
      assert s[i..i + 3] == [s[i], s[i + 1], s[i + 2]];
    }
  }

  lemma PartHasNoTriple(s: string, n: nat)
    requires !Contains(s, TRIPLE) && n <= |s|
    ensures !Contains(s[..n], TRIPLE)
  {
    var i := Index(s[..n], TRIPLE);
    if i != -1 {
      TripleAt(s[..n], i);
      TripleAt(s, i);
    }
  }

  lemma EndIsNoTriple(s: string)
    requires !Contains(s, TRIPLE)
    ensures !EndsInTriple(s)
  {
    if |s| >= 3 {
      TripleAt(s, |s| - 3);
    }
  }

  predicate NoTriple(s: string) {
    s == [] || (!EndsInTriple(s) && NoTriple(s[..|s| - 1]))
  }

  lemma {:induction false} NoTripleWhenAbsent(s: string)
    requires !Contains(s, TRIPLE)
    ensures NoTriple(s)
  {
    EndIsNoTriple(s);
    if s != [] {
      PartHasNoTriple(s, |s| - 1);
      NoTripleWhenAbsent(s[..|s| - 1]);
    }
  }

  lemma {:induction false} SqueezeOfNoTriple(s: string)
    requires NoTriple(s)
    ensures Squeeze(s) == s
  {
    if s != [] {
      SqueezeOfNoTriple(s[..|s| - 1]);
      assert s == s[..|s| - 1] + [s[|s| - 1]];
    }
  }

  lemma WithoutTriplesStays(s: string)
    requires !Contains(s, TRIPLE)
    ensures Squeeze(s) == s
  {
    NoTripleWhenAbsent(s);
    SqueezeOfNoTriple(s);
  }

  // ---------- what the tidied text is ----------

  function OtherThanNewlines(s: string): string {
    if s == [] then []
    else OtherThanNewlines(s[..|s| - 1]) + if s[|s| - 1] == '\n' then [] else [s[|s| - 1]]
  }

  lemma {:induction false} OtherThanNewlinesAppend(s: string, c: char)
    ensures OtherThanNewlines(s + [c]) == OtherThanNewlines(s) + if c == '\n' then [] else [c]
  {
    assert (s + [c])[..|s|] == s;
  }

  lemma {:induction false} SqueezeKeepsText(s: string)
    ensures OtherThanNewlines(Squeeze(s)) == OtherThanNewlines(s)
  {
    if s != [] {
      var p, c := s[..|s| - 1], s[|s| - 1];
      assert s == p + [c];
      SqueezeKeepsText(p);
      EndRunAppend(p, c);
      OtherThanNewlinesAppend(p, c);
      OtherThanNewlinesAppend(Squeeze(p), c);
      assert Squeeze(p) + [] == Squeeze(p) && OtherThanNewlines(p) + [] == OtherThanNewlines(p);
    }
  }

  /** What squeezing leaves ends in as many newlines as the text did, up to two. */
  lemma {:induction false} SqueezeEndRun(s: string)
    ensures EndRun(Squeeze(s)) == EndRun(s)
  {
    if s != [] {
      var p, c := s[..|s| - 1], s[|s| - 1];
      assert s == p + [c];
      SqueezeEndRun(p);
      EndRunAppend(p, c);
      EndRunAppend(Squeeze(p), c);
    }
  }

  /** No three newlines in a row are left, so squeezing again changes nothing. */
  lemma {:induction false} SqueezeLeavesNoTriple(s: string)
    ensures !Contains(Squeeze(s), TRIPLE) && Squeeze(Squeeze(s)) == Squeeze(s)
  {
    if s != [] {
      var p, c := s[..|s| - 1], s[|s| - 1];
      assert s == p + [c];
      SqueezeLeavesNoTriple(p);
      EndRunAppend(p, c);
      SqueezeEndRun(p);
      forall i: nat
        ensures !At(Squeeze(s), TRIPLE, i)
      {
        assert !At(Squeeze(p), TRIPLE, i);
        TripleAt(Squeeze(p), i);
        TripleAt(Squeeze(s), i);
      }
    }
    WithoutTriplesStays(Squeeze(s));
  }

  lemma {:induction false} WithoutFinalNewlinesEnds(s: string)
    ensures var t := WithoutFinalNewlines(s);
            && t <= s && (t != [] ==> t[|t| - 1] != '\n')
            && OtherThanNewlines(t) == OtherThanNewlines(s)
  {
    if s != [] && s[|s| - 1] == '\n' {
      WithoutFinalNewlinesEnds(s[..|s| - 1]);
    }
  }

  /** The rewritten file: it ends in exactly one newline, holds no run of three, and has lost no other
      character of what was around the block. */
  lemma TidiedText(s: string)
    ensures var t := WithoutFinalNewlines(Squeeze(s)) + "\n";
            && !Contains(t, TRIPLE)
            && OtherThanNewlines(t) == OtherThanNewlines(s)
            && t[|t| - 1] == '\n' && (|t| > 1 ==> t[|t| - 2] != '\n')
  {
    var u := WithoutFinalNewlines(Squeeze(s));
    var t := u + "\n";
    SqueezeKeepsText(s);
    SqueezeLeavesNoTriple(s);
    WithoutFinalNewlinesEnds(Squeeze(s));
    OtherThanNewlinesAppend(u, '\n');
    forall i: nat
      ensures !At(t, TRIPLE, i)
    {
      assert !At(Squeeze(s), TRIPLE, i);
      TripleAt(Squeeze(s), i);
      TripleAt(t, i);
    }
  }

  // ---------- the cut ----------

  lemma Parts(before: string, block: string, after: string)
    ensures var content, e := before + block + after, |before| + |block|;
            && content[..|before|] == before && content[e..] == after
            && (after != [] ==> content[e] == after[0] && content[e + 1..] == after[1..])
  {
  }

  /** From the start marker through the end marker. */
  predicate IsBlock(block: string) {
    |START| + |END| <= |block| && block[..|START|] == START && block[|block| - |END|..] == END
  }

  /** With the markers in order the cut takes exactly the block and one newline. */
  lemma CutTakesBlock(before: string, block: string, after: string)
    requires IsBlock(block)
    requires Index(before + block + after, START) == |before|
    requires Index(before + block + after, END) == |before| + |block| - |END|
    ensures Cut(before + block + after) == before + if after != [] && after[0] == '\n' then after[1..] else after
  {
    Parts(before, block, after);
  }

  lemma EndHasOneHash()
    ensures forall i :: 0 < i < |END| ==> END[i] != '#'
  {
  }

  lemma NoHashInside(content: string, e: nat, k: nat)
    requires At(content, END, e) && 0 < k < |END|
    ensures content[e + k] != '#'
  {
    EndHasOneHash();
    assert content[e..e + |END|][k] == content[e + k];
  }

  lemma MarkersApart(content: string)
    requires Contains(content, START) && Contains(content, END) && Index(content, END) < Index(content, START)
    ensures PastEnd(content) <= Index(content, START)
  {
    var s, e := Index(content, START), Index(content, END);
    assert content[s..s + |START|][0] == content[s] && START[0] == '#';
    if s < e + |END| {
      NoHashInside(content, e, s - e);
    }
  }

  lemma MarkersDiffer(content: string, i: nat)
    requires At(content, START, i)
    ensures !At(content, END, i)
  {
    CharOf(content, START, i, 2);
    CharOf(content, END, i, 2);
    assert START[2] == 'G' && END[2] == 'E';
  }

  /** With the end marker first, the cut repeats the text between the end marker and the start marker,
      and the start marker stays. */
  lemma CutRepeatsWhenReversed(content: string)
    requires Contains(content, START) && Contains(content, END) && Index(content, END) < Index(content, START)
    ensures var past, start := PastEnd(content), Index(content, START);
            past <= start && Cut(content) == content[..start] + content[past..start] + content[start..]
  {
    var past, s := PastEnd(content), Index(content, START);
    MarkersApart(content);
    assert content[past..] == content[past..s] + content[s..];
  }

  /** Exactly when the start marker comes first does the cut shorten the file. */
  lemma CutShortensIffOrdered(content: string)
    requires Contains(content, START) && Contains(content, END)
    ensures |Cut(content)| < |content| <==> Index(content, START) < Index(content, END)
  {
    var s, e := Index(content, START), Index(content, END);
    MarkersDiffer(content, s);
    if e < s {
      MarkersApart(content);
    }
  }

  lemma MarkersHaveOneHash()
    ensures |START| > 2 && START[0] == '#' && START[2] != END[2] && forall k :: 0 < k < |START| ==> START[k] != '#'
    ensures START == "# Groundskeeper configuration" && END == "# End Groundskeeper configuration"
    ensures |END| > 2 && END[0] == '#' && forall k :: 0 < k < |END| ==> END[k] != '#'
  {
    assert START[2] == 'G' && END[2] == 'E';
  }

  lemma NotBefore(end: string, between: string, begin: string, j: nat)
    requires |begin| > 2 && begin[0] == '#' && |end| > 2 && begin[2] != end[2]
    requires '#' !in between && forall k :: 0 < k < |end| ==> end[k] != '#'
    requires j < |end| + |between|
    ensures !At(end + between + begin, begin, j)
  {
    var content := end + between + begin;
    CharOf(content, begin, j, if j == 0 then 2 else 0);
    if j == 0 {
      assert content[2] == end[2];
    } else {
      assert content[j] == if j < |end| then end[j] else between[j - |end|];
    }
  }

  lemma ReversedMarkersAt(between: string)
    requires '#' !in between
    ensures var content := END + between + START;
            Index(content, END) == 0 && Index(content, START) == |END| + |between|
  {
    var content, start := END + between + START, |END| + |between|;
    MarkersHaveOneHash();
    assert At(content, END, 0) && At(content, START, start);
    IndexIs(content, END, 0);
    forall j: nat | j < start
      ensures !At(content, START, j)
    {
      NotBefore(END, between, START, j);
    }
    IndexIs(content, START, start);
  }

  /** For instance: the line between the markers stands there twice afterwards, between the same markers. */
  lemma ReversedMarkersRepeatLine()
    ensures var content := END + "\nx\n" + START;
            && Contains(content, START) && Contains(content, END)
            && Cut(content) == END + "\nx\n" + "x\n" + START
  {
    var content := END + "\nx\n" + START;
    ReversedMarkersAt("\nx\n");
    CutRepeatsWhenReversed(content);
    assert content[..|END| + 3] == END + "\nx\n" && content[|END| + 1..|END| + 3] == "x\n";
  }
}
