/** The string operations the text editors are built from. Texts are sequences of characters. */
module Text {

  /** `sub` stands in `s` at position `i`. */
  predicate At(s: string, sub: string, i: nat) {
    i + |sub| <= |s| && s[i..i + |sub|] == sub
  }

  function IndexFrom(s: string, sub: string, from: nat): (i: int)
    requires from <= |s|
    ensures i == -1 || (from <= i && At(s, sub, i))
    ensures forall j: nat :: from <= j && (i == -1 || j < i) ==> !At(s, sub, j)
    decreases |s| - from
  {
    if At(s, sub, from) then from
    else if from == |s| then -1
    else IndexFrom(s, sub, from + 1)
  }

  /** The first occurrence, or -1. */
  function Index(s: string, sub: string): (i: int)
    ensures i == -1 || (0 <= i && At(s, sub, i))
    ensures forall j: nat :: (i == -1 || j < i) ==> !At(s, sub, j)
  {
    IndexFrom(s, sub, 0)
  }

  predicate Contains(s: string, sub: string) {
    Index(s, sub) != -1
  }

  lemma IndexIs(s: string, sub: string, i: nat)
    requires At(s, sub, i) && forall j: nat :: j < i ==> !At(s, sub, j)
    ensures Index(s, sub) == i
  {
  }

  lemma CharOf(s: string, sub: string, i: nat, k: nat)
    requires k < |sub|
    ensures At(s, sub, i) ==> s[i + k] == sub[k]
  {
    assert At(s, sub, i) ==> s[i..i + |sub|][k] == s[i + k];
  }

  // ---------- trimming ----------

  predicate IsSpace(c: char) {
    || '\t' <= c <= '\r' || c == ' ' || c == '\U{0085}' || c == '\U{00A0}' || c == '\U{1680}'
    || '\U{2000}' <= c <= '\U{200a}' || c == '\U{2028}' || c == '\U{2029}' || c == '\U{202f}'
    || c == '\U{205f}' || c == '\U{3000}'
  }

  predicate AllSpace(s: string) {
    forall i :: 0 <= i < |s| ==> IsSpace(s[i])
  }

  function TrimLeft(s: string): string {
    if s != [] && IsSpace(s[0]) then TrimLeft(s[1..]) else s
  }

  function TrimRight(s: string): string {
    if s != [] && IsSpace(s[|s| - 1]) then TrimRight(s[..|s| - 1]) else s
  }

  function TrimSpace(s: string): string {
    TrimRight(TrimLeft(s))
  }

  predicate Trimmed(s: string) {
    s != [] ==> !IsSpace(s[0]) && !IsSpace(s[|s| - 1])
  }

  lemma {:induction false} TrimLeftSplits(s: string)
    ensures var t := TrimLeft(s);
            && |t| <= |s| && s[|s| - |t|..] == t && AllSpace(s[..|s| - |t|])
            && (t != [] ==> !IsSpace(t[0]))
  {
    if s != [] && IsSpace(s[0]) {
      TrimLeftSplits(s[1..]);
      var t := TrimLeft(s);
      assert s[..|s| - |t|] == [s[0]] + s[1..][..|s| - 1 - |t|];
    }
  }

  lemma {:induction false} TrimRightSplits(s: string)
    ensures var t := TrimRight(s);
            && |t| <= |s| && s[..|t|] == t && AllSpace(s[|t|..])
            && (t != [] ==> !IsSpace(t[|t| - 1]))
  {
    if s != [] && IsSpace(s[|s| - 1]) {
      TrimRightSplits(s[..|s| - 1]);
      var t := TrimRight(s);
      assert s[|t|..] == s[..|s| - 1][|t|..] + [s[|s| - 1]];
    }
  }

  lemma {:induction false} TrimLeftOf(a: string, t: string)
    requires AllSpace(a)
    ensures TrimLeft(a + t) == TrimLeft(t)
  {
    if a == [] {
      assert a + t == t;
    } else {
      assert (a + t)[1..] == a[1..] + t;
      TrimLeftOf(a[1..], t);
    }
  }

  lemma {:induction false} TrimRightOf(t: string, b: string)
    requires AllSpace(b)
    ensures TrimRight(t + b) == TrimRight(t)
  {
    if b == [] {
      assert t + b == t;
    } else {
      var n := |b| - 1;
      assert (t + b)[..|t + b| - 1] == t + b[..n];
      TrimRightOf(t, b[..n]);
    }
  }

  /** The result is trimmed, and is all of the text but the spaces around it. */
  lemma TrimSpaceSplits(s: string)
    ensures Trimmed(TrimSpace(s)) && |TrimSpace(s)| <= |s|
    ensures exists a, b :: AllSpace(a) && AllSpace(b) && s == a + TrimSpace(s) + b
  {
    var u := TrimLeft(s);
    TrimLeftSplits(s);
    TrimRightSplits(u);
    var t := TrimRight(u);
    var a, b := s[..|s| - |u|], u[|t|..];
    assert s == a + t + b;
  }

  /** Trimming what was trimmed, with spaces put around it, gives it back. */
  lemma TrimSpaceUndoes(a: string, t: string, b: string)
    requires AllSpace(a) && AllSpace(b) && Trimmed(t)
    ensures TrimSpace(a + t + b) == t
  {
    assert a + t + b == a + (t + b);
    TrimLeftOf(a, t + b);
    if t == [] {
      assert t + b == b + [];
      TrimLeftOf(b, []);
    } else {
      assert TrimLeft(t + b) == t + b;
      TrimRightOf(t, b);
    }
  }

  lemma TrimSpaceTwice(s: string)
    ensures TrimSpace(TrimSpace(s)) == TrimSpace(s)
  {
    TrimSpaceSplits(s);
    var t := TrimSpace(s);
    TrimSpaceUndoes([], t, []);
    assert [] + t + [] == t;
  }

  // ---------- lines ----------

  function Lines(s: string): (lines: seq<string>)
    ensures |lines| > 0
  {
    if s == [] then [[]]
    else
      var rest := Lines(s[1..]);
      if s[0] == '\n' then [[]] + rest else [[s[0]] + rest[0]] + rest[1..]
  }

  function Join(lines: seq<string>): string {
    if lines == [] then []
    else if |lines| == 1 then lines[0]
    else lines[0] + ['\n'] + Join(lines[1..])
  }

  lemma {:induction false} JoinLines(s: string)
    ensures Join(Lines(s)) == s
  {
    if s != [] {
      JoinLines(s[1..]);
      var rest, lines := Lines(s[1..]), Lines(s);
      if s[0] == '\n' {
        assert lines[1..] == rest;
      } else if |rest| > 1 {
        assert lines[1..] == rest[1..];
      }
    }
  }

  lemma {:induction false} LinesHaveNoLF(s: string)
    ensures forall line :: line in Lines(s) ==> '\n' !in line
  {
    if s != [] {
      LinesHaveNoLF(s[1..]);
      var rest := Lines(s[1..]);
      assert rest[0] in rest;
    }
  }

  /** Two lists of lines where the last line of the one goes on in the first of the other. */
  function Glue(a: seq<string>, b: seq<string>): seq<string>
    requires a != [] && b != []
  {
    a[..|a| - 1] + [a[|a| - 1] + b[0]] + b[1..]
  }

  lemma GlueEmpty(b: seq<string>)
    requires b != []
    ensures Glue([[]], b) == b
  {
    assert [] + b[0] == b[0];
  }

  lemma GlueLine(line: string, a: seq<string>, b: seq<string>)
    requires a != [] && b != []
    ensures Glue([line] + a, b) == [line] + Glue(a, b)
  {
  }

  lemma GlueChar(c: char, a: seq<string>, b: seq<string>)
    requires a != [] && b != []
    ensures var g := Glue(a, b); Glue([[c] + a[0]] + a[1..], b) == [[c] + g[0]] + g[1..]
  {
    if |a| == 1 {
      assert ([c] + a[0]) + b[0] == [c] + (a[0] + b[0]);
    }
  }

  lemma {:induction false} LinesConcat(a: string, b: string)
    ensures Lines(a + b) == Glue(Lines(a), Lines(b))
  {
    if a == [] {
      assert a + b == b;
      GlueEmpty(Lines(b));
    } else {
      LinesConcat(a[1..], b);
      assert (a + b)[1..] == a[1..] + b && (a + b)[0] == a[0];
      if a[0] == '\n' {
        GlueLine([], Lines(a[1..]), Lines(b));
      } else {
        GlueChar(a[0], Lines(a[1..]), Lines(b));
      }
    }
  }

  lemma {:induction false} LinesOfOne(line: string)
    requires '\n' !in line
    ensures Lines(line) == [line]
  {
    if line != [] {
      LinesOfOne(line[1..]);
      assert [line[0]] + line[1..] == line;
    }
  }

  /** Joining lines and cutting them again gives the same lines. */
  lemma {:induction false} LinesJoin(lines: seq<string>)
    requires lines != [] && forall line :: line in lines ==> '\n' !in line
    ensures Lines(Join(lines)) == lines
  {
    LinesOfOne(lines[0]);
    if |lines| > 1 {
      var rest := Join(lines[1..]);
      LinesJoin(lines[1..]);
      LinesConcat(lines[0], ['\n'] + rest);
      assert (['\n'] + rest)[1..] == rest;
      assert Lines(['\n'] + rest) == [[]] + Lines(rest);
      assert lines[0] + ['\n'] + rest == lines[0] + (['\n'] + rest);
      assert lines[0] + [] == lines[0];
      assert Glue([lines[0]], [[]] + lines[1..]) == [lines[0]] + lines[1..] == lines;
    }
  }

  lemma JoinCons(line: string, lines: seq<string>)
    requires lines != []
    ensures Join([line] + lines) == line + ['\n'] + Join(lines)
  {
    assert ([line] + lines)[1..] == lines;
  }

  lemma {:induction false} LinesOfSpace(s: string)
    requires AllSpace(s)
    ensures forall line :: line in Lines(s) ==> AllSpace(line)
  {
    if s != [] {
      LinesOfSpace(s[1..]);
      var rest := Lines(s[1..]);
      assert rest[0] in rest;
    }
  }

  lemma TrimOfSpace(s: string)
    requires AllSpace(s)
    ensures TrimSpace(s) == []
  {
    TrimLeftOf(s, []);
    assert s + [] == s;
  }

  /** Spaces around a text do not show once it is trimmed. */
  lemma TrimIgnoresEnds(a: string, s: string, b: string)
    requires AllSpace(a) && AllSpace(b)
    ensures TrimSpace(a + s + b) == TrimSpace(s)
  {
    TrimSpaceSplits(s);
    var x, y :| AllSpace(x) && AllSpace(y) && s == x + TrimSpace(s) + y;
    var t := TrimSpace(s);
    assert a + s + b == (a + x) + t + (y + b);
    TrimSpaceUndoes(a + x, t, y + b);
  }

  /** The characters of the lines, each with its line end. */
  function Total(lines: seq<string>): nat {
    if lines == [] then 0 else |lines[0]| + 1 + Total(lines[1..])
  }

  lemma {:induction false} JoinLength(lines: seq<string>)
    ensures |Join(lines)| == if lines == [] then 0 else Total(lines) - 1
  {
    if |lines| > 1 {
      JoinLength(lines[1..]);
    } else if |lines| == 1 {
      assert lines[1..] == [];
    }
  }
}
