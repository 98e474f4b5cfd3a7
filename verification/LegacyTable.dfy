/** Removing the legacy `[notify]` table and the bare notify line from a Codex configuration, line by
    line. What a line must look like is left to patterns, of which only little is assumed. */
module LegacyTable {
  import opened Text

  /** `program` and `exactLine` match one line, the others the whole text. */
  datatype Patterns = Patterns(
    program: string -> bool,
    exactLine: string -> bool,
    exact: string -> bool,
    key: string -> bool,
    table: string -> bool)

  const HEADER := "[notify]"

  predicate IsHeader(line: string) { TrimSpace(line) == HEADER }

  predicate IsBlank(line: string) { TrimSpace(line) == "" }

  /** The program pattern asks for the word `program` first, so such a line is no header and not blank;
      the pattern of the bare line asks for some text too. */
  ghost predicate Proper(p: Patterns) {
    && (forall line :: p.program(line) ==> !IsHeader(line) && !IsBlank(line))
    && (forall line :: p.exactLine(line) ==> line != "")
  }

  datatype Kind = Header | Blank | Program | Other

  function KindOf(p: Patterns, line: string): Kind {
    if IsHeader(line) then Header else if IsBlank(line) then Blank else if p.program(line) then Program else Other
  }

  function Kinds(p: Patterns, lines: seq<string>): (kinds: seq<Kind>)
    ensures |kinds| == |lines|
  {
    if lines == [] then [] else Kinds(p, lines[..|lines| - 1]) + [KindOf(p, lines[|lines| - 1])]
  }

  lemma {:induction false} KindsAt(p: Patterns, lines: seq<string>, i: nat)
    requires i < |lines|
    ensures Kinds(p, lines)[i] == KindOf(p, lines[i])
  {
    if i < |lines| - 1 {
      KindsAt(p, lines[..|lines| - 1], i);
    }
  }

  /** The first line from `i` on that is not blank. */
  function PastBlanks(kinds: seq<Kind>, i: nat): (j: nat)
    requires i <= |kinds|
    ensures i <= j <= |kinds| && (j < |kinds| ==> kinds[j] != Blank)
    ensures forall k :: i <= k < j ==> kinds[k] == Blank
    decreases |kinds| - i
  {
    if i < |kinds| && kinds[i] == Blank then PastBlanks(kinds, i + 1) else i
  }

  /** A legacy table starts at line `i`: a header, then blank lines only, then a program line. */
  predicate TableAt(kinds: seq<Kind>, i: nat) {
    && i < |kinds| && kinds[i] == Header
    && PastBlanks(kinds, i + 1) < |kinds| && kinds[PastBlanks(kinds, i + 1)] == Program
  }

  /** Line `k` belongs to the table at line `i`. */
  predicate Within(kinds: seq<Kind>, i: nat, k: nat) {
    TableAt(kinds, i) && i <= k <= PastBlanks(kinds, i + 1)
  }

  predicate InTable(kinds: seq<Kind>, k: nat) {
    exists i :: 0 <= i <= k && Within(kinds, i, k)
  }

  predicate AnyTable(kinds: seq<Kind>) {
    exists i :: 0 <= i < |kinds| && TableAt(kinds, i)
  }

  predicate HasTable(p: Patterns, lines: seq<string>) {
    AnyTable(Kinds(p, lines))
  }

  /** The first `n` lines without those that belong to a table, in order. */
  function Outside(lines: seq<string>, kinds: seq<Kind>, n: nat): seq<string>
    requires n <= |lines| == |kinds|
  {
    if n == 0 then []
    else Outside(lines, kinds, n - 1) + if InTable(kinds, n - 1) then [] else [lines[n - 1]]
  }

  function OutsideTables(p: Patterns, lines: seq<string>): seq<string> {
    Outside(lines, Kinds(p, lines), |lines|)
  }

  /** `s + "\n"` without the spaces around, or nothing. */
  function Tidy(s: string): string {
    var t := TrimSpace(s);
    if t == "" then "" else t + "\n"
  }

  // ---------- one table at a time ----------

  lemma BlanksBetween(kinds: seq<Kind>, i: nat, k: nat)
    requires Within(kinds, i, k)
    ensures kinds[k] == if k == i then Header else if k < PastBlanks(kinds, i + 1) then Blank else Program
  {
  }

  /** The lines of a table are no other table's. */
  lemma TablesAreApart(kinds: seq<Kind>, i: nat, a: nat)
    requires Within(kinds, i, a) && TableAt(kinds, a)
    ensures a == i
  {
    BlanksBetween(kinds, i, a);
  }

  lemma {:induction false} SkipTable(lines: seq<string>, kinds: seq<Kind>, i: nat, n: nat)
    requires |lines| == |kinds| && TableAt(kinds, i) && i <= n <= PastBlanks(kinds, i + 1) + 1
    ensures Outside(lines, kinds, n) == Outside(lines, kinds, i)
  {
    if n > i {
      SkipTable(lines, kinds, i, n - 1);
      assert Within(kinds, i, n - 1);
    }
  }

  /** The pass has dealt with the first `idx` lines, and no table crosses that point. */
  predicate PassedTo(lines: seq<string>, kinds: seq<Kind>, idx: nat, out: seq<string>, removed: bool) {
    && idx <= |lines| == |kinds| && out == Outside(lines, kinds, idx)
    && (removed ==> AnyTable(kinds))
    && (forall i :: 0 <= i < idx && TableAt(kinds, i) ==> removed && PastBlanks(kinds, i + 1) < idx)
  }

  lemma KeepStep(lines: seq<string>, kinds: seq<Kind>, idx: nat, out: seq<string>, removed: bool)
    requires idx < |lines| && PassedTo(lines, kinds, idx, out, removed) && !TableAt(kinds, idx)
    ensures PassedTo(lines, kinds, idx + 1, out + [lines[idx]], removed)
  {
  }

  lemma SkipStep(lines: seq<string>, kinds: seq<Kind>, idx: nat, out: seq<string>, removed: bool)
    requires idx < |lines| && PassedTo(lines, kinds, idx, out, removed) && TableAt(kinds, idx)
    ensures PassedTo(lines, kinds, PastBlanks(kinds, idx + 1) + 1, out, true)
  {
    var end := PastBlanks(kinds, idx + 1);
    SkipTable(lines, kinds, idx, end + 1);
    forall i | 0 <= i < end + 1 && TableAt(kinds, i)
      ensures PastBlanks(kinds, i + 1) < end + 1
    {
      if i >= idx {
        TablesAreApart(kinds, idx, i);
      }
    }
  }

  method SkipBlanks(p: Patterns, lines: seq<string>, from: nat) returns (progIdx: nat)
    requires from <= |lines|
    ensures progIdx == PastBlanks(Kinds(p, lines), from)
  {
    ghost var kinds := Kinds(p, lines);
    progIdx := from;
    while progIdx < |lines| && TrimSpace(lines[progIdx]) == ""
      invariant from <= progIdx <= |lines| && PastBlanks(kinds, progIdx) == PastBlanks(kinds, from)
    {
      KindsAt(p, lines, progIdx);
      progIdx := progIdx + 1;
    }
    if progIdx < |lines| {
      KindsAt(p, lines, progIdx);
    }
  }

  /** A table starts where the code looks for one. */
  lemma TableIsWhereCodeLooks(p: Patterns, lines: seq<string>, idx: nat)
    requires Proper(p) && idx < |lines|
    ensures var kinds := Kinds(p, lines);
            var j := PastBlanks(kinds, idx + 1);
            TableAt(kinds, idx) <==> IsHeader(lines[idx]) && j < |lines| && p.program(lines[j])
  {
    var kinds := Kinds(p, lines);
    KindsAt(p, lines, idx);
    var j := PastBlanks(kinds, idx + 1);
    if j < |lines| {
      KindsAt(p, lines, j);
    }
  }

  /** Whether a table starts at line `idx`, and then where it ends. */
  method FindTable(p: Patterns, lines: seq<string>, idx: nat) returns (found: bool, progIdx: nat)
    requires Proper(p) && idx < |lines|
    ensures found <==> TableAt(Kinds(p, lines), idx)
    ensures found ==> progIdx == PastBlanks(Kinds(p, lines), idx + 1)
  {
    TableIsWhereCodeLooks(p, lines, idx);
    if TrimSpace(lines[idx]) != HEADER {
      return false, idx;
    }
    progIdx := SkipBlanks(p, lines, idx + 1);
    found := progIdx < |lines| && p.program(lines[progIdx]);
  }

  /** `removed` says exactly whether there is a table, and the kept lines are the lines of the text
      outside the tables, in order. */
  method RemoveTableLines(p: Patterns, lines: seq<string>) returns (out: seq<string>, removed: bool)
    requires Proper(p)
    ensures removed <==> HasTable(p, lines)
    ensures out == OutsideTables(p, lines)
  {
    out, removed := [], false;
    ghost var kinds := Kinds(p, lines);
    var idx: nat := 0;
    while idx < |lines|
      invariant idx <= |lines|
      invariant PassedTo(lines, kinds, idx, out, removed)
      decreases |lines| - idx
    {
      var found, progIdx := FindTable(p, lines, idx);
      if found {
        SkipStep(lines, kinds, idx, out, removed);
        removed := true;
        idx := progIdx + 1;
      } else {
        KeepStep(lines, kinds, idx, out, removed);
        out := out + [lines[idx]];
        idx := idx + 1;
      }
    }
  }

  method RemoveLegacyCodexNotifyTable(p: Patterns, content: string) returns (updated: string, removed: bool)
    requires Proper(p)
    ensures removed <==> HasTable(p, Lines(content))
    ensures updated == if removed then Tidy(Join(OutsideTables(p, Lines(content)))) else content
  {
    var out;
    out, removed := RemoveTableLines(p, Lines(content));
    if !removed {
      return content, false;
    }
    updated := TrimSpace(Join(out));
    if updated != "" {
      updated := updated + "\n";
    }
  }

  // ---------- removing always shortens ----------

  /** What the first `n` lines contribute to the text. */
  lemma {:induction false} TotalOfAppend(lines: seq<string>, line: string)
    ensures Total(lines + [line]) == Total(lines) + |line| + 1
  {
    if lines == [] {
      assert (lines + [line])[1..] == [];
    } else {
      assert (lines + [line])[1..] == lines[1..] + [line];
      TotalOfAppend(lines[1..], line);
    }
  }

  lemma {:induction false} OutsideIsSmaller(lines: seq<string>, kinds: seq<Kind>, i: nat, n: nat)
    requires n <= |lines| == |kinds| && TableAt(kinds, i)
    ensures var j := PastBlanks(kinds, i + 1);
            && |Outside(lines, kinds, n)| + (if i < n then 1 else 0) + (if j < n then 1 else 0) <= n
            && Total(Outside(lines, kinds, n)) + (if i < n then |lines[i]| + 1 else 0) + (if j < n then 1 else 0)
               <= Total(lines[..n])
  {
    if n > 0 {
      var before := Outside(lines, kinds, n - 1);
      OutsideIsSmaller(lines, kinds, i, n - 1);
      assert lines[..n] == lines[..n - 1] + [lines[n - 1]];
      TotalOfAppend(lines[..n - 1], lines[n - 1]);
      TotalOfAppend(before, lines[n - 1]);
      assert i == n - 1 || PastBlanks(kinds, i + 1) == n - 1 ==> Within(kinds, i, n - 1);
      assert before + [] == before;
    }
  }

  /** Every pass that removes a table loses two lines and shortens the text, so repeating it ends. */
  lemma RemovingShortens(p: Patterns, content: string)
    requires HasTable(p, Lines(content))
    ensures var lines := Lines(content);
            var kept := OutsideTables(p, lines);
            |kept| + 2 <= |lines| && |Tidy(Join(kept))| < |content|
  {
    var lines := Lines(content);
    var kept, kinds := OutsideTables(p, lines), Kinds(p, lines);
    var i :| 0 <= i < |kinds| && TableAt(kinds, i);
    OutsideIsSmaller(lines, kinds, i, |lines|);
    assert lines[..|lines|] == lines;
    KindsAt(p, lines, i);
    HeaderIsNotEmpty(lines[i]);
    JoinLines(content);
    JoinLength(lines);
    JoinLength(kept);
    TrimSpaceSplits(Join(kept));
  }

  lemma HeaderIsNotEmpty(line: string)
    requires IsHeader(line)
    ensures |line| > 0
  {
  }

  /** The text after as many passes as it takes. */
  ghost function Exhausted(p: Patterns, content: string): string
    decreases |content|
  {
    if HasTable(p, Lines(content)) then
      RemovingShortens(p, content);
      Exhausted(p, Tidy(Join(OutsideTables(p, Lines(content)))))
    else content
  }

  lemma {:induction false} NoTableLeft(p: Patterns, content: string)
    ensures !HasTable(p, Lines(Exhausted(p, content)))
    decreases |content|
  {
    if HasTable(p, Lines(content)) {
      RemovingShortens(p, content);
      NoTableLeft(p, Tidy(Join(OutsideTables(p, Lines(content)))));
    }
  }

  // ---------- when one pass is enough ----------

  /** A header and a program line with nothing but blank lines between. */
  predicate Span(kinds: seq<Kind>, i: nat, j: nat) {
    && i < j < |kinds| && kinds[i] == Header && kinds[j] == Program
    && forall k :: i < k < j ==> kinds[k] == Blank
  }

  lemma TableIsSpan(kinds: seq<Kind>)
    ensures AnyTable(kinds) <==> exists i: nat, j: nat :: Span(kinds, i, j)
  {
    if AnyTable(kinds) {
      var i :| 0 <= i < |kinds| && TableAt(kinds, i);
      assert Span(kinds, i, PastBlanks(kinds, i + 1));
    }
    if i: nat, j: nat :| Span(kinds, i, j) {
      assert PastBlanks(kinds, i + 1) == j;
      assert TableAt(kinds, i);
    }
  }

  /** The lines the pass keeps, by their places. */
  function Kept(kinds: seq<Kind>, n: nat): (places: seq<nat>)
    requires n <= |kinds|
    ensures forall m :: 0 <= m < |places| ==> places[m] < n && !InTable(kinds, places[m])
    ensures forall a, b :: 0 <= a < b < |places| ==> places[a] < places[b]
  {
    if n == 0 then [] else Kept(kinds, n - 1) + if InTable(kinds, n - 1) then [] else [n - 1]
  }

  lemma {:induction false} KeptHas(kinds: seq<Kind>, n: nat, k: nat) returns (m: nat)
    requires k < n <= |kinds| && !InTable(kinds, k)
    ensures m < |Kept(kinds, n)| && Kept(kinds, n)[m] == k
  {
    if k == n - 1 {
      m := |Kept(kinds, n)| - 1;
    } else {
      m := KeptHas(kinds, n - 1, k);
    }
  }

  lemma {:induction false} OutsideIsKept(lines: seq<string>, kinds: seq<Kind>, n: nat)
    requires n <= |lines| == |kinds|
    ensures |Outside(lines, kinds, n)| == |Kept(kinds, n)|
    ensures forall m :: 0 <= m < |Kept(kinds, n)| ==> Outside(lines, kinds, n)[m] == lines[Kept(kinds, n)[m]]
  {
    if n > 0 {
      OutsideIsKept(lines, kinds, n - 1);
    }
  }

  lemma KindOfKept(p: Patterns, lines: seq<string>, m: nat)
    requires m < |Kept(Kinds(p, lines), |lines|)|
    ensures var kept := OutsideTables(p, lines);
            |kept| == |Kept(Kinds(p, lines), |lines|)|
            && Kinds(p, kept)[m] == Kinds(p, lines)[Kept(Kinds(p, lines), |lines|)[m]]
  {
    var kinds := Kinds(p, lines);
    OutsideIsKept(lines, kinds, |lines|);
    KindsAt(p, OutsideTables(p, lines), m);
    KindsAt(p, lines, Kept(kinds, |lines|)[m]);
  }

  /** A header and a program line outside all tables, with nothing but blank lines and tables between. */
  predicate LeftBehind(kinds: seq<Kind>, i: nat, j: nat) {
    && i < j < |kinds| && kinds[i] == Header && kinds[j] == Program
    && !InTable(kinds, i) && !InTable(kinds, j)
    && forall k :: i < k < j ==> kinds[k] == Blank || InTable(kinds, k)
  }

  predicate LeavesTable(kinds: seq<Kind>) {
    exists i, j :: 0 <= i < |kinds| && 0 <= j < |kinds| && LeftBehind(kinds, i, j)
  }

  /** The kinds of the kept lines. */
  function KeptKinds(kinds: seq<Kind>): (kept: seq<Kind>)
    ensures |kept| == |Kept(kinds, |kinds|)|
    ensures forall m :: 0 <= m < |kept| ==> kept[m] == kinds[Kept(kinds, |kinds|)[m]]
  {
    var places := Kept(kinds, |kinds|);
    seq(|places|, m requires 0 <= m < |places| => kinds[places[m]])
  }

  lemma KindsAreKept(p: Patterns, lines: seq<string>)
    ensures Kinds(p, OutsideTables(p, lines)) == KeptKinds(Kinds(p, lines))
  {
    var kinds := Kinds(p, lines);
    OutsideIsKept(lines, kinds, |lines|);
    forall m | 0 <= m < |Kept(kinds, |lines|)|
      ensures Kinds(p, OutsideTables(p, lines))[m] == KeptKinds(kinds)[m]
    {
      KindOfKept(p, lines, m);
    }
  }

  lemma SpanWasLeftBehind(kinds: seq<Kind>, a: nat, b: nat)
    requires Span(KeptKinds(kinds), a, b)
    ensures LeavesTable(kinds)
  {
    var kept := Kept(kinds, |kinds|);
    var i, j := kept[a], kept[b];
    forall k | i < k < j
      ensures kinds[k] == Blank || InTable(kinds, k)
    {
      if !InTable(kinds, k) {
        var m := KeptHas(kinds, |kinds|, k);
        assert a < m < b;
        assert KeptKinds(kinds)[m] == Blank;
      }
    }
    assert LeftBehind(kinds, i, j);
  }

  lemma LeftBehindIsSpan(kinds: seq<Kind>, i: nat, j: nat)
    requires LeftBehind(kinds, i, j)
    ensures exists a: nat, b: nat :: Span(KeptKinds(kinds), a, b)
  {
    var kept := Kept(kinds, |kinds|);
    var a := KeptHas(kinds, |kinds|, i);
    var b := KeptHas(kinds, |kinds|, j);
    assert a < b;
    forall m | a < m < b
      ensures KeptKinds(kinds)[m] == Blank
    {
      assert i < kept[m] < j;
    }
    assert Span(KeptKinds(kinds), a, b);
  }

  /** When one pass over the lines is enough, exactly: unless it leaves a header and a program line behind,
      with nothing but blank lines and removed tables between them. */
  lemma PassLeavesTableIff(p: Patterns, lines: seq<string>)
    ensures HasTable(p, OutsideTables(p, lines)) <==> LeavesTable(Kinds(p, lines))
  {
    var kinds := Kinds(p, lines);
    KindsAreKept(p, lines);
    TableIsSpan(KeptKinds(kinds));
    if a: nat, b: nat :| Span(KeptKinds(kinds), a, b) {
      SpanWasLeftBehind(kinds, a, b);
    }
    if LeavesTable(kinds) {
      var i, j :| 0 <= i < |kinds| && 0 <= j < |kinds| && LeftBehind(kinds, i, j);
      LeftBehindIsSpan(kinds, i, j);
    }
  }

  // ---------- the same for the text that is written back ----------

  /** The program pattern does not look at the spaces around a line. */
  ghost predicate IgnoresEnds(p: Patterns) {
    forall line :: p.program(line) <==> p.program(TrimSpace(line))
  }

  function Blanks(n: nat): (kinds: seq<Kind>)
    ensures |kinds| == n && forall i :: 0 <= i < n ==> kinds[i] == Blank
  {
    seq(n, _ => Blank)
  }

  lemma BlankEndsDoNotMatter(m: nat, kinds: seq<Kind>, n: nat)
    ensures AnyTable(Blanks(m) + kinds + Blanks(n)) <==> AnyTable(kinds)
  {
    var all := Blanks(m) + kinds + Blanks(n);
    assert forall i :: 0 <= i < |all| ==> all[i] == if m <= i < m + |kinds| then kinds[i - m] else Blank;
    TableIsSpan(all);
    TableIsSpan(kinds);
    if i: nat, j: nat :| Span(all, i, j) {
      forall k | i - m < k < j - m
        ensures kinds[k] == Blank
      {
        assert all[k + m] == kinds[k];
      }
      assert Span(kinds, i - m, j - m);
    }
    if i: nat, j: nat :| Span(kinds, i, j) {
      assert Span(all, i + m, j + m);
    }
  }

  lemma {:induction false} KindsOfConcat(p: Patterns, a: seq<string>, b: seq<string>)
    ensures Kinds(p, a + b) == Kinds(p, a) + Kinds(p, b)
  {
    forall i | 0 <= i < |a| + |b|
      ensures Kinds(p, a + b)[i] == (Kinds(p, a) + Kinds(p, b))[i]
    {
      KindsAt(p, a + b, i);
      if i < |a| {
        KindsAt(p, a, i);
      } else {
        KindsAt(p, b, i - |a|);
      }
    }
  }

  lemma KindIgnoresEnds(p: Patterns, a: string, line: string, b: string)
    requires IgnoresEnds(p) && AllSpace(a) && AllSpace(b)
    ensures KindOf(p, a + line + b) == KindOf(p, line)
  {
    TrimIgnoresEnds(a, line, b);
  }

  lemma KindsOfSpace(p: Patterns, lines: seq<string>)
    requires forall line :: line in lines ==> AllSpace(line)
    ensures Kinds(p, lines) == Blanks(|lines|)
  {
    forall i | 0 <= i < |lines|
      ensures Kinds(p, lines)[i] == Blank
    {
      KindsAt(p, lines, i);
      TrimOfSpace(lines[i]);
    }
  }

  lemma KindsAround(p: Patterns, before: seq<string>, line: string, after: seq<string>)
    ensures Kinds(p, before + [line] + after) == Kinds(p, before) + [KindOf(p, line)] + Kinds(p, after)
  {
    KindsOfConcat(p, before + [line], after);
    KindsOfConcat(p, before, [line]);
    KindsAt(p, [line], 0);
    assert Kinds(p, [line]) == [KindOf(p, line)];
  }

  lemma KindsHead(p: Patterns, b: seq<string>)
    requires b != []
    ensures Kinds(p, b) == [KindOf(p, b[0])] + Kinds(p, b[1..])
  {
    KindsOfConcat(p, [b[0]], b[1..]);
    KindsAt(p, [b[0]], 0);
    assert [b[0]] + b[1..] == b;
  }

  lemma KindsLast(p: Patterns, a: seq<string>)
    requires a != []
    ensures Kinds(p, a) == Kinds(p, a[..|a| - 1]) + [KindOf(p, a[|a| - 1])]
  {
  }

  lemma KindAfterSpace(p: Patterns, a: string, line: string)
    requires IgnoresEnds(p) && AllSpace(a)
    ensures KindOf(p, a + line) == KindOf(p, line) == KindOf(p, line + a)
  {
    KindIgnoresEnds(p, a, line, []);
    KindIgnoresEnds(p, [], line, a);
    assert a + line + [] == a + line && [] + line + a == line + a;
  }

  lemma AssembleKinds(a: seq<Kind>, k: Kind, b: seq<Kind>)
    ensures (a + [k]) + b == a + ([k] + b)
  {
  }

  lemma GluedSpaceBefore(p: Patterns, a: seq<string>, b: seq<string>)
    requires IgnoresEnds(p) && a != [] && b != [] && forall line :: line in a ==> AllSpace(line)
    ensures Kinds(p, Glue(a, b)) == Blanks(|a| - 1) + Kinds(p, b)
  {
    var n := |a| - 1;
    KindsOfSpace(p, a[..n]);
    KindAfterSpace(p, a[n], b[0]);
    KindsAround(p, a[..n], a[n] + b[0], b[1..]);
    KindsHead(p, b);
    AssembleKinds(Blanks(n), KindOf(p, b[0]), Kinds(p, b[1..]));
  }

  lemma GluedSpaceAfter(p: Patterns, a: seq<string>, b: seq<string>)
    requires IgnoresEnds(p) && a != [] && b != [] && forall line :: line in b ==> AllSpace(line)
    ensures Kinds(p, Glue(a, b)) == Kinds(p, a) + Blanks(|b| - 1)
  {
    var n := |a| - 1;
    KindsOfSpace(p, b[1..]);
    KindAfterSpace(p, b[0], a[n]);
    KindsAround(p, a[..n], a[n] + b[0], b[1..]);
    KindsLast(p, a);
  }

  lemma SpaceBefore(p: Patterns, a: string, s: string)
    requires IgnoresEnds(p) && AllSpace(a)
    ensures Kinds(p, Lines(a + s)) == Blanks(|Lines(a)| - 1) + Kinds(p, Lines(s))
  {
    LinesConcat(a, s);
    LinesOfSpace(a);
    GluedSpaceBefore(p, Lines(a), Lines(s));
  }

  lemma SpaceAfter(p: Patterns, s: string, b: string)
    requires IgnoresEnds(p) && AllSpace(b)
    ensures Kinds(p, Lines(s + b)) == Kinds(p, Lines(s)) + Blanks(|Lines(b)| - 1)
  {
    LinesConcat(s, b);
    LinesOfSpace(b);
    GluedSpaceAfter(p, Lines(s), Lines(b));
  }

  lemma SpaceKeepsTables(p: Patterns, a: string, t: string, b: string)
    requires IgnoresEnds(p) && AllSpace(a) && AllSpace(b)
    ensures HasTable(p, Lines(a + t + b)) <==> HasTable(p, Lines(t))
  {
    SpaceAfter(p, a + t, b);
    SpaceBefore(p, a, t);
    BlankEndsDoNotMatter(|Lines(a)| - 1, Kinds(p, Lines(t)), |Lines(b)| - 1);
  }

  /** Trimming a text and closing its last line changes nothing about its tables. */
  lemma TidyKeepsTables(p: Patterns, s: string)
    requires IgnoresEnds(p)
    ensures HasTable(p, Lines(Tidy(s))) <==> HasTable(p, Lines(s))
  {
    var t := TrimSpace(s);
    TrimSpaceSplits(s);
    var a, b :| AllSpace(a) && AllSpace(b) && s == a + t + b;
    SpaceKeepsTables(p, a, t, b);
    if t != "" {
      assert AllSpace("\n") && AllSpace("");
      SpaceKeepsTables(p, "", t, "\n");
      assert "" + t == t;
    }
  }

  /** And so for the text that the removal returns: it still holds a table exactly when the text it was given
      had a header and a program line outside all tables, with nothing but blank lines and tables between. */
  lemma RemovalLeavesTableIff(p: Patterns, content: string)
    requires IgnoresEnds(p)
    ensures HasTable(p, Lines(Tidy(Join(OutsideTables(p, Lines(content)))))) <==> LeavesTable(Kinds(p, Lines(content)))
  {
    var lines := Lines(content);
    var kept := OutsideTables(p, lines);
    PassLeavesTableIff(p, lines);
    TidyKeepsTables(p, Join(kept));
    if kept == [] {
      assert Lines("") == [""];
      assert TrimSpace("") == "";
      KindsAt(p, [""], 0);
    } else {
      LinesHaveNoLF(content);
      OutsideIsKept(lines, Kinds(p, lines), |lines|);
      forall line | line in kept
        ensures '\n' !in line
      {
        var m :| 0 <= m < |kept| && kept[m] == line;
        assert kept[m] in lines;
      }
      LinesJoin(kept);
    }
  }

  // ---------- a text for which one pass is not enough ----------

  lemma KindsOfLeft(p: Patterns, prog: string)
    requires Proper(p) && p.program(prog)
    ensures Kinds(p, [HEADER, HEADER, prog, prog, "x"])[..4] == [Header, Header, Program, Program]
    ensures Kinds(p, [HEADER, prog, "x", ""])[..2] == [Header, Program]
  {
    assert TrimLeft(HEADER) == HEADER && TrimRight(HEADER) == HEADER;
    var lines, rest := [HEADER, HEADER, prog, prog, "x"], [HEADER, prog, "x", ""];
    KindsAt(p, lines, 0);
    KindsAt(p, lines, 1);
    KindsAt(p, lines, 2);
    KindsAt(p, lines, 3);
    KindsAt(p, rest, 0);
    KindsAt(p, rest, 1);
  }

  lemma OutsideOfLeft(lines: seq<string>, kinds: seq<Kind>)
    requires |lines| == |kinds| == 5 && kinds[..4] == [Header, Header, Program, Program] && kinds[4] == Other
    ensures Outside(lines, kinds, 5) == [lines[0], lines[3], lines[4]]
  {
    assert kinds[0] == kinds[..4][0] && kinds[1] == kinds[..4][1] && kinds[2] == kinds[..4][2] && kinds[3] == kinds[..4][3];
    assert PastBlanks(kinds, 1) == 1 && PastBlanks(kinds, 2) == 2;
    assert Within(kinds, 1, 1) && Within(kinds, 1, 2);
    assert !InTable(kinds, 0) && !InTable(kinds, 3) && !InTable(kinds, 4);
    assert InTable(kinds, 1) && InTable(kinds, 2);
    assert Outside(lines, kinds, 1) == [lines[0]];
    assert Outside(lines, kinds, 3) == [lines[0]];
    assert Outside(lines, kinds, 4) == [lines[0], lines[3]];
  }

  lemma OtherIsOther(p: Patterns, line: string)
    requires !IsHeader(line) && !IsBlank(line) && !p.program(line)
    ensures KindOf(p, line) == Other
  {
  }

  /** Two headers, two program lines and some other text: the pass removes the inner pair, and the text it
      returns holds the outer pair as a table. */
  lemma OnePassMayLeaveTable(p: Patterns, prog: string)
    requires Proper(p) && p.program(prog) && '\n' !in prog && !p.program("x")
    ensures var content := Join([HEADER, HEADER, prog, prog, "x"]);
            var returned := Tidy(Join(OutsideTables(p, Lines(content))));
            HasTable(p, Lines(content)) && returned == Join([HEADER, prog, "x", ""]) && HasTable(p, Lines(returned))
  {
    var lines := [HEADER, HEADER, prog, prog, "x"];
    var kinds := Kinds(p, lines);
    LinesJoin(lines);
    KindsOfLeft(p, prog);
    assert TrimSpace("x") == "x";
    OtherIsOther(p, "x");
    KindsAt(p, lines, 4);
    OutsideOfLeft(lines, kinds);
    assert kinds[1] == kinds[..4][1] && kinds[2] == kinds[..4][2];
    assert TableAt(kinds, 1);
    ReturnedText(prog);
    var rest := [HEADER, prog, "x", ""];
    assert Kinds(p, rest)[0] == Kinds(p, rest)[..2][0] && Kinds(p, rest)[1] == Kinds(p, rest)[..2][1];
    assert TableAt(Kinds(p, rest), 0);
  }

  lemma TidyOfTrimmed(s: string)
    requires Trimmed(s) && s != ""
    ensures Tidy(s) == s + "\n"
  {
    TrimSpaceUndoes("", s, "");
    assert "" + s + "" == s;
  }

  lemma JoinOfLeft(prog: string)
    ensures var s := HEADER + "\n" + (prog + "\n" + "x");
            Join([HEADER, prog, "x"]) == s && Join([HEADER, prog, "x", ""]) == s + "\n"
  {
    JoinCons(HEADER, [prog, "x"]);
    JoinCons(prog, ["x"]);
    assert [HEADER] + [prog, "x"] == [HEADER, prog, "x"] && [prog] + ["x"] == [prog, "x"];
    JoinCons(HEADER, [prog, "x", ""]);
    JoinCons(prog, ["x", ""]);
    JoinCons("x", [""]);
    assert [HEADER] + [prog, "x", ""] == [HEADER, prog, "x", ""] && [prog] + ["x", ""] == [prog, "x", ""];
    assert ["x"] + [""] == ["x", ""];
  }

  lemma ReturnedText(prog: string)
    requires '\n' !in prog
    ensures Tidy(Join([HEADER, prog, "x"])) == Join([HEADER, prog, "x", ""])
    ensures Lines(Join([HEADER, prog, "x", ""])) == [HEADER, prog, "x", ""]
  {
    JoinOfLeft(prog);
    TidyOfTrimmed(HEADER + "\n" + (prog + "\n" + "x"));
    LinesJoin([HEADER, prog, "x", ""]);
  }

  // ---------- the bare line ----------

  function OtherLines(p: Patterns, lines: seq<string>): seq<string> {
    if lines == [] then []
    else
      var last := lines[|lines| - 1];
      OtherLines(p, lines[..|lines| - 1]) + if p.exactLine(last) then [] else [last]
  }

  method RemoveExactCodexNotifyLine(p: Patterns, content: string) returns (updated: string, removed: bool)
    ensures removed <==> exists line :: line in Lines(content) && p.exactLine(line)
    ensures updated == if removed then Tidy(Join(OtherLines(p, Lines(content)))) else content
  {
    var lines := Lines(content);
    var out: seq<string> := [];
    removed := false;
    for i := 0 to |lines|
      invariant out == OtherLines(p, lines[..i])
      invariant removed <==> exists line :: line in lines[..i] && p.exactLine(line)
    {
      assert lines[..i + 1][..i] == lines[..i];
      assert lines[..i + 1] == lines[..i] + [lines[i]];
      if p.exactLine(lines[i]) {
        removed := true;
        continue;
      }
      out := out + [lines[i]];
    }
    assert lines[..|lines|] == lines;
    if !removed {
      return content, false;
    }
    updated := TrimSpace(Join(out));
    if updated != "" {
      updated := updated + "\n";
    }
  }

  lemma {:induction false} OtherLinesAreFewer(p: Patterns, lines: seq<string>)
    requires Proper(p)
    ensures Total(OtherLines(p, lines)) <= Total(lines)
    ensures (exists line :: line in lines && p.exactLine(line)) ==> Total(OtherLines(p, lines)) + 2 <= Total(lines)
  {
    if lines != [] {
      var n := |lines| - 1;
      var rest := OtherLines(p, lines[..n]);
      OtherLinesAreFewer(p, lines[..n]);
      assert lines == lines[..n] + [lines[n]];
      TotalOfAppend(lines[..n], lines[n]);
      TotalOfAppend(rest, lines[n]);
      assert rest + [] == rest;
    }
  }

  lemma RemovingLinesShortens(p: Patterns, content: string)
    requires Proper(p) && exists line :: line in Lines(content) && p.exactLine(line)
    ensures |Tidy(Join(OtherLines(p, Lines(content))))| < |content|
  {
    var kept := OtherLines(p, Lines(content));
    OtherLinesAreFewer(p, Lines(content));
    JoinLines(content);
    JoinLength(Lines(content));
    JoinLength(kept);
    TrimSpaceSplits(Join(kept));
  }

  // ---------- which lines stay ----------

  lemma {:induction false} OtherLinesConcat(p: Patterns, a: seq<string>, b: seq<string>)
    ensures OtherLines(p, a + b) == OtherLines(p, a) + OtherLines(p, b)
  {
    if b == [] {
      assert a + b == a && OtherLines(p, a) + [] == OtherLines(p, a);
    } else {
      var n := |b| - 1;
      assert (a + b)[..|a + b| - 1] == a + b[..n];
      OtherLinesConcat(p, a, b[..n]);
      var last := if p.exactLine(b[n]) then [] else [b[n]];
      assert (OtherLines(p, a) + OtherLines(p, b[..n])) + last == OtherLines(p, a) + (OtherLines(p, b[..n]) + last);
    }
  }

  lemma {:induction false} NoMatchStays(p: Patterns, lines: seq<string>)
    requires forall line :: line in lines ==> !p.exactLine(line)
    ensures OtherLines(p, lines) == lines
  {
    if lines != [] {
      NoMatchStays(p, lines[..|lines| - 1]);
      assert lines == lines[..|lines| - 1] + [lines[|lines| - 1]];
    }
  }

  /** A matching line among others is taken out, and the lines above and below it stay as they are. */
  lemma BareLineIsCut(p: Patterns, a: seq<string>, line: string, b: seq<string>)
    requires p.exactLine(line) && forall other :: other in a + b ==> !p.exactLine(other)
    ensures OtherLines(p, a + [line] + b) == a + b
  {
    OtherLinesConcat(p, a + [line], b);
    OtherLinesConcat(p, a, [line]);
    OtherLinesConcat(p, a, b);
    NoMatchStays(p, a + b);
    MatchGoes(p, line);
    assert OtherLines(p, a) + [] == OtherLines(p, a);
  }

  lemma MatchGoes(p: Patterns, line: string)
    requires p.exactLine(line)
    ensures OtherLines(p, [line]) == []
  {
    assert [line][..0] == [];
  }

  /** The places of the lines that do not match, in increasing order. */
  function Unmatched(p: Patterns, lines: seq<string>): (places: seq<nat>)
    ensures forall m :: 0 <= m < |places| ==> places[m] < |lines| && !p.exactLine(lines[places[m]])
    ensures forall a, b :: 0 <= a < b < |places| ==> places[a] < places[b]
    ensures forall i :: 0 <= i < |lines| && !p.exactLine(lines[i]) ==> i in places
  {
    if lines == [] then []
    else
      var n := |lines| - 1;
      Unmatched(p, lines[..n]) + if p.exactLine(lines[n]) then [] else [n]
  }

  /** The lines kept are the lines at those places. */
  lemma {:induction false} OtherLinesAt(p: Patterns, lines: seq<string>)
    ensures |OtherLines(p, lines)| == |Unmatched(p, lines)|
    ensures forall m :: 0 <= m < |Unmatched(p, lines)| ==> OtherLines(p, lines)[m] == lines[Unmatched(p, lines)[m]]
  {
    if lines != [] {
      OtherLinesAt(p, lines[..|lines| - 1]);
    }
  }

  // ---------- one table among other lines ----------

  /** The kinds show one header, at `i`, then blank lines, then a program line at `j`. */
  predicate OneTable(kinds: seq<Kind>, i: nat, j: nat) {
    && i < j < |kinds| && kinds[j] == Program && (forall k :: i < k < j ==> kinds[k] == Blank)
    && forall k :: 0 <= k < |kinds| ==> (kinds[k] == Header <==> k == i)
  }

  lemma OneTableIs(kinds: seq<Kind>, i: nat, j: nat, k: nat)
    requires OneTable(kinds, i, j) && k < |kinds|
    ensures InTable(kinds, k) <==> i <= k <= j
  {
    assert PastBlanks(kinds, i + 1) == j;
    if i <= k <= j {
      assert Within(kinds, i, k);
    }
  }

  lemma {:induction false} OutsideOfOne(lines: seq<string>, kinds: seq<Kind>, i: nat, j: nat, n: nat)
    requires |lines| == |kinds| && OneTable(kinds, i, j) && n <= |lines|
    ensures Outside(lines, kinds, n) == if n <= i then lines[..n] else if n <= j + 1 then lines[..i] else lines[..i] + lines[j + 1..n]
  {
    if n > 0 {
      OutsideOfOne(lines, kinds, i, j, n - 1);
      OneTableIs(kinds, i, j, n - 1);
    }
  }

  /** A legacy table among lines without headers is taken out, header, blank lines and program line, and the lines
      above and below it stay as they are. */
  lemma TableIsCut(p: Patterns, lines: seq<string>, i: nat, j: nat)
    requires Proper(p) && i < j < |lines|
    requires TrimSpace(lines[i]) == "[notify]" && p.program(lines[j])
    requires forall k :: i < k < j ==> TrimSpace(lines[k]) == ""
    requires forall k :: 0 <= k < |lines| && k != i ==> TrimSpace(lines[k]) != "[notify]"
    ensures HasTable(p, lines) && OutsideTables(p, lines) == lines[..i] + lines[j + 1..]
  {
    var kinds := Kinds(p, lines);
    OneTableOf(p, lines, i, j);
    assert PastBlanks(kinds, i + 1) == j && TableAt(kinds, i);
    OutsideOfOne(lines, kinds, i, j, |lines|);
  }

  lemma OneTableOf(p: Patterns, lines: seq<string>, i: nat, j: nat)
    requires Proper(p) && i < j < |lines|
    requires IsHeader(lines[i]) && p.program(lines[j])
    requires forall k :: i < k < j ==> IsBlank(lines[k])
    requires forall k :: 0 <= k < |lines| && k != i ==> !IsHeader(lines[k])
    ensures OneTable(Kinds(p, lines), i, j)
  {
    forall k | 0 <= k < |lines|
      ensures Kinds(p, lines)[k] == KindOf(p, lines[k])
    {
      KindsAt(p, lines, k);
    }
  }
}
