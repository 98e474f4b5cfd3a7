/** Session titles: a title is to be unique among the sessions at the same path. An explicit title that
    is taken is refused, a missing one is made unique by a number. */
module Titles {

  datatype Entry = Entry(title: string, path: string)

  const LAST_NUMBER := 100

  // ---------- candidates ----------

  function Digit(n: nat): char
    requires n < 10
  {
    (n as char) + '0'
  }

  function Decimal(n: nat): (s: string)
    ensures |s| > 0
  {
    if n < 10 then [Digit(n)] else Decimal(n / 10) + [Digit(n % 10)]
  }

  /** The number a decimal shows. */
  function NumberOf(s: string): int {
    if s == [] then 0 else 10 * NumberOf(s[..|s| - 1]) + (s[|s| - 1] as int - '0' as int)
  }

  lemma {:induction false} DecimalRoundTrip(n: nat)
    ensures NumberOf(Decimal(n)) == n
  {
    if n >= 10 {
      DecimalRoundTrip(n / 10);
      var s := Decimal(n);
      assert s[..|s| - 1] == Decimal(n / 10);
    }
  }

  function Numbered(base: string, n: nat): string {
    base + " (" + Decimal(n) + ")"
  }

  /** The base itself, then "base (2)", "base (3)", and so on. */
  function Candidate(base: string, n: nat): string {
    if n <= 1 then base else Numbered(base, n)
  }

  lemma CandidatesDiffer(base: string, m: nat, n: nat)
    requires 1 <= m < n
    ensures Candidate(base, m) != Candidate(base, n)
  {
    var b := Candidate(base, n);
    if m == 1 {
      assert |b| > |base|;
    } else if Candidate(base, m) == b {
      var a := Candidate(base, m);
      assert a[|base| + 2..|a| - 1] == Decimal(m) && b[|base| + 2..|b| - 1] == Decimal(n);
      DecimalRoundTrip(m);
      DecimalRoundTrip(n);
    }
  }

  // ---------- the search ----------

  predicate TitleExists(s: seq<Entry>, title: string, path: string) {
    Entry(title, path) in s
  }

  function SessionsAt(s: seq<Entry>, path: string): nat {
    if s == [] then 0 else SessionsAt(s[..|s| - 1], path) + if s[|s| - 1].path == path then 1 else 0
  }

  /** The first free candidate from number `from` on; past the last number when there is none. */
  function FirstFree(s: seq<Entry>, base: string, path: string, from: nat): (n: nat)
    requires 1 <= from <= LAST_NUMBER + 1
    ensures from <= n <= LAST_NUMBER + 1
    ensures n <= LAST_NUMBER ==> !TitleExists(s, Candidate(base, n), path)
    ensures forall k :: from <= k < n ==> TitleExists(s, Candidate(base, k), path)
    decreases LAST_NUMBER + 1 - from
  {
    if from == LAST_NUMBER + 1 || !TitleExists(s, Candidate(base, from), path) then from
    else FirstFree(s, base, path, from + 1)
  }

  function UniqueTitle(s: seq<Entry>, base: string, path: string, stamp: nat): string {
    var n := FirstFree(s, base, path, 1);
    if n <= LAST_NUMBER then Candidate(base, n) else Numbered(base, stamp)
  }

  method FindTitle(s: seq<Entry>, title: string, path: string) returns (found: bool)
    ensures found <==> TitleExists(s, title, path)
  {
    for i := 0 to |s|
      invariant Entry(title, path) !in s[..i]
    {
      if s[i].path == path && s[i].title == title {
        assert s[i] == Entry(title, path);
        return true;
      }
      assert s[..i + 1] == s[..i] + [s[i]];
    }
    assert s[..|s|] == s;
    return false;
  }

  /** With fewer than a hundred sessions at the path the title is the base or the least free number, and
      the time stamp is never used. */
  method GenerateUniqueTitle(s: seq<Entry>, base: string, path: string, stamp: nat) returns (title: string)
    ensures title == UniqueTitle(s, base, path, stamp)
    ensures SessionsAt(s, path) < 100 ==>
              !TitleExists(s, title, path) && FirstFree(s, base, path, 1) <= 100
  {
    if SessionsAt(s, path) < 100 {
      SomeCandidateIsFree(s, base, path);
    }
    var taken := FindTitle(s, base, path);
    if !taken {
      return base;
    }
    for i := 2 to LAST_NUMBER + 1
      invariant FirstFree(s, base, path, 1) == FirstFree(s, base, path, i)
    {
      var candidate := Numbered(base, i);
      taken := FindTitle(s, candidate, path);
      if !taken {
        return candidate;
      }
    }
    return Numbered(base, stamp);
  }

  // ---------- a hundred candidates, fewer sessions ----------

  ghost function TitlesAt(s: seq<Entry>, path: string): set<string> {
    if s == [] then {}
    else TitlesAt(s[..|s| - 1], path) + if s[|s| - 1].path == path then {s[|s| - 1].title} else {}
  }

  lemma {:induction false} TitlesAtBound(s: seq<Entry>, path: string)
    ensures |TitlesAt(s, path)| <= SessionsAt(s, path)
  {
    if s != [] {
      TitlesAtBound(s[..|s| - 1], path);
    }
  }

  lemma {:induction false} TitlesAtMeans(s: seq<Entry>, title: string, path: string)
    ensures title in TitlesAt(s, path) <==> TitleExists(s, title, path)
  {
    if s != [] {
      var n := |s| - 1;
      TitlesAtMeans(s[..n], title, path);
      assert s == s[..n] + [s[n]];
    }
  }

  ghost function Candidates(base: string, n: nat): set<string> {
    if n == 0 then {} else Candidates(base, n - 1) + {Candidate(base, n)}
  }

  lemma {:induction false} NotAmongEarlier(base: string, m: nat, n: nat)
    requires m < n
    ensures Candidate(base, n) !in Candidates(base, m)
  {
    if m > 0 {
      NotAmongEarlier(base, m - 1, n);
      CandidatesDiffer(base, m, n);
    }
  }

  lemma {:induction false} CandidatesCount(base: string, n: nat)
    ensures |Candidates(base, n)| == n
  {
    if n > 0 {
      CandidatesCount(base, n - 1);
      NotAmongEarlier(base, n - 1, n);
    }
  }

  lemma SubsetIsSmaller(a: set<string>, b: set<string>)
    requires a <= b
    ensures |a| <= |b|
  {
    assert b == a + (b - a);
    assert |b| == |a| + |b - a|;
  }

  lemma {:induction false} CandidatesAmong(base: string, n: nat, titles: set<string>)
    requires forall k :: 1 <= k <= n ==> Candidate(base, k) in titles
    ensures Candidates(base, n) <= titles
  {
    if n > 0 {
      CandidatesAmong(base, n - 1, titles);
    }
  }

  lemma TakenCandidates(s: seq<Entry>, base: string, path: string, n: nat)
    requires n < FirstFree(s, base, path, 1)
    ensures Candidates(base, n) <= TitlesAt(s, path)
  {
    forall k | 1 <= k <= n
      ensures Candidate(base, k) in TitlesAt(s, path)
    {
      TitlesAtMeans(s, Candidate(base, k), path);
    }
    CandidatesAmong(base, n, TitlesAt(s, path));
  }

  /** A hundred different candidates cannot all be taken by fewer than a hundred sessions. */
  lemma SomeCandidateIsFree(s: seq<Entry>, base: string, path: string)
    requires SessionsAt(s, path) < 100
    ensures FirstFree(s, base, path, 1) <= 100
  {
    var n := FirstFree(s, base, path, 1) - 1;
    TakenCandidates(s, base, path, n);
    CandidatesCount(base, n);
    SubsetIsSmaller(Candidates(base, n), TitlesAt(s, path));
    TitlesAtBound(s, path);
  }

  // ---------- uniqueness ----------

  /** One slash at the end does not make a path another one. */
  function Normalized(path: string): string {
    var trimmed := if path != [] && path[|path| - 1] == '/' then path[..|path| - 1] else path;
    if trimmed == "" then "/" else trimmed
  }

  lemma OneSlashIsDropped(path: string)
    ensures Normalized(path + "/") == if path == "" then "/" else path
    ensures path != "" && path[|path| - 1] != '/' ==> Normalized(path) == path
  {
    assert (path + "/")[..|path|] == path;
  }

  predicate Clashes(a: Entry, b: Entry) {
    a.title == b.title && Normalized(a.path) == Normalized(b.path)
  }

  predicate IsDuplicate(s: seq<Entry>, title: string, path: string) {
    exists i :: 0 <= i < |s| && Clashes(s[i], Entry(title, path))
  }

  method IsDuplicateSession(s: seq<Entry>, title: string, path: string) returns (dup: bool)
    ensures dup <==> IsDuplicate(s, title, path)
  {
    for i := 0 to |s|
      invariant forall k :: 0 <= k < i ==> !Clashes(s[k], Entry(title, path))
    {
      if Normalized(s[i].path) == Normalized(path) && s[i].title == title {
        assert Clashes(s[i], Entry(title, path));
        return true;
      }
    }
    return false;
  }

  /** No two sessions have the same title and the same path. */
  ghost predicate Unique(s: seq<Entry>) {
    forall i, j :: 0 <= i < j < |s| ==> !Clashes(s[i], s[j])
  }

  datatype Command =
    | AddTitled(title: string, path: string)
    | AddUntitled(base: string, path: string, stamp: nat)
    | Rename(index: nat, title: string)
    | Remove(index: nat)

  function Step(s: seq<Entry>, c: Command): seq<Entry> {
    match c
    case AddTitled(title, path) => if IsDuplicate(s, title, path) then s else s + [Entry(title, path)]
    case AddUntitled(base, path, stamp) => s + [Entry(UniqueTitle(s, base, path, stamp), path)]
    case Rename(i, title) =>
      if i >= |s| || (title != s[i].title && IsDuplicate(s, title, s[i].path)) then s
      else s[i := s[i].(title := title)]
    case Remove(i) => if i >= |s| then s else s[..i] + s[i + 1..]
  }

  function Run(s: seq<Entry>, cs: seq<Command>): seq<Entry> {
    if cs == [] then s else Step(Run(s, cs[..|cs| - 1]), cs[|cs| - 1])
  }

  class SessionList {
    var entries: seq<Entry>

    constructor ()
      ensures entries == []
    {
      entries := [];
    }

    method HandleAdd(title: string, base: string, path: string, stamp: nat) returns (added: bool)
      modifies this
      ensures entries == Step(old(entries), if title != "" then AddTitled(title, path) else AddUntitled(base, path, stamp))
      ensures added <==> |entries| == |old(entries)| + 1
    {
      var chosen := title;
      if title == "" {
        chosen := GenerateUniqueTitle(entries, base, path, stamp);
      } else {
        var dup := IsDuplicateSession(entries, title, path);
        if dup {
          return false;
        }
      }
      entries := entries + [Entry(chosen, path)];
      return true;
    }

    method HandleRename(index: nat, title: string) returns (ok: bool)
      requires index < |entries|
      modifies this
      ensures entries == Step(old(entries), Rename(index, title))
      ensures var was := old(entries);
              ok <==> title == was[index].title || !IsDuplicate(was, title, was[index].path)
      ensures ok ==> |entries| == |old(entries)| && entries[index] == Entry(title, old(entries)[index].path)
      ensures ok ==> forall i :: 0 <= i < |entries| && i != index ==> entries[i] == old(entries)[i]
      ensures !ok ==> entries == old(entries)
    {
      var oldTitle := entries[index].title;
      if title != oldTitle {
        var dup := IsDuplicateSession(entries, title, entries[index].path);
        if dup {
          return false;
        }
      }
      entries := entries[index := entries[index].(title := title)];
      return true;
    }
  }

  // ---------- what the commands achieve ----------

  /** The title chosen for an untitled session, from the titles at its path: the folder name when it is free, else
      with the least free number from 2 to 100, else with the time stamp. */
  lemma ChosenTitle(s: seq<Entry>, base: string, path: string, stamp: nat, n: nat)
    requires 2 <= n <= 101
    requires forall k :: 2 <= k < n ==> Entry(base + " (" + Decimal(k) + ")", path) in s
    requires n <= 100 ==> Entry(base + " (" + Decimal(n) + ")", path) !in s
    ensures UniqueTitle(s, base, path, stamp) ==
            if Entry(base, path) !in s then base
            else if n <= 100 then base + " (" + Decimal(n) + ")"
            else base + " (" + Decimal(stamp) + ")"
  {
    var f := FirstFree(s, base, path, 1);
    assert Candidate(base, 1) == base;
    assert forall k :: 2 <= k ==> Candidate(base, k) == base + " (" + Decimal(k) + ")";
    if Entry(base, path) in s {
      assert f < n ==> TitleExists(s, Candidate(base, f), path);
      assert n < f ==> TitleExists(s, Candidate(base, n), path);
    }
  }

  lemma DecimalOfHundred()
    ensures Decimal(2) == "2" && Decimal(42) == "42" && Decimal(100) == "100"
  {
    assert Decimal(4) == "4" && Decimal(10) == Decimal(1) + [Digit(0)];
  }

  /** An add puts one session at the end, unless its title is taken. */
  lemma AddTakesEffect(s: seq<Entry>, title: string, path: string, stamp: nat)
    ensures Step(s, AddTitled(title, path)) == if IsDuplicate(s, title, path) then s else s + [Entry(title, path)]
    ensures var t := Step(s, AddUntitled(title, path, stamp));
            |t| == |s| + 1 && t[..|s|] == s && t[|s|].path == path
  {
  }

  /** An accepted rename gives the session its title, and changes nothing else; a refused one changes nothing. */
  lemma RenameTakesEffect(s: seq<Entry>, title: string, i: nat)
    requires i < |s|
    ensures var t := Step(s, Rename(i, title));
            && |t| == |s| && (forall j :: 0 <= j < |s| && j != i ==> t[j] == s[j])
            && (title == s[i].title || !IsDuplicate(s, title, s[i].path) ==> t[i] == Entry(title, s[i].path))
            && (title != s[i].title && IsDuplicate(s, title, s[i].path) ==> t[i] == s[i])
  {
  }

  /** A remove takes one session out. */
  lemma RemoveTakesEffect(s: seq<Entry>, i: nat)
    requires i < |s|
    ensures var t := Step(s, Remove(i));
            |t| == |s| - 1 && t[..i] == s[..i] && t[i..] == s[i + 1..]
  {
  }

  /** Adding keeps the titles unique exactly when the new one clashes with none. */
  lemma AddKeepsUniqueIff(s: seq<Entry>, title: string, path: string)
    requires Unique(s)
    ensures Unique(s + [Entry(title, path)]) <==> !IsDuplicate(s, title, path)
  {
    var t := s + [Entry(title, path)];
    if IsDuplicate(s, title, path) {
      var i :| 0 <= i < |s| && Clashes(s[i], Entry(title, path));
      assert Clashes(t[i], t[|s|]);
    }
  }

  /** Of the spellings of a path that count as the same, the sessions use only this one. */
  ghost predicate OneSpelling(s: seq<Entry>, path: string) {
    forall i :: 0 <= i < |s| && Normalized(s[i].path) == Normalized(path) ==> s[i].path == path
  }

  /** With fewer than a hundred sessions at the path, an untitled add keeps the titles unique if and only
      if no session at another spelling of the path has the chosen title: the number is chosen by the
      exact path, while duplicates are told by the normalized one. */
  lemma UntitledAddKeepsUniqueIff(s: seq<Entry>, base: string, path: string, stamp: nat)
    requires Unique(s) && SessionsAt(s, path) < 100
    ensures var n := FirstFree(s, base, path, 1);
            Unique(Step(s, AddUntitled(base, path, stamp))) <==>
            forall i :: 0 <= i < |s| && s[i].path != path ==> !Clashes(s[i], Entry(Candidate(base, n), path))
  {
    SomeCandidateIsFree(s, base, path);
    var n := FirstFree(s, base, path, 1);
    var title := Candidate(base, n);
    AddKeepsUniqueIff(s, title, path);
    forall i | 0 <= i < |s| && s[i].path == path
      ensures !Clashes(s[i], Entry(title, path))
    {
      assert s[i] in s;
    }
  }

  /** Another spelling of the path, in use: its title is free by the exact path and taken by the normalized
      one. */
  lemma OtherSpellingClashes(s: seq<Entry>, i: nat, path: string, stamp: nat)
    requires Unique(s) && i < |s| && Normalized(s[i].path) == Normalized(path) && s[i].path != path
    ensures !Unique(Step(s, AddUntitled(s[i].title, path, stamp)))
  {
    var title := s[i].title;
    if TitleExists(s, title, path) {
      var j :| 0 <= j < |s| && s[j] == Entry(title, path);
      assert Clashes(s[i], s[j]) && Clashes(s[j], s[i]);
    }
    assert FirstFree(s, title, path, 1) == 1;
    AddKeepsUniqueIff(s, title, path);
    assert Clashes(s[i], Entry(title, path));
  }

  /** When an untitled add keeps the titles unique, whatever the base: with fewer than a hundred sessions at
      the path, exactly when the sessions spell that path in one way. */
  lemma UntitledAddsKeepUniqueIffOneSpelling(s: seq<Entry>, path: string, stamp: nat)
    requires Unique(s) && SessionsAt(s, path) < 100
    ensures (forall base :: Unique(Step(s, AddUntitled(base, path, stamp)))) <==> OneSpelling(s, path)
  {
    if OneSpelling(s, path) {
      forall base
        ensures Unique(Step(s, AddUntitled(base, path, stamp)))
      {
        UntitledAddKeepsUniqueIff(s, base, path, stamp);
      }
    } else {
      var i :| 0 <= i < |s| && Normalized(s[i].path) == Normalized(path) && s[i].path != path;
      OtherSpellingClashes(s, i, path, stamp);
    }
  }

  lemma RenameKeepsUnique(s: seq<Entry>, i: nat, title: string)
    requires Unique(s)
    ensures Unique(Step(s, Rename(i, title)))
  {
    var t := Step(s, Rename(i, title));
    if t != s {
      forall a, b | 0 <= a < b < |t|
        ensures !Clashes(t[a], t[b])
      {
        if a == i {
          assert !Clashes(s[b], Entry(title, s[i].path));
        } else if b == i {
          assert !Clashes(s[a], Entry(title, s[i].path));
        } else {
          assert !Clashes(s[a], s[b]);
        }
      }
    }
  }

  /** A path as `filepath.Abs` gives it: no slash at the end, but for the root. */
  predicate Clean(path: string) {
    path == "/" || (path != "" && path[|path| - 1] != '/')
  }

  predicate AllClean(s: seq<Entry>) {
    forall i :: 0 <= i < |s| ==> Clean(s[i].path)
  }

  lemma CleanPathsHaveOneSpelling(s: seq<Entry>, path: string)
    requires AllClean(s) && Clean(path)
    ensures OneSpelling(s, path)
  {
    assert forall p :: Clean(p) ==> Normalized(p) == p;
  }

  /** What the run asks of one command: paths are clean, and an untitled add goes to a path with fewer
      than a hundred sessions. */
  predicate Fits(s: seq<Entry>, c: Command) {
    match c
    case AddTitled(_, path) => Clean(path)
    case AddUntitled(_, path, _) => Clean(path) && SessionsAt(s, path) < 100
    case _ => true
  }

  predicate FitsThroughout(s: seq<Entry>, cs: seq<Command>) {
    cs == [] || (FitsThroughout(s, cs[..|cs| - 1]) && Fits(Run(s, cs[..|cs| - 1]), cs[|cs| - 1]))
  }

  lemma RemoveKeepsUnique(s: seq<Entry>, i: nat)
    requires Unique(s) && i < |s|
    ensures Unique(s[..i] + s[i + 1..])
  {
    var t := s[..i] + s[i + 1..];
    forall a, b | 0 <= a < b < |t|
      ensures !Clashes(t[a], t[b])
    {
      assert t[a] == s[if a < i then a else a + 1] && t[b] == s[if b < i then b else b + 1];
    }
  }

  lemma StepKeepsClean(s: seq<Entry>, c: Command)
    requires AllClean(s) && Fits(s, c)
    ensures AllClean(Step(s, c))
  {
  }

  lemma StepKeepsUnique(s: seq<Entry>, c: Command)
    requires Unique(s) && AllClean(s) && Fits(s, c)
    ensures Unique(Step(s, c))
  {
    match c
    case AddTitled(title, path) => AddKeepsUniqueIff(s, title, path);
    case AddUntitled(base, path, stamp) =>
      CleanPathsHaveOneSpelling(s, path);
      UntitledAddKeepsUniqueIff(s, base, path, stamp);
    case Rename(i, title) => RenameKeepsUnique(s, i, title);
    case Remove(i) =>
      if i < |s| {
        RemoveKeepsUnique(s, i);
      }
  }

  /** Every run of adds, launches, renames and removes over clean paths keeps the titles unique, as long as
      untitled sessions go to paths with fewer than a hundred sessions. */
  lemma {:induction false} RunKeepsUnique(s: seq<Entry>, cs: seq<Command>)
    requires Unique(s) && AllClean(s) && FitsThroughout(s, cs)
    ensures Unique(Run(s, cs)) && AllClean(Run(s, cs))
  {
    if cs != [] {
      RunKeepsUnique(s, cs[..|cs| - 1]);
      StepKeepsClean(Run(s, cs[..|cs| - 1]), cs[|cs| - 1]);
      StepKeepsUnique(Run(s, cs[..|cs| - 1]), cs[|cs| - 1]);
    }
  }

  /** Two spellings of one path get the same title twice. */
  lemma SpellingsMayClash(title: string, path: string, stamp: nat)
    requires path != "" && path[|path| - 1] != '/'
    ensures var s := [Entry(title, path + "/")];
            Unique(s) && !Unique(Step(s, AddUntitled(title, path, stamp)))
  {
    var s := [Entry(title, path + "/")];
    assert (path + "/")[..|path|] == path && path + "/" != path;
    assert |path + "/"| == |path| + 1;
    assert !TitleExists(s, title, path);
    assert FirstFree(s, title, path, 1) == 1;
    assert Clashes(s[0], Entry(title, path));
    AddKeepsUniqueIff(s, title, path);
  }
}
