/** Installing and removing the Codex notify block in a configuration file the user also edits. */
module CodexNotify {
  import opened Text
  import opened LegacyTable

  const BEGIN := "# BEGIN AGENTDECK CODEX NOTIFY"
  const END := "# END AGENTDECK CODEX NOTIFY"
  const NOTIFY_LINE := "notify = [\"groundskeeper\", \"codex-notify\"]"

  datatype InstallOutcome = Upgraded | AlreadyInstalled | Conflict | Installed

  datatype UninstallOutcome = Malformed | Removed | NothingToRemove

  datatype HookStatus = StatusInstalled | LegacyNotifyTable | CustomNotify | NotInstalled

  function Block(): string { BEGIN + "\n" + NOTIFY_LINE + "\n" + END + "\n" }

  /** Where the marked block stands: its first begin marker, and past the end marker after it. */
  predicate Marked(content: string) {
    Contains(content, BEGIN) && Contains(content[Index(content, BEGIN)..], END)
  }

  function WithoutBlock(content: string): string
    requires Marked(content)
  {
    var begin := Index(content, BEGIN);
    var end := begin + Index(content[begin..], END) + |END|;
    content[..begin] + content[end..]
  }

  function Prepended(content: string): string {
    var trimmed := TrimSpace(content);
    if trimmed == "" then Block() else BEGIN + "\n" + NOTIFY_LINE + "\n" + END + "\n\n" + trimmed + "\n"
  }

  function WithoutTables(p: Patterns, content: string): string {
    Tidy(Join(OutsideTables(p, Lines(content))))
  }

  /** What is left of the file for the user when an install rewrites it. */
  function Foreign(p: Patterns, content: string): string {
    if Marked(content) then WithoutBlock(content)
    else if HasTable(p, Lines(content)) then WithoutTables(p, content)
    else content
  }

  function InstallOf(p: Patterns, content: string): InstallOutcome {
    if Marked(content) || HasTable(p, Lines(content)) then Upgraded
    else if p.exact(content) then AlreadyInstalled
    else if p.key(content) || p.table(content) then Conflict
    else Installed
  }

  predicate Rewrites(outcome: InstallOutcome) {
    outcome == Upgraded || outcome == Installed
  }

  function StatusOf(p: Patterns, content: string): HookStatus {
    if Contains(content, BEGIN) || p.exact(content) then StatusInstalled
    else if HasTable(p, Lines(content)) || p.table(content) then LegacyNotifyTable
    else if p.key(content) then CustomNotify
    else NotInstalled
  }

  ghost function UninstallOf(p: Patterns, content: string): (UninstallOutcome, string) {
    var lines := Lines(content);
    if Contains(content, BEGIN) then
      if Marked(content) then (Removed, Tidy(WithoutBlock(content))) else (Malformed, content)
    else if HasTable(p, lines) then (Removed, WithoutTables(p, content))
    else if exists line :: line in lines && p.exactLine(line) then (Removed, Tidy(Join(OtherLines(p, lines))))
    else (NothingToRemove, content)
  }

  // ---------- the commands as the program runs them ----------

  method PrependCodexNotifyBlock(content: string) returns (updated: string)
    ensures updated == Prepended(content)
  {
    var trimmed := TrimSpace(content);
    if trimmed == "" {
      return Block();
    }
    var head := BEGIN + "\n" + NOTIFY_LINE + "\n" + END;
    updated := head + "\n\n" + trimmed + "\n";
  }

  method CutBlock(content: string) returns (rest: string, cut: bool)
    requires Contains(content, BEGIN)
    ensures cut <==> Marked(content)
    ensures cut ==> rest == WithoutBlock(content)
  {
    var begin := Index(content, BEGIN);
    var endRel := Index(content[begin..], END);
    if endRel == -1 {
      return content, false;
    }
    var end := begin + endRel + |END|;
    return content[..begin] + content[end..], true;
  }

  class ConfigFile {
    var content: string
    const patterns: Patterns

    constructor (content: string, patterns: Patterns)
      ensures this.content == content && this.patterns == patterns
    {
      this.content, this.patterns := content, patterns;
    }

    /** Every rewrite puts the block in front of what is left for the user; otherwise nothing is written. */
    method Install() returns (outcome: InstallOutcome)
      requires Proper(patterns)
      modifies this
      ensures outcome == InstallOf(patterns, old(content))
      ensures content == if Rewrites(outcome) then Prepended(Foreign(patterns, old(content))) else old(content)
    {
      if Contains(content, BEGIN) {
        var rest, cut := CutBlock(content);
        if cut {
          PrependTrims(rest);
          content := PrependCodexNotifyBlock(TrimSpace(rest));
          return Upgraded;
        }
      }
      var updated, removed := RemoveLegacyCodexNotifyTable(patterns, content);
      if removed {
        PrependTrims(updated);
        content := PrependCodexNotifyBlock(TrimSpace(updated));
        return Upgraded;
      }
      if patterns.exact(content) {
        return AlreadyInstalled;
      }
      if patterns.key(content) || patterns.table(content) {
        return Conflict;
      }
      content := PrependCodexNotifyBlock(content);
      return Installed;
    }

    method Uninstall() returns (outcome: UninstallOutcome)
      requires Proper(patterns)
      modifies this
      ensures (outcome, content) == UninstallOf(patterns, old(content))
    {
      if Contains(content, BEGIN) {
        var rest, cut := CutBlock(content);
        if !cut {
          return Malformed;
        }
        var updated := TrimSpace(rest);
        if updated != "" {
          updated := updated + "\n";
        }
        content := updated;
        return Removed;
      }
      var updated, removed := RemoveLegacyCodexNotifyTable(patterns, content);
      if removed {
        content := updated;
        return Removed;
      }
      updated, removed := RemoveExactCodexNotifyLine(patterns, content);
      if removed {
        content := updated;
        return Removed;
      }
      return NothingToRemove;
    }

    method Status() returns (status: HookStatus)
      requires Proper(patterns)
      ensures status == StatusOf(patterns, content)
    {
      if Contains(content, BEGIN) || patterns.exact(content) {
        return StatusInstalled;
      }
      var _, legacy := RemoveLegacyCodexNotifyTable(patterns, content);
      if legacy || patterns.table(content) {
        return LegacyNotifyTable;
      }
      if patterns.key(content) {
        return CustomNotify;
      }
      return NotInstalled;
    }
  }

  lemma PrependTrims(content: string)
    ensures Prepended(TrimSpace(content)) == Prepended(content)
  {
    TrimSpaceTwice(content);
  }

  // ---------- the block is found where it was put ----------

  const END_AT: nat := |BEGIN| + 1 + |NOTIFY_LINE| + 1

  lemma BeginHasOneHash()
    ensures forall i :: 0 < i < |BEGIN| ==> BEGIN[i] != '#'
  {
  }

  lemma NotifyLineHasNoHash()
    ensures forall i :: 0 <= i < |NOTIFY_LINE| ==> NOTIFY_LINE[i] != '#'
  {
  }

  /** The block in front of any text is found by its markers, and cutting it leaves that text. */
  lemma BlockIsFound(rest: string)
    ensures var w := BEGIN + "\n" + NOTIFY_LINE + "\n" + END + rest;
            Marked(w) && WithoutBlock(w) == rest
  {
    var w := BEGIN + "\n" + NOTIFY_LINE + "\n" + END + rest;
    assert At(w, BEGIN, 0);
    IndexIs(w, BEGIN, 0);
    assert w[0..] == w;
    assert At(w, END, END_AT);
    forall j: nat | j < END_AT
      ensures !At(w, END, j)
    {
      if j == 0 {
        assert w[2] == BEGIN[2] && END[2] != BEGIN[2];
      } else {
        NoHashBetween(rest, j);
        assert END[0] == '#' && w[j] != END[0];
      }
    }
    IndexIs(w, END, END_AT);
    assert w[..0] + w[END_AT + |END|..] == rest;
  }

  lemma NoHashBetween(rest: string, j: nat)
    requires 0 < j < END_AT
    ensures var w := BEGIN + "\n" + NOTIFY_LINE + "\n" + END + rest; j < |w| && w[j] != '#'
  {
    BeginHasOneHash();
    NotifyLineHasNoHash();
    var w := BEGIN + "\n" + NOTIFY_LINE + "\n" + END + rest;
    if j < |BEGIN| {
      assert w[j] == BEGIN[j];
    } else if j == |BEGIN| {
      assert w[j] == '\n';
    } else if j < |BEGIN| + 1 + |NOTIFY_LINE| {
      assert w[j] == NOTIFY_LINE[j - |BEGIN| - 1];
    } else {
      assert w[j] == '\n';
    }
  }

  /** What an install writes carries the block, and without it the user's text. */
  lemma PrependedIsMarked(content: string)
    ensures var w := Prepended(content);
            Marked(w) && TrimSpace(WithoutBlock(w)) == TrimSpace(content)
  {
    var t, w := TrimSpace(content), Prepended(content);
    TrimSpaceSplits(content);
    assert AllSpace("\n") && AllSpace("\n\n") && AllSpace("");
    var head := BEGIN + "\n" + NOTIFY_LINE + "\n" + END;
    if t == "" {
      assert w == head + "\n";
      BlockIsFound("\n");
      assert "" + "" + "\n" == "\n";
      TrimSpaceUndoes("", "", "\n");
    } else {
      var rest := "\n\n" + t + "\n";
      assert w == head + rest;
      BlockIsFound(rest);
      TrimSpaceUndoes("\n\n", t, "\n");
    }
  }

  /** A block between other text: the first begin marker and the first end marker behind it are its own, and exactly
      the block is cut out. */
  lemma BlockIsCut(before: string, inside: string, after: string)
    requires Index(before + BEGIN + inside + END + after, BEGIN) == |before|
    requires Index(BEGIN + inside + END + after, END) == |BEGIN| + |inside|
    ensures var w := before + BEGIN + inside + END + after; Marked(w) && WithoutBlock(w) == before + after
  {
    var w := before + BEGIN + inside + END + after;
    var tail := BEGIN + inside + END + after;
    Assembled(before, inside, after);
    assert w[|before|..] == tail;
    assert w[..|before|] == before && w[|before| + |BEGIN| + |inside| + |END|..] == after;
  }

  lemma Assembled(before: string, inside: string, after: string)
    ensures before + BEGIN + inside + END + after == before + (BEGIN + inside + END + after)
  {
  }

  /** The text an install writes. */
  lemma InstalledText(content: string)
    ensures TrimSpace(content) == "" ==>
              Prepended(content) == "# BEGIN AGENTDECK CODEX NOTIFY\n" + "notify = [\"groundskeeper\", \"codex-notify\"]\n"
                                    + "# END AGENTDECK CODEX NOTIFY\n"
    ensures TrimSpace(content) != "" ==>
              Prepended(content) == "# BEGIN AGENTDECK CODEX NOTIFY\n" + "notify = [\"groundskeeper\", \"codex-notify\"]\n"
                                    + "# END AGENTDECK CODEX NOTIFY\n" + "\n" + TrimSpace(content) + "\n"
  {
    var a, b, c := "# BEGIN AGENTDECK CODEX NOTIFY", "notify = [\"groundskeeper\", \"codex-notify\"]", "# END AGENTDECK CODEX NOTIFY";
    assert BEGIN == a && NOTIFY_LINE == b && END == c;
    assert a + "\n" == "# BEGIN AGENTDECK CODEX NOTIFY\n" && b + "\n" == "notify = [\"groundskeeper\", \"codex-notify\"]\n";
    assert c + "\n" == "# END AGENTDECK CODEX NOTIFY\n";
    Laid(a, b, c, TrimSpace(content));
  }

  lemma Laid(a: string, b: string, c: string, t: string)
    ensures a + "\n" + b + "\n" + c + "\n" == (a + "\n") + (b + "\n") + (c + "\n")
    ensures a + "\n" + b + "\n" + c + "\n\n" + t + "\n" == (a + "\n") + (b + "\n") + (c + "\n") + "\n" + t + "\n"
  {
  }

  // ---------- install, uninstall, status ----------

  /** Installing on what an install wrote writes the same text again. */
  lemma InstallIsIdempotent(p: Patterns, content: string)
    requires Rewrites(InstallOf(p, content))
    ensures var w := Prepended(Foreign(p, content));
            InstallOf(p, w) == Upgraded && Prepended(Foreign(p, w)) == w
  {
    PrependedIsMarked(Foreign(p, content));
  }

  lemma InstallShowsInstalled(p: Patterns, content: string)
    requires Rewrites(InstallOf(p, content)) || InstallOf(p, content) == AlreadyInstalled
    ensures StatusOf(p, if Rewrites(InstallOf(p, content)) then Prepended(Foreign(p, content)) else content)
            == StatusInstalled
  {
    PrependedIsMarked(Foreign(p, content));
  }

  /** Uninstalling what an install wrote gives the user's text back: trimmed, with one line end, or
      nothing. A fresh install is undone; an upgrade ends where uninstalling right away would have. */
  lemma UninstallUndoesInstall(p: Patterns, content: string)
    requires Rewrites(InstallOf(p, content))
    ensures var w := Prepended(Foreign(p, content));
            UninstallOf(p, w) == (Removed, Tidy(Foreign(p, content)))
    ensures InstallOf(p, content) == Installed ==> Foreign(p, content) == content
    ensures InstallOf(p, content) == Upgraded && UninstallOf(p, content).0 != Malformed ==>
              UninstallOf(p, content) == (Removed, Tidy(Foreign(p, content)))
  {
    PrependedIsMarked(Foreign(p, content));
    TidyTwice(Join(OutsideTables(p, Lines(content))));
  }

  lemma TidyTwice(s: string)
    ensures Tidy(Tidy(s)) == Tidy(s)
  {
    var t := TrimSpace(s);
    TrimSpaceSplits(s);
    assert AllSpace("\n");
    if t != "" {
      TrimSpaceUndoes("", t, "\n");
      assert "" + t + "\n" == t + "\n";
    } else {
      assert TrimSpace("") == "";
    }
  }

  /** What the status tells about the next install. The advice given for a legacy table, to install, is
      refused exactly when the table is not the program's own. */
  lemma StatusPredictsInstall(p: Patterns, content: string)
    ensures StatusOf(p, content) == NotInstalled ==> InstallOf(p, content) == Installed
    ensures StatusOf(p, content) == StatusInstalled && !Contains(content, BEGIN) && !HasTable(p, Lines(content)) ==>
              InstallOf(p, content) == AlreadyInstalled
    ensures Marked(content) ==> InstallOf(p, content) == Upgraded
    ensures StatusOf(p, content) == CustomNotify ==> InstallOf(p, content) == Conflict
    ensures StatusOf(p, content) == LegacyNotifyTable ==>
              (InstallOf(p, content) == Conflict <==> !HasTable(p, Lines(content)))
    ensures InstallOf(p, content) == Conflict && !Contains(content, BEGIN) ==>
              StatusOf(p, content) == CustomNotify || StatusOf(p, content) == LegacyNotifyTable
  {
  }

  lemma NoHashNoBlock(content: string)
    requires '#' !in content
    ensures !Contains(content, BEGIN)
  {
    forall j: nat
      ensures !At(content, BEGIN, j)
    {
      assert BEGIN[0] == '#' && (j < |content| ==> content[j] in content);
      CharOf(content, BEGIN, j, 0);
    }
  }

  lemma NoTableOf(p: Patterns, line: string)
    requires !p.program(line)
    ensures !HasTable(p, [HEADER, line])
  {
    KindsAt(p, [HEADER, line], 1);
    var kinds := Kinds(p, [HEADER, line]);
    assert kinds[1] != Program;
  }

  /** For instance, over a table that runs another program, as in `program = ["mine"]`: the status advises to
      install, and the install refuses. Of the patterns only what they say of this text is asked. */
  lemma ForeignTableIsRefused(p: Patterns, line: string)
    requires '\n' !in line && '#' !in line && !p.program(line)
    requires p.table(Join([HEADER, line])) && !p.exact(Join([HEADER, line]))
    ensures var content := Join([HEADER, line]);
            StatusOf(p, content) == LegacyNotifyTable && InstallOf(p, content) == Conflict
  {
    var content := Join([HEADER, line]);
    LinesJoin([HEADER, line]);
    JoinCons(HEADER, [line]);
    assert [HEADER] + [line] == [HEADER, line] && Join([line]) == line;
    assert '#' !in content;
    NoHashNoBlock(content);
    NoTableOf(p, line);
  }

  /** A line on its own that only the pattern of a notify key matches is the user's setting. */
  lemma LoneKeyIsCustom(p: Patterns, line: string)
    requires '\n' !in line && '#' !in line
    requires p.key(line) && !p.exact(line) && !p.exactLine(line) && !p.table(line)
    ensures StatusOf(p, line) == CustomNotify && InstallOf(p, line) == Conflict
    ensures UninstallOf(p, line) == (NothingToRemove, line)
  {
    NoHashNoBlock(line);
    LinesOfOne(line);
    assert !HasTable(p, [line]);
  }

  lemma NotifyLineIsPlain()
    ensures '\n' !in NOTIFY_LINE && '#' !in NOTIFY_LINE
  {
  }

  /** The patterns for a line set by hand ask for another program name than the one NOTIFY_LINE has. So the very
      line that a refused install tells the user to set counts as the user's own: the status does not know it,
      the next install is refused again, and an uninstall leaves it. */
  lemma OwnLineIsRefused(p: Patterns)
    requires p.key(NOTIFY_LINE) && !p.exact(NOTIFY_LINE) && !p.exactLine(NOTIFY_LINE) && !p.table(NOTIFY_LINE)
    ensures StatusOf(p, NOTIFY_LINE) == CustomNotify && InstallOf(p, NOTIFY_LINE) == Conflict
    ensures UninstallOf(p, NOTIFY_LINE) == (NothingToRemove, NOTIFY_LINE)
  {
    NotifyLineIsPlain();
    LoneKeyIsCustom(p, NOTIFY_LINE);
  }

  /** The four answers of the status, from the patterns alone. */
  lemma StatusPartition(p: Patterns, content: string)
    ensures var ours := Contains(content, BEGIN) || p.exact(content);
            var tables := HasTable(p, Lines(content)) || p.table(content);
            && (StatusOf(p, content) == StatusInstalled <==> ours)
            && (StatusOf(p, content) == LegacyNotifyTable <==> !ours && tables)
            && (StatusOf(p, content) == CustomNotify <==> !ours && !tables && p.key(content))
  {
  }

  /** The four outcomes of an install. */
  lemma InstallPartition(p: Patterns, content: string)
    ensures var ours := Marked(content) || HasTable(p, Lines(content));
            && (InstallOf(p, content) == Upgraded <==> ours)
            && (InstallOf(p, content) == AlreadyInstalled <==> !ours && p.exact(content))
            && (InstallOf(p, content) == Conflict <==> !ours && !p.exact(content) && (p.key(content) || p.table(content)))
  {
  }

  /** When an uninstall refuses: a begin marker without an end marker behind it; and when it finds nothing. The file
      is then left as it is. */
  lemma UninstallRefusesIff(p: Patterns, content: string)
    ensures UninstallOf(p, content).0 == Malformed <==>
            Contains(content, BEGIN) && !Contains(content[Index(content, BEGIN)..], END)
    ensures UninstallOf(p, content).0 == NothingToRemove <==>
            !Contains(content, BEGIN) && !HasTable(p, Lines(content)) && forall line :: line in Lines(content) ==> !p.exactLine(line)
    ensures UninstallOf(p, content).0 != Removed ==> UninstallOf(p, content).1 == content
  {
  }

  /** Uninstalling takes the block with its markers, and what is left is tidied. */
  lemma UninstallTakesBlock(p: Patterns, before: string, inside: string, after: string)
    requires Index(before + BEGIN + inside + END + after, BEGIN) == |before|
    requires Index(BEGIN + inside + END + after, END) == |BEGIN| + |inside|
    ensures UninstallOf(p, before + BEGIN + inside + END + after) == (Removed, Tidy(before + after))
  {
    BlockIsCut(before, inside, after);
  }

  /** Uninstalling takes the legacy table out of the user's lines and leaves those above and below. */
  lemma UninstallTakesTable(p: Patterns, lines: seq<string>, i: nat, j: nat)
    requires Proper(p) && i < j < |lines| && !Contains(Join(lines), BEGIN)
    requires TrimSpace(lines[i]) == "[notify]" && p.program(lines[j])
    requires forall k :: i < k < j ==> TrimSpace(lines[k]) == ""
    requires forall k :: 0 <= k < |lines| && k != i ==> TrimSpace(lines[k]) != "[notify]"
    requires forall line :: line in lines ==> '\n' !in line
    ensures UninstallOf(p, Join(lines)) == (Removed, Tidy(Join(lines[..i] + lines[j + 1..])))
  {
    LinesJoin(lines);
    TableIsCut(p, lines, i, j);
  }

  /** Uninstalling takes the bare line out of the user's lines and leaves the others, above and below. */
  lemma UninstallTakesBareLine(p: Patterns, a: seq<string>, line: string, b: seq<string>)
    requires p.exactLine(line) && forall other :: other in a + b ==> !p.exactLine(other)
    requires forall other :: other in a + [line] + b ==> '\n' !in other
    requires !Contains(Join(a + [line] + b), BEGIN) && !HasTable(p, a + [line] + b)
    ensures UninstallOf(p, Join(a + [line] + b)) == (Removed, Tidy(Join(a + b)))
  {
    LinesJoin(a + [line] + b);
    BareLineIsCut(p, a, line, b);
    assert (a + [line] + b)[|a|] == line;
  }

  /** Uninstalling again and again comes to an end: each removal shortens the file. */
  lemma UninstallProgress(p: Patterns, content: string)
    requires Proper(p) && UninstallOf(p, content).0 == Removed
    ensures |UninstallOf(p, content).1| < |content|
  {
    if Marked(content) {
      TrimSpaceSplits(WithoutBlock(content));
      assert |WithoutBlock(content)| + |END| <= |content|;
    } else if HasTable(p, Lines(content)) {
      RemovingShortens(p, content);
    } else {
      RemovingLinesShortens(p, content);
    }
  }
}
