/** A reorderer with nothing after it: the remote and try commands parse what their table reordered. On every
    command line, terminators and lone dashes included, when that means what the user wrote. */
module FlagAlone {
  import opened FlagArgs
  import opened FlagReorder
  import opened FlagTerminator

  /** A lone dash among the positionals has neither a flag nor a terminator behind it: Go's parser stops at it once
      it is moved to the front. */
  predicate LoneDashLast(fs: FlagSet, args: seq<string>) {
    if args == [] || args[0] == TERMINATOR then true
    else if args[0] == "-" then NoFlag(args[1..])
    else if !IsFlag(args[0]) then LoneDashLast(fs, args[1..])
    else
      match TakeFlag(fs, args)
      case Refused(_) => true
      case Took(_, used) => LoneDashLast(fs, args[used..])
  }

  /** Such a reorderer takes a terminator and a lone dash for flags without a value. */
  ghost predicate StandsAlone(q: Reading) {
    && !q.stopsAtTerminator && (forall arg :: IsFlag(arg) ==> q.isFlag(arg)) && q.isFlag("-")
    && !q.takesValue(TERMINATOR) && !q.takesValue("-")
  }

  predicate NoFlag(args: seq<string>) {
    forall a :: a in args ==> !IsFlag(a)
  }

  /** When the meaning is kept: a lone dash comes last; a last flag without its value has no positional before it;
      and when nothing is wrong with the flags, the dash-led positionals stand first. `before` holds the positionals
      already read. */
  predicate AloneKeeps(fs: FlagSet, q: Reading, args: seq<string>, before: seq<string>) {
    var s := ScanArgs(fs, args);
    LoneDashLast(fs, args) &&
    match s.ending
    case MissingValue => |before| + s.positionals == 0
    case OtherError => true
    case _ => FlagsFirst(q, before + Back(Normalizing(fs), args))
  }

  predicate AloneAgrees(fs: FlagSet, q: Reading, args: seq<string>, before: seq<string>) {
    GoParse(fs, Front(q, args) + (before + Back(q, args))) == WithPositionals(before, InterspersedParse(fs, args))
  }

  // ---------- the end, and the terminator ----------

  lemma {:induction false} BareAhead(q: Reading, before: seq<string>, rest: seq<string>)
    requires !q.stopsAtTerminator && AllBare(q, before)
    ensures Front(q, before + rest) == Front(q, rest) && Back(q, before + rest) == before + Back(q, rest)
  {
    if before == [] {
      assert before + rest == rest;
    } else {
      BareAhead(q, before[1..], rest);
      BareGoesBack(q, before[0], before[1..] + rest);
      assert before + rest == [before[0]] + (before[1..] + rest);
      assert before == [before[0]] + before[1..];
      Regroup([before[0]], before[1..], Back(q, rest));
    }
  }

  /** Positionals before a stretch that moves on its own. */
  lemma InPlaceAfterBare(q: Reading, before: seq<string>, rest: seq<string>)
    requires !q.stopsAtTerminator && AllBare(q, before)
    ensures Front(q, rest) + (before + Back(q, rest)) == before + rest <==> FlagsFirst(q, before + rest)
  {
    BareAhead(q, before, rest);
    InPlaceIffFlagsFirst(q, before + rest);
  }

  lemma EndCase(fs: FlagSet, q: Reading, before: seq<string>)
    requires StandsAlone(q) && AllBare(q, before)
    ensures AloneAgrees(fs, q, [], before) && AloneKeeps(fs, q, [], before)
  {
    assert [] + (before + []) == before && before + [] == before;
    assert before != [] ==> before[0] in before;
  }

  lemma ParseAtTerminator(fs: FlagSet, rest: seq<string>)
    ensures GoParse(fs, [TERMINATOR] + rest) == InterspersedParse(fs, [TERMINATOR] + rest) == Parsed([], rest)
    ensures ScanArgs(fs, [TERMINATOR] + rest).ending == Terminated(rest) && LoneDashLast(fs, [TERMINATOR] + rest)
  {
    assert ([TERMINATOR] + rest)[1..] == rest;
  }

  lemma TerminatorCase(fs: FlagSet, q: Reading, rest: seq<string>, before: seq<string>)
    requires StandsAlone(q) && AllBare(q, before)
    ensures AloneAgrees(fs, q, [TERMINATOR] + rest, before) <==> AloneKeeps(fs, q, [TERMINATOR] + rest, before)
  {
    var moved := Front(q, rest) + (before + Back(q, rest));
    FlagGoesFirst(q, TERMINATOR, rest);
    Regroup([TERMINATOR], Front(q, rest), before + Back(q, rest));
    ParseAtTerminator(fs, moved);
    ParseAtTerminator(fs, rest);
    TerminatorEnds(Normalizing(fs), rest);
    InPlaceAfterBare(q, before, rest);
  }

  // ---------- a lone dash ----------

  lemma BareFirst(fs: FlagSet, arg: string, rest: seq<string>)
    requires !IsFlag(arg)
    ensures InterspersedParse(fs, [arg] + rest) == WithPositionals([arg], InterspersedParse(fs, rest))
    ensures ScanArgs(fs, [arg] + rest).ending == ScanArgs(fs, rest).ending
    ensures Back(Normalizing(fs), [arg] + rest) == [arg] + Back(Normalizing(fs), rest)
  {
    BareGoesBack(Normalizing(fs), arg, rest);
    assert ([arg] + rest)[1..] == rest;
  }

  lemma {:induction false} NothingButBare(fs: FlagSet, args: seq<string>)
    requires NoFlag(args)
    ensures InterspersedParse(fs, args) == Parsed([], args)
    ensures ScanArgs(fs, args).ending == EndOfArgs && Back(Normalizing(fs), args) == args
  {
    if args != [] {
      NothingButBare(fs, args[1..]);
      BareFirst(fs, args[0], args[1..]);
      assert args == [args[0]] + args[1..];
    }
  }

  /** A flag or a terminator among them leaves its trace in the parse. */
  predicate Plain(p: Parse, n: nat) {
    p.Parsed? && p.settings == [] && |p.positional| == n
  }

  lemma {:induction false} FlagLeavesTrace(fs: FlagSet, args: seq<string>)
    requires !NoFlag(args)
    ensures !Plain(InterspersedParse(fs, args), |args|)
  {
    if args[0] != TERMINATOR && !IsFlag(args[0]) {
      assert args == [args[0]] + args[1..];
      FlagLeavesTrace(fs, args[1..]);
    }
  }

  lemma ParseAtDash(fs: FlagSet, rest: seq<string>)
    ensures GoParse(fs, ["-"] + rest) == Parsed([], ["-"] + rest)
    ensures InterspersedParse(fs, ["-"] + rest) == WithPositionals(["-"], InterspersedParse(fs, rest))
  {
    assert (["-"] + rest)[1..] == rest;
  }

  lemma MovedLength(q: Reading, args: seq<string>)
    requires !q.stopsAtTerminator
    ensures |Front(q, args)| + |Back(q, args)| == |args|
  {
    NothingDropped(q, args);
    assert |multiset(Arrange(q, args))| == |multiset(args)|;
  }

  lemma DashCase(fs: FlagSet, q: Reading, rest: seq<string>, before: seq<string>)
    requires StandsAlone(q) && AllBare(q, before)
    ensures AloneAgrees(fs, q, ["-"] + rest, before) <==> AloneKeeps(fs, q, ["-"] + rest, before)
  {
    var args := ["-"] + rest;
    var moved := Front(q, rest) + (before + Back(q, rest));
    FlagGoesFirst(q, "-", rest);
    Regroup(["-"], Front(q, rest), before + Back(q, rest));
    ParseAtDash(fs, moved);
    ParseAtDash(fs, rest);
    assert args[1..] == rest;
    assert GoParse(fs, Front(q, args) + (before + Back(q, args))) == Parsed([], ["-"] + moved);
    if NoFlag(rest) {
      NothingButBare(fs, rest);
      NothingButBare(fs, args);
      InPlaceAfterBare(q, before, args);
    } else {
      FlagLeavesTrace(fs, rest);
      MovedLength(q, rest);
    }
  }

  // ---------- a positional, and a flag ----------

  lemma PositionalKeeps(fs: FlagSet, q: Reading, args: seq<string>, before: seq<string>)
    requires args != [] && args[0] != TERMINATOR && args[0] != "-" && !IsFlag(args[0])
    ensures AloneKeeps(fs, q, args, before) == AloneKeeps(fs, q, args[1..], before + [args[0]])
  {
    ArrangeStep(Normalizing(fs), args);
    Regroup(before, [args[0]], Back(Normalizing(fs), args[1..]));
  }

  lemma PositionalCase(fs: FlagSet, q: Reading, args: seq<string>, before: seq<string>)
    requires !q.stopsAtTerminator && args != [] && args[0] != TERMINATOR && !IsFlag(args[0]) && !q.isFlag(args[0])
    ensures AloneAgrees(fs, q, args, before) == AloneAgrees(fs, q, args[1..], before + [args[0]])
  {
    BareArrangement(q, args, before);
    BareParse(fs, args, before);
  }

  /** The flag at the front is read as one unit by both. */
  predicate OneUnit(fs: FlagSet, q: Reading, args: seq<string>) {
    && args != [] && args[0] != TERMINATOR && IsFlag(args[0]) && !q.stopsAtTerminator && q.isFlag(args[0])
    && TakesValue(fs, args[0]) == q.takesValue(args[0])
  }

  lemma UnitArrangement(fs: FlagSet, q: Reading, args: seq<string>, before: seq<string>)
    requires OneUnit(fs, q, args)
    ensures var n := UnitLength(Normalizing(fs), args);
            Front(q, args) + (before + Back(q, args))
            == args[..n] + (Front(q, args[n..]) + (before + Back(q, args[n..])))
  {
    var n := UnitLength(Normalizing(fs), args);
    FlagMoves(q, args);
    Regroup(args[..n], Front(q, args[n..]), before + Back(q, args[n..]));
  }

  lemma TakenAgrees(fs: FlagSet, q: Reading, args: seq<string>, before: seq<string>)
    requires OneUnit(fs, q, args) && TakeFlag(fs, args).Took?
    ensures AloneAgrees(fs, q, args, before) == AloneAgrees(fs, q, args[TakeFlag(fs, args).used..], before)
  {
    var s := TakeFlag(fs, args);
    FlagTakesItsUnit(fs, args);
    UnitArrangement(fs, q, args, before);
    var rest := Front(q, args[s.used..]) + (before + Back(q, args[s.used..]));
    FlagIsItsUnit(fs, args, rest);
    var moved := args[..s.used] + rest;
    assert moved[0] == args[0] && moved[s.used..] == rest;
    assert GoParse(fs, moved) == After(s.assignment, GoParse(fs, rest));
    var p := InterspersedParse(fs, args[s.used..]);
    assert WithPositionals(before, After(s.assignment, p)) == After(s.assignment, WithPositionals(before, p));
    AfterDiffers(s.assignment, GoParse(fs, rest), WithPositionals(before, p));
  }

  lemma TakenKeeps(fs: FlagSet, q: Reading, args: seq<string>, before: seq<string>)
    requires OneUnit(fs, q, args) && TakeFlag(fs, args).Took?
    ensures AloneKeeps(fs, q, args, before) == AloneKeeps(fs, q, args[TakeFlag(fs, args).used..], before)
  {
    TakenSkips(fs, args);
  }

  lemma TakenSkips(fs: FlagSet, args: seq<string>)
    requires args != [] && args[0] != TERMINATOR && IsFlag(args[0]) && TakeFlag(fs, args).Took?
    ensures var rest := args[TakeFlag(fs, args).used..];
            && ScanArgs(fs, args) == ScanArgs(fs, rest) && LoneDashLast(fs, args) == LoneDashLast(fs, rest)
            && Back(Normalizing(fs), args) == Back(Normalizing(fs), rest)
  {
    FlagTakesItsUnit(fs, args);
    FlagMoves(Normalizing(fs), args);
  }

  lemma MissingCase(fs: FlagSet, q: Reading, args: seq<string>, before: seq<string>)
    requires OneUnit(fs, q, args) && TakeFlag(fs, args).Refused? && TakeFlag(fs, args).error.NeedsArgument?
    ensures AloneAgrees(fs, q, args, before) <==> AloneKeeps(fs, q, args, before)
  {
    FlagTakesItsUnit(fs, args);
    assert args == [args[0]];
    AloneGoesFirst(q, args[0]);
    assert before + [] == before;
    ValueTaken(fs, args[0], before);
  }

  lemma RefusedCase(fs: FlagSet, q: Reading, args: seq<string>, before: seq<string>)
    requires OneUnit(fs, q, args) && TakeFlag(fs, args).Refused? && !TakeFlag(fs, args).error.NeedsArgument?
    ensures AloneAgrees(fs, q, args, before) && AloneKeeps(fs, q, args, before)
  {
    var n := UnitLength(Normalizing(fs), args);
    var rest := Front(q, args[n..]) + (before + Back(q, args[n..]));
    UnitArrangement(fs, q, args, before);
    FlagIsItsUnit(fs, args, rest);
    assert (args[..n] + rest)[0] == args[0];
  }

  // ---------- the whole line ----------

  lemma FirstAlike(r: Reading, q: Reading, args: seq<string>)
    requires args != [] && args[0] != TERMINATOR && AlikeToTerminator(r, q, args)
    ensures AlikeToTerminator(r, q, args[UnitLength(r, args)..]) && ReadAlike(r, q, args[0])
  {
  }

  /** The two sides agree at this point of the reading. */
  predicate SidesMeet(fs: FlagSet, q: Reading, args: seq<string>, before: seq<string>) {
    AloneAgrees(fs, q, args, before) <==> AloneKeeps(fs, q, args, before)
  }

  lemma OneMoreBare(q: Reading, before: seq<string>, arg: string)
    requires AllBare(q, before) && !q.isFlag(arg)
    ensures AllBare(q, before + [arg])
  {
  }

  /** At a terminator, and at a lone dash, the reading is decided. */
  lemma EndStep(fs: FlagSet, q: Reading, args: seq<string>, before: seq<string>)
    requires StandsAlone(q) && AllBare(q, before)
    requires args != [] && (args[0] == TERMINATOR || args[0] == "-")
    ensures SidesMeet(fs, q, args, before)
  {
    HeadAndTail(args);
    Decided(fs, q, args, args[0], args[1..], before);
  }

  lemma HeadAndTail(args: seq<string>)
    requires args != []
    ensures args == [args[0]] + args[1..]
  {
  }

  lemma Decided(fs: FlagSet, q: Reading, args: seq<string>, head: string, rest: seq<string>, before: seq<string>)
    requires StandsAlone(q) && AllBare(q, before)
    requires args == [head] + rest && (head == TERMINATOR || head == "-")
    ensures SidesMeet(fs, q, args, before)
  {
    if head == TERMINATOR {
      TerminatorCase(fs, q, rest, before);
    } else {
      DashCase(fs, q, rest, before);
    }
  }

  lemma PositionalStep(fs: FlagSet, q: Reading, args: seq<string>, before: seq<string>)
    requires !q.stopsAtTerminator && args != [] && args[0] != TERMINATOR && args[0] != "-"
    requires !IsFlag(args[0]) && !q.isFlag(args[0])
    requires SidesMeet(fs, q, args[1..], before + [args[0]])
    ensures SidesMeet(fs, q, args, before)
  {
    PositionalCase(fs, q, args, before);
    PositionalKeeps(fs, q, args, before);
  }

  lemma TakenStep(fs: FlagSet, q: Reading, args: seq<string>, before: seq<string>)
    requires OneUnit(fs, q, args) && TakeFlag(fs, args).Took?
    requires SidesMeet(fs, q, args[TakeFlag(fs, args).used..], before)
    ensures SidesMeet(fs, q, args, before)
  {
    TakenAgrees(fs, q, args, before);
    TakenKeeps(fs, q, args, before);
  }

  lemma RefusalCases(fs: FlagSet, q: Reading, args: seq<string>, before: seq<string>)
    requires OneUnit(fs, q, args) && TakeFlag(fs, args).Refused?
    ensures SidesMeet(fs, q, args, before)
  {
    if TakeFlag(fs, args).error.NeedsArgument? {
      MissingCase(fs, q, args, before);
    } else {
      RefusedCase(fs, q, args, before);
    }
  }

  lemma {:induction false} AloneAgreesIff(fs: FlagSet, q: Reading, args: seq<string>, before: seq<string>)
    requires StandsAlone(q) && AllBare(q, before) && AlikeToTerminator(Normalizing(fs), q, args)
    ensures SidesMeet(fs, q, args, before)
    decreases |args|
  {
    if args == [] {
      EndCase(fs, q, before);
    } else if args[0] == TERMINATOR {
      EndStep(fs, q, args, before);
    } else {
      FirstAlike(Normalizing(fs), q, args);
      if args[0] == "-" {
        EndStep(fs, q, args, before);
      } else if !IsFlag(args[0]) {
        OneMoreBare(q, before, args[0]);
        AloneAgreesIff(fs, q, args[1..], before + [args[0]]);
        PositionalStep(fs, q, args, before);
      } else if TakeFlag(fs, args).Took? {
        FlagTakesItsUnit(fs, args);
        AloneAgreesIff(fs, q, args[TakeFlag(fs, args).used..], before);
        TakenStep(fs, q, args, before);
      } else {
        RefusalCases(fs, q, args, before);
      }
    }
  }

  /** A fitting table of spellings on its own, over every command line that spells its flags up to a terminator:
      Go's parse of the reordered arguments is what the user wrote, errors included, if and only if a lone dash
      comes last, a last flag without its value has no positional before it, and the dash-led positionals stand
      first. */
  lemma SpellingTableKeepsMeaningIff(fs: FlagSet, table: set<string>, args: seq<string>)
    requires SpellingTableFits(fs, table) && TERMINATOR !in table && "-" !in table && SpelledToTerminator(fs, args)
    ensures GoParse(fs, Arrange(BySpelling(table), args)) == InterspersedParse(fs, args)
            <==> AloneKeeps(fs, BySpelling(table), args, [])
  {
    var q := BySpelling(table);
    FittingSpellingsAlike(fs, table, args);
    AloneAgreesIff(fs, q, args, []);
    EmptyBefore(Front(q, args), Back(q, args), InterspersedParse(fs, args));
  }
}
