/** Command lines with a terminator or a lone dash. `NormalizeArgs` ends at the terminator and keeps a lone dash
    as a positional; the hand-written reorderers before it move the terminator to the front as a flag, and those
    with a table of spellings the lone dash too. */
module FlagTerminator {
  import opened FlagArgs
  import opened FlagReorder

  /** `r` reads like `NormalizeArgs`, and `q` like a reorderer before it. */
  ghost predicate Readings(r: Reading, q: Reading) {
    && (forall arg :: r.isFlag(arg) ==> q.isFlag(arg))
    && r.stopsAtTerminator && !r.isFlag("-")
    && !q.stopsAtTerminator && q.isFlag(TERMINATOR) && !q.takesValue(TERMINATOR) && !q.takesValue("-")
  }

  /** Both read the argument alike; for a lone dash it does not matter. */
  predicate ReadAlike(r: Reading, q: Reading, arg: string) {
    arg == "-" || (r.isFlag(arg) == q.isFlag(arg) && (r.isFlag(arg) ==> r.takesValue(arg) == q.takesValue(arg)))
  }

  /** They read alike whatever stands where a flag or a positional can, up to a terminator. */
  predicate AlikeToTerminator(r: Reading, q: Reading, args: seq<string>) {
    || args == [] || args[0] == TERMINATOR
    || (ReadAlike(r, q, args[0]) && AlikeToTerminator(r, q, args[UnitLength(r, args)..]))
  }

  /** The last argument is a flag whose value is missing. */
  predicate LacksValue(r: Reading, args: seq<string>) {
    && args != [] && args[0] != TERMINATOR
    && ((|args| == 1 && r.isFlag(args[0]) && r.takesValue(args[0])) || LacksValue(r, args[UnitLength(r, args)..]))
  }

  /** Among the positionals, those behind a terminator included, the ones the reorderer takes for flags come
      first; or right after the first of the others, when a last flag lacks its value, which that one becomes. */
  predicate DashLedFirst(r: Reading, q: Reading, args: seq<string>) {
    var positionals := Back(r, args);
    if LacksValue(r, args) && Back(q, positionals) != [] then
      positionals != [] && !q.isFlag(positionals[0]) && FlagsFirst(q, positionals[1..])
    else FlagsFirst(q, positionals)
  }

  // ---------- what a second move makes of the first ----------

  /** What the second reading makes of the moved flags with `bare` behind them: `front` and `back`, where the first
      made `flags`, and moved `rest` forward among the positionals. A last flag that lacks its value takes the
      first of `bare`. */
  predicate MovedOn(lacks: bool, flags: seq<string>, rest: seq<string>, bare: seq<string>,
                    front: seq<string>, back: seq<string>)
  {
    if lacks && bare != [] then front == flags + [bare[0]] && back == rest + bare[1..]
    else front == flags && back == rest + bare
  }

  lemma MovedUnit(unit: seq<string>, lacks: bool, flags: seq<string>, rest: seq<string>, bare: seq<string>,
                  front: seq<string>, back: seq<string>)
    requires MovedOn(lacks, flags, rest, bare, front, back)
    ensures MovedOn(lacks, unit + flags, rest, bare, unit + front, back)
  {
    assert lacks && bare != [] ==> unit + (flags + [bare[0]]) == (unit + flags) + [bare[0]];
  }

  lemma MovedDash(dash: string, lacks: bool, flags: seq<string>, rest: seq<string>, bare: seq<string>,
                  front: seq<string>, back: seq<string>)
    requires MovedOn(lacks, flags, rest, bare, front, back)
    ensures MovedOn(lacks, flags, [dash] + rest, bare, front, [dash] + back)
  {
    assert [dash] + (rest + bare) == ([dash] + rest) + bare;
    assert bare != [] ==> [dash] + (rest + bare[1..]) == ([dash] + rest) + bare[1..];
  }

  predicate AllBare(r: Reading, args: seq<string>) {
    forall a :: a in args ==> !r.isFlag(a)
  }

  lemma TerminatorEnds(r: Reading, rest: seq<string>)
    requires r.stopsAtTerminator
    ensures Front(r, [TERMINATOR] + rest) == [] && Back(r, [TERMINATOR] + rest) == rest
  {
    var args := [TERMINATOR] + rest;
    assert args[1..] == rest;
    BareRun(Units(r, args), rest);
  }

  /** A reading that does not stop, at a flag without a value. */
  lemma FlagGoesFirst(q: Reading, arg: string, rest: seq<string>)
    requires !q.stopsAtTerminator && q.isFlag(arg) && !q.takesValue(arg)
    ensures Front(q, [arg] + rest) == [arg] + Front(q, rest) && Back(q, [arg] + rest) == Back(q, rest)
  {
    assert ([arg] + rest)[1..] == rest;
    ArrangeStep(q, [arg] + rest);
  }

  lemma BareGoesBack(r: Reading, arg: string, rest: seq<string>)
    requires !r.isFlag(arg) && (r.stopsAtTerminator ==> arg != TERMINATOR)
    ensures Front(r, [arg] + rest) == Front(r, rest) && Back(r, [arg] + rest) == [arg] + Back(r, rest)
  {
    assert ([arg] + rest)[1..] == rest;
    ArrangeStep(r, [arg] + rest);
  }

  /** The second reading of what the first moves, with `bare` behind the flags. */
  predicate SecondMove(r: Reading, q: Reading, args: seq<string>, bare: seq<string>) {
    var x := Front(q, args) + bare;
    && MovedOn(LacksValue(r, args), Front(r, args), Front(q, Back(r, args)), bare, Front(r, x), Back(r, x))
    && Back(q, args) == Back(q, Back(r, args))
  }

  lemma AtTerminator(r: Reading, q: Reading, rest: seq<string>, bare: seq<string>)
    requires Readings(r, q)
    ensures SecondMove(r, q, [TERMINATOR] + rest, bare)
  {
    TerminatorEnds(r, rest);
    FlagGoesFirst(q, TERMINATOR, rest);
    TerminatorEnds(r, Front(q, rest) + bare);
    Regroup([TERMINATOR], Front(q, rest), bare);
    assert !LacksValue(r, [TERMINATOR] + rest);
  }

  lemma SkipsBare(r: Reading, arg: string, rest: seq<string>)
    requires !r.isFlag(arg) && arg != TERMINATOR
    ensures LacksValue(r, [arg] + rest) == LacksValue(r, rest)
  {
    assert ([arg] + rest)[1..] == rest;
  }

  lemma AtBare(r: Reading, q: Reading, arg: string, rest: seq<string>, bare: seq<string>)
    requires arg != TERMINATOR && !r.isFlag(arg) && !q.isFlag(arg) && !q.stopsAtTerminator
    requires SecondMove(r, q, rest, bare)
    ensures SecondMove(r, q, [arg] + rest, bare)
  {
    BareGoesBack(r, arg, rest);
    BareGoesBack(q, arg, rest);
    BareGoesBack(q, arg, Back(r, rest));
    SkipsBare(r, arg, rest);
  }

  lemma AtLoneDash(r: Reading, q: Reading, rest: seq<string>, bare: seq<string>)
    requires Readings(r, q) && q.isFlag("-") && SecondMove(r, q, rest, bare)
    ensures SecondMove(r, q, ["-"] + rest, bare)
  {
    var x := Front(q, rest) + bare;
    BareGoesBack(r, "-", rest);
    FlagGoesFirst(q, "-", rest);
    FlagGoesFirst(q, "-", Back(r, rest));
    BareGoesBack(r, "-", x);
    Regroup(["-"], Front(q, rest), bare);
    SkipsBare(r, "-", rest);
    MovedDash("-", LacksValue(r, rest), Front(r, rest), Front(q, Back(r, rest)), bare, Front(r, x), Back(r, x));
  }

  /** A flag with its value, or one that takes none. */
  predicate WholeUnit(r: Reading, unit: seq<string>) {
    && 1 <= |unit| <= 2 && r.isFlag(unit[0]) && (r.stopsAtTerminator ==> unit[0] != TERMINATOR)
    && (|unit| == 2 <==> r.takesValue(unit[0]))
  }

  lemma UnitGoesFirst(r: Reading, unit: seq<string>, rest: seq<string>)
    requires WholeUnit(r, unit)
    ensures Front(r, unit + rest) == unit + Front(r, rest) && Back(r, unit + rest) == Back(r, rest)
  {
    var args := unit + rest;
    assert args[0] == unit[0] && UnitLength(r, args) == |unit|;
    FlagMoves(r, args);
    assert args[..|unit|] == unit && args[|unit|..] == rest;
  }

  lemma SkipsUnit(r: Reading, unit: seq<string>, rest: seq<string>)
    requires WholeUnit(r, unit) && unit[0] != TERMINATOR
    ensures LacksValue(r, unit + rest) == LacksValue(r, rest)
  {
    var args := unit + rest;
    assert args[0] == unit[0] && UnitLength(r, args) == |unit| && args[|unit|..] == rest;
  }

  lemma AtUnit(r: Reading, q: Reading, unit: seq<string>, rest: seq<string>, bare: seq<string>)
    requires WholeUnit(r, unit) && WholeUnit(q, unit) && unit[0] != TERMINATOR && SecondMove(r, q, rest, bare)
    ensures SecondMove(r, q, unit + rest, bare)
  {
    var x := Front(q, rest) + bare;
    UnitGoesFirst(r, unit, rest);
    UnitGoesFirst(q, unit, rest);
    UnitGoesFirst(r, unit, x);
    Regroup(unit, Front(q, rest), bare);
    SkipsUnit(r, unit, rest);
    MovedUnit(unit, LacksValue(r, rest), Front(r, rest), Front(q, Back(r, rest)), bare, Front(r, x), Back(r, x));
  }

  lemma AtEnd(r: Reading, q: Reading, bare: seq<string>)
    requires Readings(r, q) && AllBare(r, bare) && TERMINATOR !in bare
    ensures SecondMove(r, q, [], bare)
  {
    BareArgsStay(r, bare);
    assert [] + bare == bare;
  }

  lemma AloneGoesFirst(r: Reading, flag: string)
    requires r.isFlag(flag) && (r.stopsAtTerminator ==> flag != TERMINATOR)
    ensures Front(r, [flag]) == [flag] && Back(r, [flag]) == []
  {
    ArrangeStep(r, [flag]);
    assert [flag] + [] == [flag] && [flag][1..] == [];
  }

  /** A last flag that lacks its value takes the first of `bare`. */
  lemma AtLastFlag(r: Reading, q: Reading, flag: string, bare: seq<string>)
    requires Readings(r, q) && AllBare(r, bare) && TERMINATOR !in bare && flag != TERMINATOR
    requires r.isFlag(flag) && r.takesValue(flag) && q.isFlag(flag) && q.takesValue(flag)
    ensures SecondMove(r, q, [flag], bare)
  {
    AloneGoesFirst(r, flag);
    AloneGoesFirst(q, flag);
    assert LacksValue(r, [flag]);
    if bare == [] {
      assert [flag] + bare == [flag];
    } else {
      UnitGoesFirst(r, [flag, bare[0]], bare[1..]);
      BareArgsStay(r, bare[1..]);
      assert [flag] + bare == [flag, bare[0]] + bare[1..];
      assert [flag, bare[0]] + [] == [flag] + [bare[0]];
      assert [] + bare[1..] == bare[1..];
    }
  }

  /** The first unit, when it is not a last flag without its value. */
  lemma AtFirst(r: Reading, q: Reading, args: seq<string>, bare: seq<string>)
    requires Readings(r, q) && args != [] && args[0] != TERMINATOR && ReadAlike(r, q, args[0])
    requires !(|args| == 1 && r.isFlag(args[0]) && r.takesValue(args[0]))
    requires SecondMove(r, q, args[UnitLength(r, args)..], bare)
    ensures SecondMove(r, q, args, bare)
  {
    var n := UnitLength(r, args);
    assert args == args[..n] + args[n..];
    if r.isFlag(args[0]) {
      AtUnit(r, q, args[..n], args[n..], bare);
    } else {
      assert args[..n] == [args[0]];
      if q.isFlag(args[0]) {
        AtLoneDash(r, q, args[n..], bare);
      } else {
        AtBare(r, q, args[0], args[n..], bare);
      }
    }
  }

  lemma {:induction false} MovedAgain(r: Reading, q: Reading, args: seq<string>, bare: seq<string>)
    requires Readings(r, q) && AlikeToTerminator(r, q, args) && AllBare(r, bare) && TERMINATOR !in bare
    ensures SecondMove(r, q, args, bare)
  {
    if args == [] {
      AtEnd(r, q, bare);
    } else if args[0] == TERMINATOR {
      assert args == [TERMINATOR] + args[1..];
      AtTerminator(r, q, args[1..], bare);
    } else if |args| == 1 && r.isFlag(args[0]) && r.takesValue(args[0]) {
      assert args == [args[0]];
      AtLastFlag(r, q, args[0], bare);
    } else {
      MovedAgain(r, q, args[UnitLength(r, args)..], bare);
      AtFirst(r, q, args, bare);
    }
  }

  // ---------- when the second move undoes the first ----------

  lemma InPlaceIffFlagsFirst(q: Reading, args: seq<string>)
    requires !q.stopsAtTerminator
    ensures Arrange(q, args) == args <==> FlagsFirst(q, args)
  {
    if FlagsFirst(q, args) {
      FlagsFirstStay(q, args);
    }
    NeverMeetsTerminator(q, args);
    BackIsBare(q, args);
    FrontComesFirst(q, args, Back(q, args));
  }

  lemma OneThenFlagsFirst(q: Reading, args: seq<string>)
    requires !q.stopsAtTerminator && Back(q, args) != []
    ensures args == [Back(q, args)[0]] + (Front(q, args) + Back(q, args)[1..])
            <==> args != [] && !q.isFlag(args[0]) && FlagsFirst(q, args[1..])
  {
    NeverMeetsTerminator(q, args);
    BackIsBare(q, args);
    assert !q.isFlag(([Back(q, args)[0]] + (Front(q, args) + Back(q, args)[1..]))[0]);
    if args != [] && !q.isFlag(args[0]) {
      var rest := args[1..];
      assert args == [args[0]] + rest;
      BareGoesBack(q, args[0], rest);
      InPlaceIffFlagsFirst(q, rest);
      assert ([args[0]] + Back(q, rest))[1..] == Back(q, rest);
      SameAfter([args[0]], rest, Arrange(q, rest));
    }
  }

  lemma SameAfter(a: seq<string>, b: seq<string>, c: seq<string>)
    ensures a + b == a + c <==> b == c
  {
    assert (a + b)[|a|..] == b && (a + c)[|a|..] == c;
  }

  /** On one command line, terminators and lone dashes included, and read alike up to its terminator: reordering
      first changes nothing if and only if the dash-led positionals stand first. */
  lemma HarmlessIffDashLedFirst(r: Reading, q: Reading, args: seq<string>)
    requires Readings(r, q) && AlikeToTerminator(r, q, args)
    ensures Arrange(r, Arrange(q, args)) == Arrange(r, args) <==> DashLedFirst(r, q, args)
  {
    var bare, flags, positionals := Back(q, args), Front(r, args), Back(r, args);
    NeverMeetsTerminator(q, args);
    BackIsBare(q, args);
    MovedAgain(r, q, args, bare);
    if LacksValue(r, args) && bare != [] {
      OneThenFlagsFirst(q, positionals);
      Regroup(flags, [bare[0]], Front(q, positionals) + bare[1..]);
      SameAfter(flags, [bare[0]] + (Front(q, positionals) + bare[1..]), positionals);
    } else {
      InPlaceIffFlagsFirst(q, positionals);
      SameAfter(flags, Arrange(q, positionals), positionals);
    }
  }

  // ---------- the tables ----------

  /** Every flag up to a terminator names a defined one or carries its value. */
  predicate DefinedToTerminator(fs: FlagSet, args: seq<string>) {
    || args == [] || args[0] == TERMINATOR
    || ((IsFlag(args[0]) && '=' !in args[0] ==> TrimLeftDashes(args[0]) in fs.kinds && WellNamed(TrimLeftDashes(args[0])))
        && DefinedToTerminator(fs, args[UnitLength(Normalizing(fs), args)..]))
  }

  lemma {:induction false} FittingNamesAlike(fs: FlagSet, table: set<string>, args: seq<string>)
    requires TableFits(fs, table) && DefinedToTerminator(fs, args)
    ensures AlikeToTerminator(Normalizing(fs), ByName(table), args)
  {
    if args != [] && args[0] != TERMINATOR {
      FittingNamesAlike(fs, table, args[UnitLength(Normalizing(fs), args)..]);
      TrimKeepsEquals(args[0]);
    }
  }

  /** The table of names before normalizing, on command lines with terminators too. */
  lemma NameTableHarmlessIff(fs: FlagSet, table: set<string>, args: seq<string>)
    requires TableFits(fs, table) && "" !in table && DefinedToTerminator(fs, args)
    ensures ReorderIsHarmless(fs, table, args) <==> DashLedFirst(Normalizing(fs), ByName(table), args)
  {
    FittingNamesAlike(fs, table, args);
    assert TrimLeftDashes(TERMINATOR) == TrimLeftDashes("-") == "";
    HarmlessIffDashLedFirst(Normalizing(fs), ByName(table), args);
  }

  /** Every flag up to a terminator is a spelling of a defined one or carries its value. */
  predicate SpelledToTerminator(fs: FlagSet, args: seq<string>) {
    || args == [] || args[0] == TERMINATOR
    || ((IsFlag(args[0]) && '=' !in args[0] ==>
           TrimLeftDashes(args[0]) in fs.kinds && WellNamed(TrimLeftDashes(args[0]))
           && IsSpelling(args[0], TrimLeftDashes(args[0])))
        && SpelledToTerminator(fs, args[UnitLength(Normalizing(fs), args)..]))
  }

  lemma {:induction false} FittingSpellingsAlike(fs: FlagSet, table: set<string>, args: seq<string>)
    requires SpellingTableFits(fs, table) && SpelledToTerminator(fs, args)
    ensures AlikeToTerminator(Normalizing(fs), BySpelling(table), args)
  {
    if args != [] && args[0] != TERMINATOR {
      FittingSpellingsAlike(fs, table, args[UnitLength(Normalizing(fs), args)..]);
      TrimKeepsEquals(args[0]);
    }
  }

  /** A table of spellings before normalizing, on command lines with terminators and lone dashes too. */
  lemma SpellingTableHarmlessIff(fs: FlagSet, table: set<string>, args: seq<string>)
    requires SpellingTableFits(fs, table) && TERMINATOR !in table && "-" !in table && SpelledToTerminator(fs, args)
    ensures Arrange(Normalizing(fs), Arrange(BySpelling(table), args)) == Arrange(Normalizing(fs), args)
            <==> DashLedFirst(Normalizing(fs), BySpelling(table), args)
  {
    FittingSpellingsAlike(fs, table, args);
    HarmlessIffDashLedFirst(Normalizing(fs), BySpelling(table), args);
  }

  // ---------- inputs ----------

  lemma ThreeMove(q: Reading)
    requires !q.stopsAtTerminator && !q.isFlag("p") && q.isFlag(TERMINATOR) && !q.takesValue(TERMINATOR)
    requires q.isFlag("-x") && !q.takesValue("-x")
    ensures Arrange(q, ["p", "--", "-x"]) == ["--", "-x", "p"]
  {
    BareGoesBack(q, "p", ["--", "-x"]);
    FlagGoesFirst(q, "--", ["-x"]);
    AloneGoesFirst(q, "-x");
    assert ["p"] + ["--", "-x"] == ["p", "--", "-x"] && ["--"] + ["-x"] == ["--", "-x"];
    assert ["--", "-x"] + (["p"] + []) == ["--", "-x", "p"];
  }

  lemma ThreeNormalized(fs: FlagSet)
    ensures Arrange(Normalizing(fs), ["p", "--", "-x"]) == ["p", "-x"]
    ensures Arrange(Normalizing(fs), ["--", "-x", "p"]) == ["-x", "p"]
  {
    var r := Normalizing(fs);
    BareGoesBack(r, "p", ["--", "-x"]);
    TerminatorEnds(r, ["-x"]);
    TerminatorEnds(r, ["-x", "p"]);
    assert ["p"] + ["--", "-x"] == ["p", "--", "-x"] && ["--"] + ["-x"] == ["--", "-x"];
    assert ["--"] + ["-x", "p"] == ["--", "-x", "p"];
    assert [] + (["p"] + ["-x"]) == ["p", "-x"] && [] + ["-x", "p"] == ["-x", "p"];
  }

  lemma DashLedIsRead(fs: FlagSet)
    ensures GoParse(fs, ["p", "-x"]) == Parsed([], ["p", "-x"]) != GoParse(fs, ["-x", "p"])
  {
    AfterTerminator(fs, ["p"], ["-x"]);
    AfterTerminator(fs, [], ["-x", "p"]);
    assert ["p"] + ["-x"] == ["p", "-x"] && [] + ["-x", "p"] == ["-x", "p"];
    NoFlagTaken(fs, ["-x", "p"]);
  }

  lemma NoFlagTaken(fs: FlagSet, args: seq<string>)
    requires args != [] && IsFlag(args[0]) && args[0] != TERMINATOR
    ensures GoParse(fs, args).Parsed? ==> GoParse(fs, args).settings != []
  {
  }

  lemma NoEmptyName()
    ensures "" !in ADD_VALUE_FLAGS && "x" !in ADD_VALUE_FLAGS
  {
  }

  /** In `add p -- -x` the terminator ends up first, and `-x`, which it kept from being one, is read as a flag. */
  lemma TerminatorMovesAhead(fs: FlagSet)
    ensures var args := ["p", "--", "-x"];
            && GoParse(fs, Arrange(Normalizing(fs), args)) == Parsed([], ["p", "-x"])
            && GoParse(fs, Arrange(Normalizing(fs), Arrange(ByName(ADD_VALUE_FLAGS), args))) == GoParse(fs, ["-x", "p"])
            && GoParse(fs, ["-x", "p"]) != Parsed([], ["p", "-x"])
  {
    NoEmptyName();
    assert TrimLeftDashes(TERMINATOR) == TrimLeftDashes("-") == "";
    assert TrimLeftDashes("-x") == TrimLeftDashes("x") == "x";
    ThreeMove(ByName(ADD_VALUE_FLAGS));
    ThreeNormalized(fs);
    DashLedIsRead(fs);
  }

  /** With a table of spellings `p -` becomes `- p`, before normalizing or on its own. */
  lemma LoneDashMovesAhead(fs: FlagSet, table: set<string>)
    requires "-" !in table
    ensures Arrange(Normalizing(fs), ["p", "-"]) == ["p", "-"]
    ensures Arrange(BySpelling(table), ["p", "-"]) == Arrange(Normalizing(fs), Arrange(BySpelling(table), ["p", "-"])) == ["-", "p"]
    ensures GoParse(fs, ["p", "-"]) == Parsed([], ["p", "-"]) && GoParse(fs, ["-", "p"]) == Parsed([], ["-", "p"])
  {
    var q := BySpelling(table);
    PairStays(fs, "p", "-");
    PairStays(fs, "-", "p");
    BareGoesBack(q, "p", ["-"]);
    AloneGoesFirst(q, "-");
    assert ["p"] + ["-"] == ["p", "-"] && ["-"] + (["p"] + []) == ["-", "p"];
  }

  lemma PairStays(fs: FlagSet, a: string, b: string)
    requires !IsFlag(a) && !IsFlag(b)
    ensures Arrange(Normalizing(fs), [a, b]) == [a, b] && GoParse(fs, [a, b]) == Parsed([], [a, b])
  {
    BareArgsStay(Normalizing(fs), [a, b]);
    assert [] + [a, b] == [a, b];
  }

  /** Used on its own, a table of spellings swaps the positionals of `p -- -x`. */
  lemma TerminatorSwapsPositionals(fs: FlagSet, table: set<string>)
    requires TERMINATOR !in table && "-x" !in table
    ensures InterspersedParse(fs, ["p", "--", "-x"]) == Parsed([], ["p", "-x"])
    ensures GoParse(fs, Arrange(BySpelling(table), ["p", "--", "-x"])) == Parsed([], ["-x", "p"])
  {
    ThreeMove(BySpelling(table));
    assert ["p", "--", "-x"][1..] == ["--", "-x"] && ["--", "-x"][1..] == ["-x"] && ["--", "-x", "p"][1..] == ["-x", "p"];
    assert InterspersedParse(fs, ["--", "-x"]) == Parsed([], ["-x"]);
    assert ["p"] + ["-x"] == ["p", "-x"];
  }
}
