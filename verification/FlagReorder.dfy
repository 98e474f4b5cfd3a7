/** The hand-written reorderers that run before, or instead of, `NormalizeArgs`. */
module FlagReorder {
  import opened FlagArgs

  /** `reorderArgsForFlagParsing`: a table of names, dashes stripped. */
  function ByName(valueFlags: set<string>): Reading {
    Reading(arg => IsFlag(arg), arg => '=' !in arg && TrimLeftDashes(arg) in valueFlags, false)
  }

  /** `reorderGroupArgs`, `reorderRemoteArgs` and `reorderArgsForTryCommand`: a table of spellings, and
      a lone dash counts as a flag. */
  function BySpelling(valueFlags: set<string>): Reading {
    Reading(arg => arg != [] && arg[0] == '-', arg => '=' !in arg && arg in valueFlags, false)
  }

  const ADD_VALUE_FLAGS: set<string> := {
    "t", "title", "g", "group", "c", "cmd", "m", "message", "p", "parent", "mcp", "channel", "plugin",
    "extra-arg", "wrapper", "model", "w", "worktree", "location", "resume-session", "sandbox-image",
    "ssh", "remote-path", "tmux-socket" }

  const GROUP_VALUE_FLAGS: set<string> := { "--parent", "--default-path", "--position", "-p" }

  const TRY_VALUE_FLAGS: set<string> := { "-c", "--cmd", "-cmd" }

  /** The table of `reorderRemoteArgs`: every defined flag, in its two-dash spelling. */
  function RemoteValueFlags(fs: FlagSet): set<string> {
    set name | name in fs.kinds :: "--" + name
  }

  method ReorderArgsForFlagParsing(args: seq<string>) returns (result: seq<string>)
    ensures result == Arrange(ByName(ADD_VALUE_FLAGS), args)
    ensures multiset(result) == multiset(args)
  {
    result := MoveFlags(ByName(ADD_VALUE_FLAGS), args);
    NothingDropped(ByName(ADD_VALUE_FLAGS), args);
  }

  method ReorderGroupArgs(args: seq<string>) returns (result: seq<string>)
    ensures result == Arrange(BySpelling(GROUP_VALUE_FLAGS), args)
    ensures multiset(result) == multiset(args)
  {
    result := MoveFlags(BySpelling(GROUP_VALUE_FLAGS), args);
    NothingDropped(BySpelling(GROUP_VALUE_FLAGS), args);
  }

  method ReorderArgsForTryCommand(args: seq<string>) returns (result: seq<string>)
    ensures result == Arrange(BySpelling(TRY_VALUE_FLAGS), args)
    ensures multiset(result) == multiset(args)
  {
    result := MoveFlags(BySpelling(TRY_VALUE_FLAGS), args);
    NothingDropped(BySpelling(TRY_VALUE_FLAGS), args);
  }

  method ReorderRemoteArgs(fs: FlagSet, args: seq<string>) returns (result: seq<string>)
    ensures result == Arrange(BySpelling(RemoteValueFlags(fs)), args)
    ensures multiset(result) == multiset(args)
  {
    result := MoveFlags(BySpelling(RemoteValueFlags(fs)), args);
    NothingDropped(BySpelling(RemoteValueFlags(fs)), args);
  }

  /** A reading that ignores terminators drops nothing. */
  lemma NothingDropped(r: Reading, args: seq<string>)
    requires !r.stopsAtTerminator
    ensures multiset(Arrange(r, args)) == multiset(args)
  {
    NeverMeetsTerminator(r, args);
    MovePermutes(r, args);
  }

  lemma {:induction false} NeverMeetsTerminator(r: Reading, args: seq<string>)
    requires !r.stopsAtTerminator
    ensures !MeetsTerminator(r, args)
  {
    if args != [] {
      NeverMeetsTerminator(r, args[UnitLength(r, args)..]);
    }
  }

  /** The reading meets a terminator where a flag or positional could stand. */
  function MeetsTerminator(r: Reading, args: seq<string>): bool {
    args != [] && ((r.stopsAtTerminator && args[0] == TERMINATOR) || MeetsTerminator(r, args[UnitLength(r, args)..]))
  }

  function Dropped(r: Reading, args: seq<string>): multiset<string> {
    if MeetsTerminator(r, args) then multiset{TERMINATOR} else multiset{}
  }

  lemma PermutesStep(r: Reading, args: seq<string>)
    requires args != [] && !(r.stopsAtTerminator && args[0] == TERMINATOR)
    ensures var n := UnitLength(r, args);
            multiset(Arrange(r, args)) == multiset(args[..n]) + multiset(Arrange(r, args[n..]))
  {
    var n := UnitLength(r, args);
    UnitInSum(args[..n], Front(r, args[n..]), Back(r, args[n..]));
    if r.isFlag(args[0]) {
      FlagMoves(r, args);
    } else {
      ArrangeStep(r, args);
      assert args[..1] == [args[0]];
    }
  }

  lemma UnitInSum(unit: seq<string>, front: seq<string>, back: seq<string>)
    ensures multiset((unit + front) + back) == multiset(unit) + multiset(front + back)
    ensures multiset(front + (unit + back)) == multiset(unit) + multiset(front + back)
  {
  }

  lemma TilesStep(r: Reading, args: seq<string>)
    requires args != [] && !(r.stopsAtTerminator && args[0] == TERMINATOR)
    ensures var n := UnitLength(r, args);
            Flatten(Units(r, args)) == args[..n] + Flatten(Units(r, args[n..]))
  {
    var units := Units(r, args);
    assert units == [units[0]] + units[1..];
    assert Tokens(units[0]) == args[..UnitLength(r, args)];
  }

  lemma SplitMultiset(s: seq<string>, n: nat)
    requires n <= |s|
    ensures multiset(s) == multiset(s[..n]) + multiset(s[n..])
  {
    assert s == s[..n] + s[n..];
  }

  /** Moving only permutes the arguments, apart from the one terminator `NormalizeArgs` drops. */
  lemma {:induction false} MovePermutes(r: Reading, args: seq<string>)
    ensures multiset(args) == multiset(Arrange(r, args)) + Dropped(r, args)
  {
    if args == [] {
    } else if r.stopsAtTerminator && args[0] == TERMINATOR {
      PermutesTerminated(r, args);
    } else {
      MovePermutes(r, args[UnitLength(r, args)..]);
      PermutesUnit(r, args);
    }
  }

  lemma PermutesTerminated(r: Reading, args: seq<string>)
    requires args != [] && r.stopsAtTerminator && args[0] == TERMINATOR
    ensures multiset(args) == multiset(Arrange(r, args)) + Dropped(r, args)
  {
    BareRun(Units(r, args), args[1..]);
    assert args == [TERMINATOR] + args[1..] && Arrange(r, args) == args[1..];
  }

  lemma PermutesUnit(r: Reading, args: seq<string>)
    requires args != [] && !(r.stopsAtTerminator && args[0] == TERMINATOR)
    requires var rest := args[UnitLength(r, args)..]; multiset(rest) == multiset(Arrange(r, rest)) + Dropped(r, rest)
    ensures multiset(args) == multiset(Arrange(r, args)) + Dropped(r, args)
  {
    PermutesStep(r, args);
    SplitMultiset(args, UnitLength(r, args));
  }

  /** The units tile the command line: each flag with its value, and all in the order written. As
      `Arrange` is the stable partition of the units, it keeps flags in order, each with its value, and
      positionals in order. */
  lemma {:induction false} UnitsTile(r: Reading, args: seq<string>)
    requires !MeetsTerminator(r, args)
    ensures Flatten(Units(r, args)) == args
  {
    if args != [] {
      var n := UnitLength(r, args);
      UnitsTile(r, args[n..]);
      TilesStep(r, args);
      assert args == args[..n] + args[n..];
    }
  }

  lemma {:induction false} BackIsBare(r: Reading, args: seq<string>)
    requires !MeetsTerminator(r, args)
    ensures forall p :: p in Back(r, args) ==> !r.isFlag(p)
  {
    if args != [] {
      BackIsBare(r, args[UnitLength(r, args)..]);
      ArrangeStep(r, args);
    }
  }

  /** The reading has no terminator to stop at. */
  predicate NeverStops(r: Reading, args: seq<string>) {
    r.stopsAtTerminator ==> TERMINATOR !in args
  }

  lemma {:induction false} BareArgsStay(r: Reading, args: seq<string>)
    requires NeverStops(r, args) && forall p :: p in args ==> !r.isFlag(p)
    ensures Front(r, args) == [] && Back(r, args) == args
  {
    if args != [] {
      BareArgsStay(r, args[1..]);
      ArrangeStep(r, args);
    }
  }

  /** Every flag stands, with its value, before every other argument. */
  predicate FlagsFirst(r: Reading, args: seq<string>) {
    if args == [] || !r.isFlag(args[0]) then forall p :: p in args ==> !r.isFlag(p)
    else FlagsFirst(r, args[UnitLength(r, args)..])
  }

  lemma FirstUnitStays(r: Reading, args: seq<string>)
    requires args != [] && r.isFlag(args[0]) && (r.stopsAtTerminator ==> args[0] != TERMINATOR)
    requires var n := UnitLength(r, args); Arrange(r, args[n..]) == args[n..]
    ensures Arrange(r, args) == args
  {
    var n := UnitLength(r, args);
    FlagMoves(r, args);
    Regroup(args[..n], Front(r, args[n..]), Back(r, args[n..]));
    assert args == args[..n] + args[n..];
  }

  lemma {:induction false} FlagsFirstStay(r: Reading, args: seq<string>)
    requires NeverStops(r, args) && FlagsFirst(r, args)
    ensures Arrange(r, args) == args
  {
    if args == [] || !r.isFlag(args[0]) {
      BareArgsStay(r, args);
      assert [] + args == args;
    } else {
      FlagsFirstStay(r, args[UnitLength(r, args)..]);
      FirstUnitStays(r, args);
    }
  }

  /** Moving puts the flags first, also in front of a value that a last flag then takes. */
  lemma {:induction false} FrontComesFirst(r: Reading, args: seq<string>, bare: seq<string>)
    requires NeverStops(r, args) && forall p :: p in bare ==> !r.isFlag(p)
    ensures FlagsFirst(r, Front(r, args) + bare)
  {
    if args == [] {
      assert Front(r, args) + bare == bare;
    } else if !r.isFlag(args[0]) {
      ArrangeStep(r, args);
      FrontComesFirst(r, args[1..], bare);
    } else {
      var n := UnitLength(r, args);
      var rest := Front(r, args[n..]) + bare;
      FrontComesFirst(r, args[n..], bare);
      FlagMoves(r, args);
      UnitThenRest(r, args[..n], rest, args);
      Regroup(args[..n], Front(r, args[n..]), bare);
    }
  }

  lemma UnitThenRest(r: Reading, unit: seq<string>, rest: seq<string>, args: seq<string>)
    requires args != [] && r.isFlag(args[0]) && unit == args[..UnitLength(r, args)] && FlagsFirst(r, rest)
    requires |args| == 1 ==> forall p :: p in rest ==> !r.isFlag(p)
    ensures FlagsFirst(r, unit + rest)
  {
    var all := unit + rest;
    assert all[0] == args[0];
    if |unit| == UnitLength(r, all) {
      assert all[UnitLength(r, all)..] == rest;
    } else {
      assert all[2..] == rest[1..];
      assert rest[1..] != [] ==> rest[1..][0] in rest;
    }
  }

  lemma {:induction false} NoTerminatorMet(r: Reading, args: seq<string>)
    requires TERMINATOR !in args
    ensures !MeetsTerminator(r, args)
  {
    if args != [] {
      var n := UnitLength(r, args);
      NoTerminatorMet(r, args[n..]);
    }
  }

  /** Moving flags twice is moving them once. */
  lemma MoveTwice(r: Reading, args: seq<string>)
    requires TERMINATOR !in args
    ensures Arrange(r, Arrange(r, args)) == Arrange(r, args)
  {
    NoTerminatorMet(r, args);
    BackIsBare(r, args);
    FrontComesFirst(r, args, Back(r, args));
    NoTerminatorAfter(r, args);
    FlagsFirstStay(r, Arrange(r, args));
  }

  lemma NoTerminatorAfter(r: Reading, args: seq<string>)
    requires TERMINATOR !in args
    ensures TERMINATOR !in Arrange(r, args)
  {
    NoTerminatorMet(r, args);
    MovePermutes(r, args);
    assert TERMINATOR !in multiset(args);
  }

  /** Two readings that agree on every argument cut the line the same way. */
  lemma {:induction false} SameCut(r: Reading, q: Reading, args: seq<string>)
    requires TERMINATOR !in args
    requires forall a :: a in args ==> r.isFlag(a) == q.isFlag(a) && (r.isFlag(a) ==> r.takesValue(a) == q.takesValue(a))
    ensures Units(r, args) == Units(q, args)
  {
    if args != [] {
      var n := UnitLength(r, args);
      SameCut(r, q, args[n..]);
    }
  }

  /** A name a flag can be called by. */
  predicate WellNamed(name: string) {
    name != [] && name[0] != '-' && '=' !in name
  }

  /** The table lists exactly the defined flags that take a value. */
  ghost predicate TableFits(fs: FlagSet, table: set<string>) {
    forall name :: name in fs.kinds && WellNamed(name) ==> (name in table <==> fs.kinds[name] == Valued)
  }

  /** No terminator, and every flag names a defined one or carries its value. */
  ghost predicate UsesDefinedFlags(fs: FlagSet, args: seq<string>) {
    && TERMINATOR !in args
    && forall a :: a in args && IsFlag(a) ==>
                     '=' in a || (TrimLeftDashes(a) in fs.kinds && WellNamed(TrimLeftDashes(a)))
  }

  /** Reordering by the table first changes nothing for `NormalizeArgs`. */
  ghost predicate ReorderIsHarmless(fs: FlagSet, table: set<string>, args: seq<string>) {
    Arrange(Normalizing(fs), Arrange(ByName(table), args)) == Arrange(Normalizing(fs), args)
  }

  lemma {:induction false} TrimKeepsEquals(s: string)
    ensures '=' in TrimLeftDashes(s) <==> '=' in s
  {
    if s != [] && s[0] == '-' {
      TrimKeepsEquals(s[1..]);
      assert s == ['-'] + s[1..];
    }
  }

  lemma FittingTableIsHarmless(fs: FlagSet, table: set<string>, args: seq<string>)
    requires TableFits(fs, table) && UsesDefinedFlags(fs, args)
    ensures ReorderIsHarmless(fs, table, args)
  {
    var r, q := Normalizing(fs), ByName(table);
    forall a | a in args
      ensures r.isFlag(a) == q.isFlag(a) && (r.isFlag(a) ==> r.takesValue(a) == q.takesValue(a))
    {
      TrimKeepsEquals(a);
    }
    SameCut(r, q, args);
    MoveTwice(r, args);
  }

  /** A command line on which a table that errs about `name` moves an argument away from its flag. */
  function Witness(name: string): seq<string> { ["p", "--" + name, "v"] }

  lemma WitnessFlag(name: string)
    requires WellNamed(name)
    ensures IsFlag("--" + name) && TrimLeftDashes("--" + name) == name && '=' !in "--" + name
    ensures "--" + name != TERMINATOR
  {
    var arg := "--" + name;
    assert arg[1..] == "-" + name && arg[1..][1..] == name;
    assert TrimLeftDashes(arg) == TrimLeftDashes("-" + name) == TrimLeftDashes(name) == name;
  }

  /** Where a reading puts a flag between two other arguments. */
  lemma WitnessMoves(r: Reading, x: string, flag: string, y: string)
    requires r.isFlag(flag) && !r.isFlag(x) && !r.isFlag(y)
    requires flag != TERMINATOR && x != TERMINATOR && y != TERMINATOR
    ensures Arrange(r, [x, flag, y]) == if r.takesValue(flag) then [flag, y, x] else [flag, x, y]
  {
    var args := [x, flag, y];
    assert args[1..] == [flag, y] && [flag, y][1..] == [y] && [flag, y][2..] == [];
    ArrangeStep(r, args);
    ArrangeStep(r, [flag, y]);
    BareArgsStay(r, [y]);
  }

  /** And where it puts them once the flag stands first. */
  lemma WitnessStays(r: Reading, flag: string, x: string, y: string)
    requires r.isFlag(flag) && !r.isFlag(x) && !r.isFlag(y) && flag != TERMINATOR && x != TERMINATOR && y != TERMINATOR
    ensures Arrange(r, [flag, x, y]) == [flag, x, y]
  {
    var args := [flag, x, y];
    assert args[1..] == [x, y] && args[2..] == [y];
    ArrangeStep(r, args);
    BareArgsStay(r, [x, y]);
    BareArgsStay(r, [y]);
  }

  lemma WitnessUsesDefinedFlags(fs: FlagSet, name: string)
    requires WellNamed(name) && name in fs.kinds
    ensures UsesDefinedFlags(fs, Witness(name))
  {
    WitnessFlag(name);
  }

  lemma MisfitMovesArguments(fs: FlagSet, table: set<string>, name: string)
    requires WellNamed(name) && name in fs.kinds && (name in table <==> fs.kinds[name] == Boolean)
    ensures UsesDefinedFlags(fs, Witness(name)) && !ReorderIsHarmless(fs, table, Witness(name))
  {
    var flag := "--" + name;
    WitnessFlag(name);
    WitnessUsesDefinedFlags(fs, name);
    ReadingsDisagree(Normalizing(fs), ByName(table), flag);
  }

  /** Two readings that disagree about the flag arrange the witness in two ways, whichever comes first. */
  lemma ReadingsDisagree(r: Reading, q: Reading, flag: string)
    requires r.isFlag(flag) && !r.isFlag("p") && !r.isFlag("v") && flag != TERMINATOR
    requires q.isFlag(flag) && !q.isFlag("p") && !q.isFlag("v") && r.takesValue(flag) != q.takesValue(flag)
    ensures Arrange(r, Arrange(q, ["p", flag, "v"])) != Arrange(r, ["p", flag, "v"])
  {
    WitnessMoves(r, "p", flag, "v");
    WitnessMoves(q, "p", flag, "v");
    WitnessStays(r, flag, "p", "v");
    WitnessStays(r, flag, "v", "p");
    assert [flag, "p", "v"][1] != [flag, "v", "p"][1];
  }

  /** The add and launch commands reorder by a hand-written table before normalizing. That is harmless
      for all their command lines exactly when the table fits the flag set. */
  lemma ReorderHarmlessIffTableFits(fs: FlagSet, table: set<string>)
    ensures (forall args :: UsesDefinedFlags(fs, args) ==> ReorderIsHarmless(fs, table, args)) <==> TableFits(fs, table)
  {
    if TableFits(fs, table) {
      forall args | UsesDefinedFlags(fs, args)
        ensures ReorderIsHarmless(fs, table, args)
      {
        FittingTableIsHarmless(fs, table, args);
      }
    } else {
      var name :| name in fs.kinds && WellNamed(name) && !(name in table <==> fs.kinds[name] == Valued);
      MisfitMovesArguments(fs, table, name);
    }
  }

  // ---------- what a missed flag does ----------

  predicate IsSpelling(flag: string, name: string) {
    flag == "-" + name || flag == "--" + name
  }

  predicate IsBare(arg: string) {
    arg == [] || arg[0] != '-'
  }

  lemma SpellingIsFlag(flag: string, name: string)
    requires WellNamed(name) && IsSpelling(flag, name)
    ensures IsFlag(flag) && FlagText(flag) == name && TrimLeftDashes(flag) == name
    ensures '=' !in flag && flag != TERMINATOR && flag != "-"
  {
    assert ("-" + name)[1..] == name && ("--" + name)[1..] == "-" + name && ("--" + name)[2..] == name;
    assert TrimLeftDashes("-" + name) == TrimLeftDashes(name) == name;
    assert TrimLeftDashes("--" + name) == TrimLeftDashes("-" + name);
    assert flag[1] == if flag == "-" + name then name[0] else '-';
  }

  /** One flag set, or refused by its setter, and the rest positional. */
  function SetThen(fs: FlagSet, name: string, value: string, rest: seq<string>): Parse {
    if fs.accepts(name, value) then Parsed([Assignment(name, value)], rest) else Failed([], InvalidValue(name, value))
  }

  lemma TakesNext(fs: FlagSet, flag: string, name: string, value: string, rest: seq<string>)
    requires WellNamed(name) && name in fs.kinds && fs.kinds[name] == Valued && IsSpelling(flag, name)
    ensures IsFlag(flag) && flag != TERMINATOR
    ensures TakeFlag(fs, [flag, value] + rest) == Set(fs, name, value, 2)
  {
    SpellingIsFlag(flag, name);
    NoCharBefore(name, '=');
    assert name[..IndexOf(name, '=')] == name;
  }

  /** A value behind an equals sign stays with its flag, also when the value holds one itself. */
  lemma EqualsReads(fs: FlagSet, flag: string, name: string, value: string, rest: seq<string>)
    requires WellNamed(name) && name in fs.kinds && IsSpelling(flag, name)
    ensures TakeFlag(fs, [flag + "=" + value] + rest) == Set(fs, name, value, 1)
  {
    EqualsSplits(name, value);
    EqualsText(flag, name, value);
  }

  lemma EqualsSplits(name: string, value: string)
    requires '=' !in name
    ensures var text := name + "=" + value;
            IndexOf(text, '=') == |name| && text[..|name|] == name && text[|name| + 1..] == value
  {
    var text := name + "=" + value;
    assert text[|name|] == '=';
    assert forall k :: 0 <= k < |name| ==> text[k] == name[k];
  }

  lemma EqualsText(flag: string, name: string, value: string)
    requires WellNamed(name) && IsSpelling(flag, name)
    ensures var arg, text := flag + "=" + value, name + "=" + value;
            IsFlag(arg) && FlagText(arg) == text && text[0] == name[0] && name[0] != '='
  {
    var arg, text := flag + "=" + value, name + "=" + value;
    assert name[0] in name;
    if flag == "-" + name {
      assert arg == "-" + text && arg[1] == name[0];
    } else {
      assert arg == "--" + text;
    }
  }

  lemma ReadAsMeant(fs: FlagSet, x: string, flag: string, name: string, y: string)
    requires WellNamed(name) && name in fs.kinds && fs.kinds[name] == Valued && IsSpelling(flag, name) && IsBare(x)
    ensures InterspersedParse(fs, [x, flag, y]) == SetThen(fs, name, y, [x])
  {
    TakesNext(fs, flag, name, y, []);
    assert [flag, y] + [] == [flag, y] && [flag, y][2..] == [];
    assert InterspersedParse(fs, [flag, y]) == SetThen(fs, name, y, []);
    assert [x, flag, y][1..] == [flag, y];
  }

  lemma ReadAsMoved(fs: FlagSet, flag: string, name: string, x: string, y: string)
    requires WellNamed(name) && name in fs.kinds && fs.kinds[name] == Valued && IsSpelling(flag, name) && IsBare(y)
    ensures GoParse(fs, [flag, x, y]) == SetThen(fs, name, x, [y])
  {
    TakesNext(fs, flag, name, x, [y]);
    assert [flag, x] + [y] == [flag, x, y] && [flag, x, y][2..] == [y];
    assert GoParse(fs, [y]) == Parsed([], [y]);
  }

  /** A reorderer that does not know that a flag takes a value: in `x flag y` the flag gets `x` instead of
      `y`, and `y` is the positional, or the setter refuses `x`; normalizing afterwards does not help. */
  lemma MissedFlagTakesPositional(fs: FlagSet, q: Reading, x: string, flag: string, name: string, y: string)
    requires WellNamed(name) && name in fs.kinds && fs.kinds[name] == Valued && IsSpelling(flag, name)
    requires IsBare(x) && IsBare(y) && q.isFlag(flag) && !q.isFlag(x) && !q.isFlag(y) && !q.takesValue(flag)
    ensures InterspersedParse(fs, [x, flag, y]) == SetThen(fs, name, y, [x])
    ensures GoParse(fs, Arrange(q, [x, flag, y])) == SetThen(fs, name, x, [y])
    ensures Arrange(Normalizing(fs), Arrange(q, [x, flag, y])) == Arrange(q, [x, flag, y])
  {
    SpellingIsFlag(flag, name);
    WitnessMoves(q, x, flag, y);
    WitnessStays(Normalizing(fs), flag, x, y);
    ReadAsMeant(fs, x, flag, name, y);
    ReadAsMoved(fs, flag, name, x, y);
  }

  // ---------- what normalizing loses ----------

  lemma LastFlagMoves(fs: FlagSet, x: string, flag: string)
    requires IsBare(x) && IsFlag(flag) && flag != TERMINATOR
    ensures Arrange(Normalizing(fs), [x, flag]) == [flag, x]
  {
    assert [x, flag][1..] == [flag] && [flag][1..] == [];
    ArrangeStep(Normalizing(fs), [x, flag]);
    ArrangeStep(Normalizing(fs), [flag]);
  }

  /** The first losing family: in `p --name` the flag lacks its value, but once moved it takes `p`. */
  lemma NormalizeHidesMissingValue(fs: FlagSet, name: string)
    requires WellNamed(name) && name in fs.kinds && fs.kinds[name] == Valued
    ensures InterspersedParse(fs, ["p", "--" + name]) == Failed([], NeedsArgument(name))
    ensures GoParse(fs, Arrange(Normalizing(fs), ["p", "--" + name])) == SetThen(fs, name, "p", [])
  {
    var flag := "--" + name;
    SpellingIsFlag(flag, name);
    LastFlagMoves(fs, "p", flag);
    NeedsItsValue(fs, flag, name);
    assert ["p", flag][1..] == [flag];
    TakesNext(fs, flag, name, "p", []);
    assert [flag, "p"] + [] == [flag, "p"] && [flag, "p"][2..] == [];
  }

  lemma NeedsItsValue(fs: FlagSet, flag: string, name: string)
    requires WellNamed(name) && name in fs.kinds && fs.kinds[name] == Valued && IsSpelling(flag, name)
    ensures InterspersedParse(fs, [flag]) == Failed([], NeedsArgument(name))
  {
    SpellingIsFlag(flag, name);
    NoCharBefore(name, '=');
    assert name[..IndexOf(name, '=')] == name;
  }

  /** The second: `-- -x` has the positional `-x`, which without its terminator is read as a flag. */
  lemma NormalizeUnshieldsPositional(fs: FlagSet)
    ensures InterspersedParse(fs, ["--", "-x"]) == Parsed([], ["-x"])
    ensures GoParse(fs, Arrange(Normalizing(fs), ["--", "-x"])) == GoParse(fs, ["-x"]) != Parsed([], ["-x"])
  {
    var args := ["--", "-x"];
    assert args[1..] == ["-x"];
    BareRun(Units(Normalizing(fs), args), ["-x"]);
    assert [] + ["-x"] == ["-x"];
    assert IsFlag("-x") && "-x" != TERMINATOR;
    AfterTerminator(fs, [], ["-x"]);
  }

  // ---------- the table of add and launch ----------

  lemma NotInAddTable()
    ensures "account" !in ADD_VALUE_FLAGS && "idle-timeout" !in ADD_VALUE_FLAGS
  {
    assert |"account"| == 7 && "account"[0] == 'a';
    assert |"idle-timeout"| == 12;
  }

  lemma TheseAreSpellings()
    ensures IsSpelling("--account", "account") && WellNamed("account")
    ensures IsSpelling("--idle-timeout", "idle-timeout") && WellNamed("idle-timeout")
    ensures IsSpelling("--max-concurrent", "max-concurrent") && WellNamed("max-concurrent")
    ensures IsSpelling("--c", "c") && IsSpelling("-parent", "parent") && WellNamed("c") && WellNamed("parent")
  {
  }

  /** A flag missing from a table of names: in `x flag y` the flag gets `x`, and `y` is the positional. */
  lemma TableMisses(fs: FlagSet, table: set<string>, x: string, flag: string, name: string, y: string)
    requires WellNamed(name) && name in fs.kinds && fs.kinds[name] == Valued && name !in table
    requires IsSpelling(flag, name) && IsBare(x) && IsBare(y)
    ensures !TableFits(fs, table)
    ensures InterspersedParse(fs, [x, flag, y]) == SetThen(fs, name, y, [x])
    ensures GoParse(fs, Arrange(Normalizing(fs), Arrange(ByName(table), [x, flag, y]))) == SetThen(fs, name, x, [y])
  {
    SpellingIsFlag(flag, name);
    MissedFlagTakesPositional(fs, ByName(table), x, flag, name, y);
  }

  /** The table does not fit `add`: `--account` takes a value and is not listed, so that in
      `add p --account v` the account becomes `p` and the path `v`. */
  lemma AddTableMissesAccount(fs: FlagSet)
    requires "account" in fs.kinds && fs.kinds["account"] == Valued
    ensures !TableFits(fs, ADD_VALUE_FLAGS)
    ensures GoParse(fs, Arrange(Normalizing(fs), Arrange(ByName(ADD_VALUE_FLAGS), ["p", "--account", "v"])))
            == SetThen(fs, "account", "p", ["v"])
  {
    NotInAddTable();
    TheseAreSpellings();
    TableMisses(fs, ADD_VALUE_FLAGS, "p", "--account", "account", "v");
  }

  /** Nor does it fit `launch`: `--idle-timeout` takes a value and is not listed. */
  lemma LaunchTableMissesIdleTimeout(fs: FlagSet)
    requires "idle-timeout" in fs.kinds && fs.kinds["idle-timeout"] == Valued
    ensures !TableFits(fs, ADD_VALUE_FLAGS)
    ensures GoParse(fs, Arrange(Normalizing(fs), Arrange(ByName(ADD_VALUE_FLAGS), ["p", "--idle-timeout", "v"])))
            == SetThen(fs, "idle-timeout", "p", ["v"])
  {
    NotInAddTable();
    TheseAreSpellings();
    TableMisses(fs, ADD_VALUE_FLAGS, "p", "--idle-timeout", "idle-timeout", "v");
  }

  // ---------- tables of spellings ----------

  /** A table of spellings reads this command line as the flag set does. */
  ghost predicate SpellingsFit(fs: FlagSet, table: set<string>, args: seq<string>) {
    && TERMINATOR !in args && "-" !in args
    && forall a :: a in args && IsFlag(a) && '=' !in a ==> (a in table <==> Normalizing(fs).takesValue(a))
  }

  /** The group commands reorder by a table of spellings before normalizing; where it fits, that changes
      nothing. */
  lemma FittingSpellingsAreHarmless(fs: FlagSet, table: set<string>, args: seq<string>)
    requires SpellingsFit(fs, table, args)
    ensures Arrange(Normalizing(fs), Arrange(BySpelling(table), args)) == Arrange(Normalizing(fs), args)
  {
    SpellingsCutAlike(fs, table, args);
    MoveTwice(Normalizing(fs), args);
  }

  lemma SpellingsCutAlike(fs: FlagSet, table: set<string>, args: seq<string>)
    requires SpellingsFit(fs, table, args)
    ensures Units(Normalizing(fs), args) == Units(BySpelling(table), args)
  {
    var r, q := Normalizing(fs), BySpelling(table);
    forall a | a in args
      ensures r.isFlag(a) == q.isFlag(a) && (r.isFlag(a) ==> r.takesValue(a) == q.takesValue(a))
    {
      TrimKeepsEquals(a);
    }
    SameCut(r, q, args);
  }

  /** The remote and try commands rely on a table of spellings alone. Where it fits, parsing their
      reordered arguments means what the user wrote under the same condition as for `NormalizeArgs`. */
  lemma SpellingReorderKeepsMeaning(fs: FlagSet, table: set<string>, args: seq<string>)
    requires SpellingsFit(fs, table, args)
    ensures GoParse(fs, Arrange(BySpelling(table), args)) == InterspersedParse(fs, args)
            <==> KeepsMeaning(ScanArgs(fs, args).positionals, ScanArgs(fs, args).ending)
  {
    SpellingsCutAlike(fs, table, args);
    NormalizeKeepsMeaning(fs, args);
  }

  /** The table of `remote add` fits any flag set without boolean flags when flags are written with two
      dashes. */
  lemma RemoteTableFits(fs: FlagSet, args: seq<string>)
    requires TERMINATOR !in args && "-" !in args
    requires forall name :: name in fs.kinds ==> fs.kinds[name] == Valued
    requires forall a :: a in args && IsFlag(a) && '=' !in a ==> exists name :: name in fs.kinds && a == "--" + name
    ensures SpellingsFit(fs, RemoteValueFlags(fs), args)
  {
    var table := RemoteValueFlags(fs);
    forall a | a in args && IsFlag(a) && '=' !in a
      ensures a in table && Normalizing(fs).takesValue(a)
    {
      TrimKeepsEquals(a);
      var name :| name in fs.kinds && a == "--" + name;
    }
  }

  /** Go's parser takes a flag with one dash as well as with two: the table lists both spellings of exactly
      the defined flags that take a value. */
  ghost predicate SpellingTableFits(fs: FlagSet, table: set<string>) {
    forall name :: name in fs.kinds && WellNamed(name) ==>
                     ("-" + name in table <==> fs.kinds[name] == Valued)
                     && ("--" + name in table <==> fs.kinds[name] == Valued)
  }

  /** No terminator and no lone dash, and every flag is a spelling of a defined one or carries its value. */
  ghost predicate UsesSpellings(fs: FlagSet, args: seq<string>) {
    && TERMINATOR !in args && "-" !in args
    && forall a :: a in args && IsFlag(a) ==>
                     '=' in a || (TrimLeftDashes(a) in fs.kinds && WellNamed(TrimLeftDashes(a))
                                  && IsSpelling(a, TrimLeftDashes(a)))
  }

  lemma FittingTableFitsLines(fs: FlagSet, table: set<string>, args: seq<string>)
    requires SpellingTableFits(fs, table) && UsesSpellings(fs, args)
    ensures SpellingsFit(fs, table, args)
  {
    forall a | a in args && IsFlag(a) && '=' !in a
      ensures a in table <==> Normalizing(fs).takesValue(a)
    {
      TrimKeepsEquals(a);
    }
  }

  /** A spelling the table is wrong about, between two other arguments. */
  ghost predicate WrongAbout(fs: FlagSet, table: set<string>, flag: string, name: string) {
    && name in fs.kinds && WellNamed(name) && IsSpelling(flag, name)
    && (flag in table <==> fs.kinds[name] == Boolean)
  }

  lemma MisfitHasWitness(fs: FlagSet, table: set<string>) returns (flag: string, name: string)
    requires !SpellingTableFits(fs, table)
    ensures WrongAbout(fs, table, flag, name)
  {
    name :| name in fs.kinds && WellNamed(name)
            && !(("-" + name in table <==> fs.kinds[name] == Valued)
                 && ("--" + name in table <==> fs.kinds[name] == Valued));
    flag := if "-" + name in table <==> fs.kinds[name] == Valued then "--" + name else "-" + name;
  }

  lemma WrongSpellingMoves(fs: FlagSet, table: set<string>, flag: string, name: string)
    requires WrongAbout(fs, table, flag, name)
    ensures UsesSpellings(fs, ["p", flag, "v"])
    ensures Arrange(Normalizing(fs), Arrange(BySpelling(table), ["p", flag, "v"]))
            != Arrange(Normalizing(fs), ["p", flag, "v"])
  {
    SpellingIsFlag(flag, name);
    ReadingsDisagree(Normalizing(fs), BySpelling(table), flag);
  }

  /** Before normalizing, as the group commands use it, a table of spellings is harmless for all their command
      lines exactly when it lists both spellings of the flags that take a value, and nothing else that is
      defined. */
  lemma SpellingsHarmlessIffTableFits(fs: FlagSet, table: set<string>)
    ensures (forall args :: UsesSpellings(fs, args) ==>
               Arrange(Normalizing(fs), Arrange(BySpelling(table), args)) == Arrange(Normalizing(fs), args))
            <==> SpellingTableFits(fs, table)
  {
    if SpellingTableFits(fs, table) {
      forall args | UsesSpellings(fs, args)
        ensures Arrange(Normalizing(fs), Arrange(BySpelling(table), args)) == Arrange(Normalizing(fs), args)
      {
        FittingTableFitsLines(fs, table, args);
        FittingSpellingsAreHarmless(fs, table, args);
      }
    } else {
      var flag, name := MisfitHasWitness(fs, table);
      WrongSpellingMoves(fs, table, flag, name);
    }
  }

  /** Parsing what the table reordered means what the user wrote, as far as normalizing would. */
  ghost predicate KeepsMeaningBy(fs: FlagSet, table: set<string>, args: seq<string>) {
    GoParse(fs, Arrange(BySpelling(table), args)) == InterspersedParse(fs, args)
    <==> KeepsMeaning(ScanArgs(fs, args).positionals, ScanArgs(fs, args).ending)
  }

  lemma {:induction false} ScanOfWitness(fs: FlagSet, flag: string, name: string)
    requires name in fs.kinds && WellNamed(name) && IsSpelling(flag, name)
    ensures var s := ScanArgs(fs, ["p", flag, "v"]); KeepsMeaning(s.positionals, s.ending)
  {
    SpellingIsFlag(flag, name);
    NoCharBefore(name, '=');
    assert name[..IndexOf(name, '=')] == name;
    var args := ["p", flag, "v"];
    assert args[1..] == [flag, "v"] && [flag, "v"][1..] == ["v"] && [flag, "v"][2..] == [];
    assert ScanArgs(fs, []) == Scan(0, EndOfArgs) && ScanArgs(fs, ["v"]).ending == EndOfArgs;
    assert ScanArgs(fs, [flag, "v"]).ending == EndOfArgs || ScanArgs(fs, [flag, "v"]).ending == OtherError;
  }

  lemma BooleanReads(fs: FlagSet, flag: string, name: string, rest: seq<string>)
    requires name in fs.kinds && fs.kinds[name] == Boolean && WellNamed(name) && IsSpelling(flag, name)
    requires fs.accepts(name, "true")
    ensures IsFlag(flag) && flag != TERMINATOR
    ensures TakeFlag(fs, [flag] + rest) == Took(Assignment(name, "true"), 1)
  {
    SpellingIsFlag(flag, name);
    NoCharBefore(name, '=');
    assert name[..IndexOf(name, '=')] == name;
  }

  /** A boolean flag that the table lists: `p flag v` becomes `flag v p`, and the positionals swap. */
  lemma ListedBooleanSwaps(fs: FlagSet, table: set<string>, flag: string, name: string)
    requires name in fs.kinds && fs.kinds[name] == Boolean && WellNamed(name) && IsSpelling(flag, name)
    requires fs.accepts(name, "true") && flag in table
    ensures InterspersedParse(fs, ["p", flag, "v"]) == Parsed([Assignment(name, "true")], ["p", "v"])
    ensures GoParse(fs, Arrange(BySpelling(table), ["p", flag, "v"])) == Parsed([Assignment(name, "true")], ["v", "p"])
  {
    SpellingIsFlag(flag, name);
    WitnessMoves(BySpelling(table), "p", flag, "v");
    BooleanReads(fs, flag, name, ["v", "p"]);
    BooleanReads(fs, flag, name, ["v"]);
    assert [flag] + ["v", "p"] == [flag, "v", "p"] && [flag, "v", "p"][1..] == ["v", "p"];
    assert [flag] + ["v"] == [flag, "v"] && [flag, "v"][1..] == ["v"] && ["p", flag, "v"][1..] == [flag, "v"];
    assert InterspersedParse(fs, ["v"]) == Parsed([], ["v"]) by {
      assert ["v"][1..] == [];
    }
    assert InterspersedParse(fs, [flag, "v"]) == Parsed([Assignment(name, "true")], ["v"]);
    assert GoParse(fs, ["v", "p"]) == Parsed([], ["v", "p"]);
  }

  lemma WrongSpellingLosesMeaning(fs: FlagSet, table: set<string>, flag: string, name: string)
    requires WrongAbout(fs, table, flag, name)
    requires fs.kinds[name] == Boolean ==> fs.accepts(name, "true")
    ensures UsesSpellings(fs, ["p", flag, "v"]) && !KeepsMeaningBy(fs, table, ["p", flag, "v"])
  {
    WrongSpellingMoves(fs, table, flag, name);
    SpellingIsFlag(flag, name);
    ScanOfWitness(fs, flag, name);
    if fs.kinds[name] == Boolean {
      ListedBooleanSwaps(fs, table, flag, name);
    } else {
      MissedFlagTakesPositional(fs, BySpelling(table), "p", flag, name, "v");
    }
  }

  /** On its own, as the remote and try commands use it, a table of spellings keeps the meaning of all their
      command lines, as far as normalizing would, under the same exact condition. Boolean flags can be set. */
  lemma SpellingsKeepMeaningIffTableFits(fs: FlagSet, table: set<string>)
    requires forall name :: name in fs.kinds && fs.kinds[name] == Boolean ==> fs.accepts(name, "true")
    ensures (forall args :: UsesSpellings(fs, args) ==> KeepsMeaningBy(fs, table, args)) <==> SpellingTableFits(fs, table)
  {
    if SpellingTableFits(fs, table) {
      forall args | UsesSpellings(fs, args)
        ensures KeepsMeaningBy(fs, table, args)
      {
        FittingTableFitsLines(fs, table, args);
        SpellingReorderKeepsMeaning(fs, table, args);
      }
    } else {
      var flag, name := MisfitHasWitness(fs, table);
      WrongSpellingLosesMeaning(fs, table, flag, name);
    }
  }

  lemma NotInSpellingTables()
    ensures "-parent" !in GROUP_VALUE_FLAGS && "--max-concurrent" !in GROUP_VALUE_FLAGS
    ensures "--c" !in TRY_VALUE_FLAGS
  {
    assert |"-parent"| == 7 && |"--max-concurrent"| == 16;
    assert |"--c"| == 3;
  }

  /** The same for a table of spellings, before normalizing or on its own. */
  lemma SpellingTableMisses(fs: FlagSet, table: set<string>, x: string, flag: string, name: string, y: string)
    requires WellNamed(name) && name in fs.kinds && fs.kinds[name] == Valued && flag !in table
    requires IsSpelling(flag, name) && IsBare(x) && IsBare(y)
    ensures !SpellingTableFits(fs, table)
    ensures InterspersedParse(fs, [x, flag, y]) == SetThen(fs, name, y, [x])
    ensures GoParse(fs, Arrange(BySpelling(table), [x, flag, y])) == SetThen(fs, name, x, [y])
    ensures GoParse(fs, Arrange(Normalizing(fs), Arrange(BySpelling(table), [x, flag, y]))) == SetThen(fs, name, x, [y])
  {
    SpellingIsFlag(flag, name);
    MissedFlagTakesPositional(fs, BySpelling(table), x, flag, name, y);
  }

  /** The table of the group commands lists `--parent` but not `-parent`: `group create p -parent v` makes a
      group `v` under `p`. */
  lemma GroupTableMissesOneDash(fs: FlagSet)
    requires "parent" in fs.kinds && fs.kinds["parent"] == Valued
    ensures !SpellingTableFits(fs, GROUP_VALUE_FLAGS)
    ensures GoParse(fs, Arrange(Normalizing(fs), Arrange(BySpelling(GROUP_VALUE_FLAGS), ["p", "-parent", "v"])))
            == SetThen(fs, "parent", "p", ["v"])
  {
    NotInSpellingTables();
    TheseAreSpellings();
    SpellingTableMisses(fs, GROUP_VALUE_FLAGS, "p", "-parent", "parent", "v");
  }

  /** It lists `--max-concurrent` in no spelling: the documented `group create wide --max-concurrent 4` fails,
      because the number is taken to be `wide`. */
  lemma GroupTableMissesMaxConcurrent(fs: FlagSet)
    requires "max-concurrent" in fs.kinds && fs.kinds["max-concurrent"] == Valued
    requires !fs.accepts("max-concurrent", "wide")
    ensures !SpellingTableFits(fs, GROUP_VALUE_FLAGS)
    ensures GoParse(fs, Arrange(Normalizing(fs),
                                Arrange(BySpelling(GROUP_VALUE_FLAGS), ["wide", "--max-concurrent", "4"])))
            == Failed([], InvalidValue("max-concurrent", "wide"))
  {
    NotInSpellingTables();
    TheseAreSpellings();
    SpellingTableMisses(fs, GROUP_VALUE_FLAGS, "wide", "--max-concurrent", "max-concurrent", "4");
  }

  /** The table of try lists `-c` but not `--c`. */
  lemma TryTableMissesTwoDashes(fs: FlagSet)
    requires "c" in fs.kinds && fs.kinds["c"] == Valued
    ensures !SpellingTableFits(fs, TRY_VALUE_FLAGS)
    ensures GoParse(fs, Arrange(BySpelling(TRY_VALUE_FLAGS), ["p", "--c", "v"])) == SetThen(fs, "c", "p", ["v"])
  {
    NotInSpellingTables();
    TheseAreSpellings();
    SpellingTableMisses(fs, TRY_VALUE_FLAGS, "p", "--c", "c", "v");
  }

  /** What the table of remote lists: the two-dash spelling of every flag, boolean flags too, and nothing else. */
  lemma RemoteListsAll(fs: FlagSet, name: string)
    ensures "--" + name in RemoteValueFlags(fs) <==> name in fs.kinds
    ensures WellNamed(name) ==> "-" + name !in RemoteValueFlags(fs)
  {
    forall other | other in fs.kinds
      ensures "--" + name == "--" + other <==> name == other
      ensures WellNamed(name) ==> "-" + name != "--" + other
    {
      assert ("--" + name)[2..] == name && ("--" + other)[2..] == other;
      assert WellNamed(name) ==> ("-" + name)[1] == name[0] && ("--" + other)[1] == '-';
    }
  }

  /** The table of remote lists two-dash spellings only, and all of them, so it fits no flag set that defines
      anything. */
  lemma RemoteTableNeverFits(fs: FlagSet, name: string)
    requires name in fs.kinds && WellNamed(name)
    ensures !SpellingTableFits(fs, RemoteValueFlags(fs))
  {
    if fs.kinds[name] == Valued {
      forall other | other in fs.kinds
        ensures "-" + name != "--" + other
      {
        assert ("-" + name)[1] == name[0] && ("--" + other)[1] == '-';
      }
    }
  }
}
