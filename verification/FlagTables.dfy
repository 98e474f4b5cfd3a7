/** The tables of the reorderers against the flags that the commands define: for every one of them, what becomes of
    it between two other arguments. */
module FlagTables {
  import opened FlagArgs
  import opened FlagReorder

  /** The flags of a command: those that take a value, and the others. */
  datatype Definition = Definition(valued: set<string>, boolean: set<string>)

  const ADD: Definition := Definition(
    { "title", "t", "group", "g", "cmd", "c", "wrapper", "parent", "p", "w", "worktree", "location", "mcp", "channel",
      "plugin", "extra-arg", "sandbox-image", "ssh", "remote-path", "resume-session", "model", "tmux-socket", "account" },
    { "no-parent", "no-transition-notify", "title-lock", "no-title-sync", "quick", "Q", "json", "quiet", "q", "b",
      "new-branch", "no-channel-link", "sandbox", "yolo", "gemini-yolo" })

  const LAUNCH: Definition := Definition(
    { "title", "t", "group", "g", "cmd", "c", "wrapper", "message", "m", "parent", "p", "w", "worktree", "location", "mcp",
      "channel", "plugin", "extra-arg", "resume-session", "model", "tmux-socket", "idle-timeout" },
    { "no-wait", "no-parent", "no-transition-notify", "title-lock", "no-title-sync", "inherit-telegram-env", "json",
      "quiet", "q", "b", "new-branch", "no-channel-link" })

  const GROUP_CREATE: Definition := Definition({ "parent", "default-path", "max-concurrent" }, { "json", "quiet", "q" })

  const GROUP_UPDATE: Definition := Definition({ "default-path", "max-concurrent" }, { "clear-default-path", "json", "quiet", "q" })

  const GROUP_REORDER: Definition := Definition({ "position", "p" }, { "up", "u", "down", "d", "json", "quiet", "q" })

  const TRY: Definition := Definition({ "cmd", "c" }, { "list", "l", "json", "quiet", "q", "no-session", "sandbox" })

  /** The flag set holds exactly these flags. */
  predicate Defines(fs: FlagSet, d: Definition) {
    && fs.kinds.Keys == d.valued + d.boolean
    && (forall n :: n in d.valued ==> n in fs.kinds && fs.kinds[n] == Valued)
    && (forall n :: n in d.boolean ==> n in fs.kinds && fs.kinds[n] == Boolean && fs.accepts(n, "true"))
  }

  // ---------- one flag between two arguments ----------

  /** The value stays with its flag, before normalizing and on its own. */
  predicate ValueKept(fs: FlagSet, q: Reading, x: string, flag: string, name: string, y: string) {
    && GoParse(fs, Arrange(q, [x, flag, y])) == SetThen(fs, name, y, [x])
    && GoParse(fs, Arrange(Normalizing(fs), Arrange(q, [x, flag, y]))) == SetThen(fs, name, y, [x])
  }

  /** The flag takes the positional, and the value is left. */
  predicate ValueLost(fs: FlagSet, q: Reading, x: string, flag: string, name: string, y: string) {
    && GoParse(fs, Arrange(q, [x, flag, y])) == SetThen(fs, name, x, [y])
    && GoParse(fs, Arrange(Normalizing(fs), Arrange(q, [x, flag, y]))) == SetThen(fs, name, x, [y])
  }

  /** The flag is set, and both arguments are positionals. */
  predicate BothKept(fs: FlagSet, q: Reading, x: string, flag: string, name: string, y: string) {
    && GoParse(fs, Arrange(q, [x, flag, y])) == Parsed([Assignment(name, "true")], [x, y])
    && GoParse(fs, Arrange(Normalizing(fs), Arrange(q, [x, flag, y]))) == Parsed([Assignment(name, "true")], [x, y])
  }

  lemma ListedFlagMoves(q: Reading, x: string, flag: string, y: string)
    requires q.isFlag(flag) && q.takesValue(flag) && !q.isFlag(x) && (q.stopsAtTerminator ==> flag != TERMINATOR && x != TERMINATOR)
    ensures Arrange(q, [x, flag, y]) == [flag, y, x] && Arrange(q, [flag, y, x]) == [flag, y, x]
  {
    assert [x, flag, y][1..] == [flag, y] && [flag, y][2..] == [] && [flag, y, x][2..] == [x] && [x][1..] == [];
    ArrangeStep(q, [x, flag, y]);
    ArrangeStep(q, [flag, y]);
    ArrangeStep(q, [flag, y, x]);
    ArrangeStep(q, [x]);
    assert [flag, y] + [] == [flag, y] && [x] + [] == [x];
  }

  lemma ListedFlagKeepsValue(fs: FlagSet, q: Reading, x: string, flag: string, name: string, y: string)
    requires WellNamed(name) && name in fs.kinds && fs.kinds[name] == Valued && IsSpelling(flag, name)
    requires IsBare(x) && q.isFlag(flag) && q.takesValue(flag) && !q.isFlag(x) && !q.stopsAtTerminator
    ensures ValueKept(fs, q, x, flag, name, y)
  {
    SpellingIsFlag(flag, name);
    ListedFlagMoves(q, x, flag, y);
    ListedFlagMoves(Normalizing(fs), x, flag, y);
    ReadAsMoved(fs, flag, name, y, x);
  }

  lemma MissedFlagLosesValue(fs: FlagSet, q: Reading, x: string, flag: string, name: string, y: string)
    requires WellNamed(name) && name in fs.kinds && fs.kinds[name] == Valued && IsSpelling(flag, name)
    requires IsBare(x) && IsBare(y) && q.isFlag(flag) && !q.isFlag(x) && !q.isFlag(y) && !q.takesValue(flag)
    ensures ValueLost(fs, q, x, flag, name, y)
  {
    MissedFlagTakesPositional(fs, q, x, flag, name, y);
  }

  lemma BooleanKeepsBoth(fs: FlagSet, q: Reading, x: string, flag: string, name: string, y: string)
    requires WellNamed(name) && name in fs.kinds && fs.kinds[name] == Boolean && IsSpelling(flag, name)
    requires fs.accepts(name, "true")
    requires IsBare(x) && IsBare(y) && q.isFlag(flag) && !q.isFlag(x) && !q.isFlag(y) && !q.takesValue(flag)
    ensures BothKept(fs, q, x, flag, name, y)
  {
    SpellingIsFlag(flag, name);
    WitnessMoves(q, x, flag, y);
    BooleanStays(fs, flag, name, x, y);
    BooleanParsed(fs, flag, name, x, y);
  }

  lemma BooleanParsed(fs: FlagSet, flag: string, name: string, x: string, y: string)
    requires WellNamed(name) && name in fs.kinds && fs.kinds[name] == Boolean && IsSpelling(flag, name)
    requires fs.accepts(name, "true") && IsBare(x)
    ensures GoParse(fs, [flag, x, y]) == Parsed([Assignment(name, "true")], [x, y])
  {
    BooleanReads(fs, flag, name, [x, y]);
    assert [flag] + [x, y] == [flag, x, y] && [flag, x, y][1..] == [x, y];
    assert GoParse(fs, [x, y]) == Parsed([], [x, y]);
  }

  lemma BooleanStays(fs: FlagSet, flag: string, name: string, x: string, y: string)
    requires WellNamed(name) && name in fs.kinds && fs.kinds[name] == Boolean && IsSpelling(flag, name)
    requires IsBare(x) && IsBare(y)
    ensures Arrange(Normalizing(fs), [flag, x, y]) == [flag, x, y]
  {
    var r := Normalizing(fs);
    SpellingIsFlag(flag, name);
    assert [flag, x, y][1..] == [x, y];
    ArrangeStep(r, [flag, x, y]);
    BareArgsStay(r, [x, y]);
    assert [flag] + [] == [flag] && [flag] + [x, y] == [flag, x, y];
  }

  // ---------- add and launch ----------

  lemma AddNames(n: string)
    requires n in ADD.valued
    ensures WellNamed(n) && (n in ADD_VALUE_FLAGS <==> n != "account")
  {
  }

  lemma AddBooleanNames(n: string)
    requires n in ADD.boolean
    ensures WellNamed(n) && n !in ADD_VALUE_FLAGS
  {
  }

  lemma LaunchNames(n: string)
    requires n in LAUNCH.valued
    ensures WellNamed(n) && (n in ADD_VALUE_FLAGS <==> n != "idle-timeout")
  {
  }

  lemma LaunchBooleanNames(n: string)
    requires n in LAUNCH.boolean
    ensures WellNamed(n) && n !in ADD_VALUE_FLAGS
  {
  }

  /** `add`, for every flag it defines, in either spelling: a flag that takes a value gets the argument behind it,
      all but `--account`, which takes the one before it instead. */
  lemma AddReadsValue(fs: FlagSet, n: string, flag: string, x: string, y: string)
    requires Defines(fs, ADD) && n in ADD.valued && IsSpelling(flag, n) && IsBare(x)
    ensures n != "account" ==> ValueKept(fs, ByName(ADD_VALUE_FLAGS), x, flag, n, y)
    ensures n == "account" && IsBare(y) ==> ValueLost(fs, ByName(ADD_VALUE_FLAGS), x, flag, n, y)
  {
    AddNames(n);
    SpellingIsFlag(flag, n);
    NameIsRead(fs, n, flag, x, y);
  }

  lemma NameIsRead(fs: FlagSet, n: string, flag: string, x: string, y: string)
    requires n in fs.kinds && fs.kinds[n] == Valued && WellNamed(n) && IsSpelling(flag, n) && IsBare(x)
    ensures n in ADD_VALUE_FLAGS ==> ValueKept(fs, ByName(ADD_VALUE_FLAGS), x, flag, n, y)
    ensures n !in ADD_VALUE_FLAGS && IsBare(y) ==> ValueLost(fs, ByName(ADD_VALUE_FLAGS), x, flag, n, y)
  {
    SpellingIsFlag(flag, n);
    if n in ADD_VALUE_FLAGS {
      ListedFlagKeepsValue(fs, ByName(ADD_VALUE_FLAGS), x, flag, n, y);
    } else if IsBare(y) {
      MissedFlagLosesValue(fs, ByName(ADD_VALUE_FLAGS), x, flag, n, y);
    }
  }

  /** And none of its other flags takes an argument. */
  lemma AddKeepsPositionals(fs: FlagSet, n: string, flag: string, x: string, y: string)
    requires Defines(fs, ADD) && n in ADD.boolean && IsSpelling(flag, n) && IsBare(x) && IsBare(y)
    ensures BothKept(fs, ByName(ADD_VALUE_FLAGS), x, flag, n, y)
  {
    AddBooleanNames(n);
    SpellingIsFlag(flag, n);
    BooleanKeepsBoth(fs, ByName(ADD_VALUE_FLAGS), x, flag, n, y);
  }

  /** `launch`: all but `--idle-timeout`. */
  lemma LaunchReadsValue(fs: FlagSet, n: string, flag: string, x: string, y: string)
    requires Defines(fs, LAUNCH) && n in LAUNCH.valued && IsSpelling(flag, n) && IsBare(x)
    ensures n != "idle-timeout" ==> ValueKept(fs, ByName(ADD_VALUE_FLAGS), x, flag, n, y)
    ensures n == "idle-timeout" && IsBare(y) ==> ValueLost(fs, ByName(ADD_VALUE_FLAGS), x, flag, n, y)
  {
    LaunchNames(n);
    NameIsRead(fs, n, flag, x, y);
  }

  lemma LaunchKeepsPositionals(fs: FlagSet, n: string, flag: string, x: string, y: string)
    requires Defines(fs, LAUNCH) && n in LAUNCH.boolean && IsSpelling(flag, n) && IsBare(x) && IsBare(y)
    ensures BothKept(fs, ByName(ADD_VALUE_FLAGS), x, flag, n, y)
  {
    LaunchBooleanNames(n);
    SpellingIsFlag(flag, n);
    BooleanKeepsBoth(fs, ByName(ADD_VALUE_FLAGS), x, flag, n, y);
  }

  // ---------- group and try ----------

  lemma SpellingIsRead(fs: FlagSet, table: set<string>, n: string, flag: string, x: string, y: string)
    requires n in fs.kinds && fs.kinds[n] == Valued && WellNamed(n) && IsSpelling(flag, n) && IsBare(x)
    ensures flag in table ==> ValueKept(fs, BySpelling(table), x, flag, n, y)
    ensures flag !in table && IsBare(y) ==> ValueLost(fs, BySpelling(table), x, flag, n, y)
  {
    SpellingIsFlag(flag, n);
    if flag in table {
      ListedFlagKeepsValue(fs, BySpelling(table), x, flag, n, y);
    } else if IsBare(y) {
      MissedFlagLosesValue(fs, BySpelling(table), x, flag, n, y);
    }
  }

  lemma OtherFlagIsRead(fs: FlagSet, table: set<string>, n: string, flag: string, x: string, y: string)
    requires n in fs.kinds && fs.kinds[n] == Boolean && fs.accepts(n, "true") && WellNamed(n) && IsSpelling(flag, n)
    requires IsBare(x) && IsBare(y) && flag !in table
    ensures BothKept(fs, BySpelling(table), x, flag, n, y)
  {
    SpellingIsFlag(flag, n);
    BooleanKeepsBoth(fs, BySpelling(table), x, flag, n, y);
  }

  lemma SameSpelling(flag: string, n: string, m: string)
    requires WellNamed(n) && WellNamed(m) && IsSpelling(flag, n)
    ensures flag == "--" + m <==> n == m && flag == "--" + n
    ensures flag == "-" + m <==> n == m && flag == "-" + n
  {
    assert ("--" + n)[2..] == n && ("--" + m)[2..] == m && ("-" + n)[1..] == n && ("-" + m)[1..] == m;
    assert ("-" + n)[1] == n[0] && ("-" + m)[1] == m[0] && ("--" + n)[1] == '-' && ("--" + m)[1] == '-';
  }

  lemma GroupTableIs()
    ensures GROUP_VALUE_FLAGS == { "--" + "parent", "--" + "default-path", "--" + "position", "-" + "p" }
    ensures WellNamed("parent") && WellNamed("default-path") && WellNamed("position") && WellNamed("p")
  {
    assert "--" + "parent" == "--parent" && "--" + "default-path" == "--default-path";
    assert "--" + "position" == "--position" && "-" + "p" == "-p";
  }

  /** The spellings that the table of the group commands lists: two dashes, and `-p`. */
  lemma GroupLists(n: string, flag: string)
    requires WellNamed(n) && IsSpelling(flag, n)
    ensures flag in GROUP_VALUE_FLAGS <==>
            (n in { "parent", "default-path", "position" } && flag == "--" + n) || (n == "p" && flag == "-" + n)
  {
    GroupTableIs();
    SameSpelling(flag, n, "parent");
    SameSpelling(flag, n, "default-path");
    SameSpelling(flag, n, "position");
    SameSpelling(flag, n, "p");
  }

  lemma TryTableIs()
    ensures TRY_VALUE_FLAGS == { "-" + "c", "--" + "cmd", "-" + "cmd" }
    ensures WellNamed("c") && WellNamed("cmd")
  {
    assert "-" + "c" == "-c" && "--" + "cmd" == "--cmd" && "-" + "cmd" == "-cmd";
  }

  /** Those that the table of `try` lists: all but `--c`. */
  lemma TryLists(n: string, flag: string)
    requires WellNamed(n) && IsSpelling(flag, n)
    ensures flag in TRY_VALUE_FLAGS <==> n == "cmd" || (n == "c" && flag == "-" + n)
  {
    TryTableIs();
    SameSpelling(flag, n, "c");
    SameSpelling(flag, n, "cmd");
  }

  lemma GroupNames(n: string)
    requires n in GROUP_CREATE.valued + GROUP_UPDATE.valued + GROUP_REORDER.valued
    ensures WellNamed(n)
  {
  }

  lemma GroupBooleanNames(n: string)
    requires n in GROUP_CREATE.boolean + GROUP_UPDATE.boolean + GROUP_REORDER.boolean
    ensures WellNamed(n) && n !in { "parent", "default-path", "position", "p" }
  {
  }

  lemma TryNames(n: string)
    requires n in TRY.valued + TRY.boolean
    ensures WellNamed(n) && (n in TRY.boolean ==> n !in { "cmd", "c" })
  {
  }

  predicate IsGroupCommand(d: Definition) {
    d == GROUP_CREATE || d == GROUP_UPDATE || d == GROUP_REORDER
  }

  /** `group create`, `update` and `reorder`, for every flag they define, in either spelling: `--parent`,
      `--default-path`, `--position` and `-p` get the argument behind them, and every other spelling, as well as
      `--max-concurrent`, takes the one before. */
  lemma GroupReadsValue(fs: FlagSet, d: Definition, n: string, flag: string, x: string, y: string)
    requires IsGroupCommand(d) && Defines(fs, d) && n in d.valued && IsSpelling(flag, n) && IsBare(x)
    ensures if (n in { "parent", "default-path", "position" } && flag == "--" + n) || (n == "p" && flag == "-" + n)
            then ValueKept(fs, BySpelling(GROUP_VALUE_FLAGS), x, flag, n, y)
            else IsBare(y) ==> ValueLost(fs, BySpelling(GROUP_VALUE_FLAGS), x, flag, n, y)
  {
    GroupNames(n);
    GroupLists(n, flag);
    SpellingIsRead(fs, GROUP_VALUE_FLAGS, n, flag, x, y);
  }

  lemma GroupKeepsPositionals(fs: FlagSet, d: Definition, n: string, flag: string, x: string, y: string)
    requires IsGroupCommand(d) && Defines(fs, d) && n in d.boolean && IsSpelling(flag, n) && IsBare(x) && IsBare(y)
    ensures BothKept(fs, BySpelling(GROUP_VALUE_FLAGS), x, flag, n, y)
  {
    GroupBooleanNames(n);
    GroupLists(n, flag);
    OtherFlagIsRead(fs, GROUP_VALUE_FLAGS, n, flag, x, y);
  }

  /** `try`: all spellings but `--c`. */
  lemma TryReadsValue(fs: FlagSet, n: string, flag: string, x: string, y: string)
    requires Defines(fs, TRY) && n in TRY.valued && IsSpelling(flag, n) && IsBare(x)
    ensures if n == "cmd" || flag == "-" + n then ValueKept(fs, BySpelling(TRY_VALUE_FLAGS), x, flag, n, y)
            else IsBare(y) ==> ValueLost(fs, BySpelling(TRY_VALUE_FLAGS), x, flag, n, y)
  {
    TryNames(n);
    TryLists(n, flag);
    SpellingIsRead(fs, TRY_VALUE_FLAGS, n, flag, x, y);
  }

  lemma TryKeepsPositionals(fs: FlagSet, n: string, flag: string, x: string, y: string)
    requires Defines(fs, TRY) && n in TRY.boolean && IsSpelling(flag, n) && IsBare(x) && IsBare(y)
    ensures BothKept(fs, BySpelling(TRY_VALUE_FLAGS), x, flag, n, y)
  {
    TryNames(n);
    TryLists(n, flag);
    OtherFlagIsRead(fs, TRY_VALUE_FLAGS, n, flag, x, y);
  }
}
