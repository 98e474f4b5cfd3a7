/** Command lines with flags anywhere, and the parser that stops at the first positional.

    Go's flag package ends flag parsing at the first argument that is not a flag. `NormalizeArgs`
    moves flags to the front so that nothing the user wrote after a positional is missed. The model
    holds Go's parser, the parser a user has in mind (flags anywhere), and the condition under which
    they agree on the moved arguments. */
module FlagArgs {

  datatype FlagKind = Boolean | Valued

  /** A flag set: the defined flags, and which values each flag's setter accepts. */
  datatype FlagSet = FlagSet(kinds: map<string, FlagKind>, accepts: (string, string) -> bool)

  datatype FlagError =
    | BadSyntax(arg: string)
    | NotDefined(name: string)
    | HelpRequested
    | NeedsArgument(name: string)
    | InvalidValue(name: string, value: string)

  datatype Assignment = Assignment(name: string, value: string)

  /** The outcome of a parse: the settings made, in order, and then the positionals or the error that
      ended the program. */
  datatype Parse =
    | Parsed(settings: seq<Assignment>, positional: seq<string>)
    | Failed(settings: seq<Assignment>, error: FlagError)

  const TERMINATOR := "--"

  predicate IsFlag(arg: string) {
    arg != [] && arg[0] == '-' && arg != "-"
  }

  // ---------- Go's parser ----------

  /** The text after one or two leading dashes. */
  function FlagText(arg: string): string
    requires IsFlag(arg)
  {
    if arg[1] == '-' then arg[2..] else arg[1..]
  }

  function IndexOf(s: string, c: char): (i: nat)
    ensures i <= |s| && c !in s[..i]
    ensures i < |s| ==> s[i] == c
  {
    if s == [] || s[0] == c then 0
    else
      var i := 1 + IndexOf(s[1..], c);
      assert s[..i] == [s[0]] + s[1..][..i - 1];
      i
  }

  datatype Step = Took(assignment: Assignment, used: nat) | Refused(error: FlagError)

  /** One flag off the front of the list, as the flag package takes it. */
  function TakeFlag(fs: FlagSet, args: seq<string>): (s: Step)
    requires args != [] && IsFlag(args[0]) && args[0] != TERMINATOR
    ensures s.Took? ==> 1 <= s.used <= |args| && s.used <= 2
  {
    var text := FlagText(args[0]);
    if text == [] || text[0] == '-' || text[0] == '=' then Refused(BadSyntax(args[0]))
    else
      var eq := IndexOf(text, '=');
      var name := text[..eq];
      if name !in fs.kinds then
        Refused(if name == "help" || name == "h" then HelpRequested else NotDefined(name))
      else if eq < |text| then Set(fs, name, text[eq + 1..], 1)
      else if fs.kinds[name] == Boolean then Set(fs, name, "true", 1)
      else if |args| == 1 then Refused(NeedsArgument(name))
      else Set(fs, name, args[1], 2)
  }

  function Set(fs: FlagSet, name: string, value: string, used: nat): Step {
    if fs.accepts(name, value) then Took(Assignment(name, value), used) else Refused(InvalidValue(name, value))
  }

  function After(a: Assignment, p: Parse): Parse {
    match p
    case Parsed(settings, positional) => Parsed([a] + settings, positional)
    case Failed(settings, error) => Failed([a] + settings, error)
  }

  function WithPositionals(before: seq<string>, p: Parse): Parse {
    match p
    case Parsed(settings, positional) => Parsed(settings, before + positional)
    case Failed(_, _) => p
  }

  /** Go's rule: flags until the first positional or the terminator. */
  function GoParse(fs: FlagSet, args: seq<string>): Parse {
    if args == [] || !IsFlag(args[0]) then Parsed([], args)
    else if args[0] == TERMINATOR then Parsed([], args[1..])
    else
      match TakeFlag(fs, args)
      case Refused(error) => Failed([], error)
      case Took(a, used) => After(a, GoParse(fs, args[used..]))
  }

  /** What the user means: the same flags, wherever they stand before a terminator. */
  function InterspersedParse(fs: FlagSet, args: seq<string>): Parse {
    if args == [] then Parsed([], [])
    else if args[0] == TERMINATOR then Parsed([], args[1..])
    else if !IsFlag(args[0]) then WithPositionals([args[0]], InterspersedParse(fs, args[1..]))
    else
      match TakeFlag(fs, args)
      case Refused(error) => Failed([], error)
      case Took(a, used) => After(a, InterspersedParse(fs, args[used..]))
  }

  // ---------- moving flags to the front ----------

  /** A stretch of the command line that moves as one piece. */
  datatype Unit =
    | Bare(arg: string)
    | Flag(arg: string)
    | FlagWithValue(arg: string, value: string)

  function Tokens(u: Unit): seq<string> {
    if u.FlagWithValue? then [u.arg, u.value] else [u.arg]
  }

  function Flatten(units: seq<Unit>): seq<string> {
    if units == [] then [] else Tokens(units[0]) + Flatten(units[1..])
  }

  function Flags(units: seq<Unit>): seq<Unit> {
    if units == [] then []
    else if units[0].Bare? then Flags(units[1..])
    else [units[0]] + Flags(units[1..])
  }

  function Bares(units: seq<Unit>): seq<Unit> {
    if units == [] then []
    else if units[0].Bare? then [units[0]] + Bares(units[1..])
    else Bares(units[1..])
  }

  /** How one of the reorderers reads a command line. */
  datatype Reading = Reading(isFlag: string -> bool, takesValue: string -> bool, stopsAtTerminator: bool)

  function Units(r: Reading, args: seq<string>): seq<Unit> {
    if args == [] then []
    else if r.stopsAtTerminator && args[0] == TERMINATOR then seq(|args| - 1, i requires 0 <= i < |args| - 1 => Bare(args[i + 1]))
    else if !r.isFlag(args[0]) then [Bare(args[0])] + Units(r, args[1..])
    else if r.takesValue(args[0]) && |args| > 1 then [FlagWithValue(args[0], args[1])] + Units(r, args[2..])
    else [Flag(args[0])] + Units(r, args[1..])
  }

  function Front(r: Reading, args: seq<string>): seq<string> {
    Flatten(Flags(Units(r, args)))
  }

  function Back(r: Reading, args: seq<string>): seq<string> {
    Flatten(Bares(Units(r, args)))
  }

  /** Flag units first, then the rest, each group in the order written. */
  function Arrange(r: Reading, args: seq<string>): seq<string> {
    Front(r, args) + Back(r, args)
  }

  function TrimLeftDashes(s: string): string {
    if s != [] && s[0] == '-' then TrimLeftDashes(s[1..]) else s
  }

  /** `normalizeArgs`: every flag not known to be boolean takes the next argument. */
  function Normalizing(fs: FlagSet): Reading {
    Reading(
      arg => IsFlag(arg),
      arg => TakesValue(fs, arg),
      true)
  }

  predicate TakesValue(fs: FlagSet, arg: string) {
    var name := TrimLeftDashes(arg);
    '=' !in name && !(name in fs.kinds && fs.kinds[name] == Boolean)
  }

  /** How many arguments the first unit holds. */
  function UnitLength(r: Reading, args: seq<string>): (n: nat)
    requires args != []
    ensures 1 <= n <= |args|
  {
    if r.isFlag(args[0]) && r.takesValue(args[0]) && |args| > 1 then 2 else 1
  }

  /** How the first argument moves. */
  lemma ArrangeStep(r: Reading, args: seq<string>)
    requires args != [] && !(r.stopsAtTerminator && args[0] == TERMINATOR)
    ensures !r.isFlag(args[0]) ==>
              Front(r, args) == Front(r, args[1..]) && Back(r, args) == [args[0]] + Back(r, args[1..])
    ensures r.isFlag(args[0]) && r.takesValue(args[0]) && |args| > 1 ==>
              Front(r, args) == [args[0], args[1]] + Front(r, args[2..]) && Back(r, args) == Back(r, args[2..])
    ensures r.isFlag(args[0]) && !(r.takesValue(args[0]) && |args| > 1) ==>
              Front(r, args) == [args[0]] + Front(r, args[1..]) && Back(r, args) == Back(r, args[1..])
  {
    var units := Units(r, args);
    assert units == [units[0]] + units[1..];
    assert ([units[0]] + Flags(units[1..]))[1..] == Flags(units[1..]);
    assert ([units[0]] + Bares(units[1..]))[1..] == Bares(units[1..]);
  }

  lemma FlagMoves(r: Reading, args: seq<string>)
    requires args != [] && !(r.stopsAtTerminator && args[0] == TERMINATOR) && r.isFlag(args[0])
    ensures var n := UnitLength(r, args);
            Front(r, args) == args[..n] + Front(r, args[n..]) && Back(r, args) == Back(r, args[n..])
  {
    ArrangeStep(r, args);
    if UnitLength(r, args) == 2 {
      assert args[..2] == [args[0], args[1]];
    } else {
      assert args[..1] == [args[0]];
    }
  }

  /** The first `i` arguments have been moved. */
  ghost predicate Moved(r: Reading, args: seq<string>, i: nat, flags: seq<string>, positional: seq<string>) {
    && i <= |args|
    && flags + Front(r, args[i..]) == Front(r, args)
    && positional + Back(r, args[i..]) == Back(r, args)
  }

  lemma MoveStep(r: Reading, args: seq<string>, i: nat, flags: seq<string>, positional: seq<string>)
    requires i < |args| && Moved(r, args, i, flags, positional)
    ensures r.stopsAtTerminator && args[i] == TERMINATOR ==> Moved(r, args, |args|, flags, positional + args[i + 1..])
    ensures !(r.stopsAtTerminator && args[i] == TERMINATOR) ==>
              if !r.isFlag(args[i]) then Moved(r, args, i + 1, flags, positional + [args[i]])
              else if r.takesValue(args[i]) && i + 1 < |args| then
                Moved(r, args, i + 2, flags + [args[i], args[i + 1]], positional)
              else Moved(r, args, i + 1, flags + [args[i]], positional)
  {
    var rest := args[i..];
    assert rest[1..] == args[i + 1..];
    if r.stopsAtTerminator && args[i] == TERMINATOR {
      BareRun(Units(r, rest), args[i + 1..]);
      assert args[|args|..] == [];
    } else {
      ArrangeStep(r, rest);
      assert i + 1 < |args| ==> rest[2..] == args[i + 2..];
    }
  }

  lemma MovedAll(r: Reading, args: seq<string>, flags: seq<string>, positional: seq<string>)
    requires Moved(r, args, |args|, flags, positional)
    ensures flags + positional == Arrange(r, args)
  {
    assert args[|args|..] == [];
  }

  /** The loop all the reorderers run. */
  method MoveFlags(r: Reading, args: seq<string>) returns (result: seq<string>)
    ensures result == Arrange(r, args)
  {
    var flags: seq<string>, positional: seq<string> := [], [];
    var i := 0;
    assert args[0..] == args;
    while i < |args|
      invariant Moved(r, args, i, flags, positional)
    {
      MoveStep(r, args, i, flags, positional);
      var arg := args[i];
      if r.stopsAtTerminator && arg == TERMINATOR {
        positional := positional + args[i + 1..];
        break;
      }
      if r.isFlag(arg) {
        if r.takesValue(arg) && i + 1 < |args| {
          i := i + 1;
          flags := flags + [arg, args[i]];
        } else {
          flags := flags + [arg];
        }
      } else {
        positional := positional + [arg];
      }
      i := i + 1;
    }
    MovedAll(r, args, flags, positional);
    return flags + positional;
  }

  lemma {:induction false} BareRun(units: seq<Unit>, args: seq<string>)
    requires |units| == |args| && forall i :: 0 <= i < |args| ==> units[i] == Bare(args[i])
    ensures Flags(units) == [] && Bares(units) == units && Flatten(units) == args
  {
    if units != [] {
      BareRun(units[1..], args[1..]);
    }
  }

  method NormalizeArgs(fs: FlagSet, args: seq<string>) returns (result: seq<string>)
    ensures result == Arrange(Normalizing(fs), args)
  {
    result := MoveFlags(Normalizing(fs), args);
  }

  // ---------- when moving the flags keeps the meaning ----------

  /** How a left-to-right reading of the command line ends. */
  datatype Ending = EndOfArgs | Terminated(rest: seq<string>) | MissingValue | OtherError

  /** What a left-to-right reading meets: the positionals before its end, and the end. */
  datatype Scan = Scan(positionals: nat, ending: Ending)

  function ScanArgs(fs: FlagSet, args: seq<string>): Scan {
    if args == [] then Scan(0, EndOfArgs)
    else if args[0] == TERMINATOR then Scan(0, Terminated(args[1..]))
    else if !IsFlag(args[0]) then
      var s := ScanArgs(fs, args[1..]);
      Scan(s.positionals + 1, s.ending)
    else
      match TakeFlag(fs, args)
      case Refused(NeedsArgument(_)) => Scan(0, MissingValue)
      case Refused(_) => Scan(0, OtherError)
      case Took(_, used) => ScanArgs(fs, args[used..])
  }

  /** The two ways to lose the meaning: a last flag without its value takes a positional, and a
      dash-led argument that only the terminator kept from being a flag comes first. */
  predicate KeepsMeaning(positionals: nat, ending: Ending) {
    match ending
    case MissingValue => positionals == 0
    case Terminated(rest) => positionals > 0 || rest == [] || !IsFlag(rest[0])
    case _ => true
  }

  lemma {:induction false} NoCharBefore(s: string, c: char)
    ensures IndexOf(s, c) < |s| <==> c in s
  {
  }

  /** Both parsers read the same name off a well-formed flag. */
  lemma NameOf(arg: string)
    requires IsFlag(arg) && FlagText(arg) != [] && FlagText(arg)[0] != '-'
    ensures TrimLeftDashes(arg) == FlagText(arg)
  {
    if arg[1] == '-' {
      assert TrimLeftDashes(arg) == TrimLeftDashes(arg[1..]) == TrimLeftDashes(arg[1..][1..]);
      assert arg[1..][1..] == arg[2..];
    }
  }

  /** A flag without "=" in it: its name is all of its text. */
  lemma PlainFlag(arg: string)
    requires IsFlag(arg) && FlagText(arg) != [] && FlagText(arg)[0] != '-'
    ensures TrimLeftDashes(arg) == FlagText(arg)
    ensures '=' in FlagText(arg) <==> IndexOf(FlagText(arg), '=') < |FlagText(arg)|
    ensures '=' !in FlagText(arg) ==> FlagText(arg)[..IndexOf(FlagText(arg), '=')] == FlagText(arg)
  {
    NameOf(arg);
    NoCharBefore(FlagText(arg), '=');
  }

  /** A flag that is taken takes its unit, and one refused for want of a value stands last. */
  lemma FlagTakesItsUnit(fs: FlagSet, args: seq<string>)
    requires args != [] && IsFlag(args[0]) && args[0] != TERMINATOR
    ensures var n := UnitLength(Normalizing(fs), args);
            var s := TakeFlag(fs, args);
            && (s.Took? ==> s.used == n)
            && (s.Refused? && s.error.NeedsArgument? ==>
                  |args| == 1 && n == 1 && Normalizing(fs).takesValue(args[0]))
  {
    var text := FlagText(args[0]);
    if text != [] && text[0] != '-' && text[0] != '=' {
      PlainFlag(args[0]);
    }
  }

  lemma SameTwoTokens(fs: FlagSet, a: seq<string>, b: seq<string>)
    requires |a| > 1 && |b| > 1 && a[0] == b[0] && a[1] == b[1] && IsFlag(a[0]) && a[0] != TERMINATOR
    ensures TakeFlag(fs, a) == TakeFlag(fs, b)
  {
  }

  lemma SameOneToken(fs: FlagSet, a: seq<string>, b: seq<string>)
    requires a != [] && b != [] && a[0] == b[0] && IsFlag(a[0]) && a[0] != TERMINATOR
    requires !TakesValue(fs, a[0])
    ensures TakeFlag(fs, a) == TakeFlag(fs, b)
  {
    var text := FlagText(a[0]);
    if text != [] && text[0] != '-' && text[0] != '=' {
      PlainFlag(a[0]);
    }
  }

  /** A flag that takes a value and stands alone is refused without looking further. */
  lemma SameLoneToken(fs: FlagSet, a: seq<string>, b: seq<string>)
    requires |a| == 1 && b != [] && a[0] == b[0] && IsFlag(a[0]) && a[0] != TERMINATOR
    requires var s := TakeFlag(fs, a); !(s.Refused? && s.error.NeedsArgument?)
    ensures TakeFlag(fs, a) == TakeFlag(fs, b)
  {
  }

  /** What is made of a flag depends on its own unit alone, unless its value is missing. */
  lemma FlagIsItsUnit(fs: FlagSet, args: seq<string>, tail: seq<string>)
    requires args != [] && IsFlag(args[0]) && args[0] != TERMINATOR
    requires var s := TakeFlag(fs, args); !(s.Refused? && s.error.NeedsArgument?)
    ensures TakeFlag(fs, args[..UnitLength(Normalizing(fs), args)] + tail) == TakeFlag(fs, args)
  {
    var moved := args[..UnitLength(Normalizing(fs), args)] + tail;
    assert moved[0] == args[0];
    if !Normalizing(fs).takesValue(args[0]) {
      SameOneToken(fs, args, moved);
    } else if |args| == 1 {
      SameLoneToken(fs, args, moved);
    } else {
      assert moved[1] == args[1];
      SameTwoTokens(fs, args, moved);
    }
  }

  lemma AfterDiffers(a: Assignment, p: Parse, q: Parse)
    ensures After(a, p) == After(a, q) <==> p == q
  {
    assert forall s: seq<Assignment>, t: seq<Assignment> :: [a] + s == [a] + t ==> ([a] + s)[1..] == s && ([a] + t)[1..] == t;
  }

  /** Go's parser on the moved arguments gives the user's parse; `before` holds the positionals already
      moved behind the flags still to come. */
  ghost predicate Agrees(fs: FlagSet, args: seq<string>, before: seq<string>) {
    var r := Normalizing(fs);
    GoParse(fs, Front(r, args) + (before + Back(r, args))) == WithPositionals(before, InterspersedParse(fs, args))
  }

  ghost predicate Keeps(fs: FlagSet, args: seq<string>, before: seq<string>) {
    KeepsMeaning(|before| + ScanArgs(fs, args).positionals, ScanArgs(fs, args).ending)
  }

  lemma {:induction false} ParsersAgree(fs: FlagSet, args: seq<string>, before: seq<string>)
    requires forall p :: p in before ==> !IsFlag(p)
    ensures Agrees(fs, args, before) <==> Keeps(fs, args, before)
    decreases |args|
  {
    if args == [] {
      assert Front(Normalizing(fs), args) + (before + Back(Normalizing(fs), args)) == before;
    } else if args[0] == TERMINATOR {
      BareRun(Units(Normalizing(fs), args), args[1..]);
      assert Front(Normalizing(fs), args) + (before + Back(Normalizing(fs), args)) == before + args[1..];
      AfterTerminator(fs, before, args[1..]);
    } else if !IsFlag(args[0]) {
      ParsersAgree(fs, args[1..], before + [args[0]]);
      BareCase(fs, args, before);
    } else {
      match TakeFlag(fs, args)
      case Took(a, used) =>
        ParsersAgree(fs, args[used..], before);
        TakenCase(fs, args, before);
      case Refused(error) =>
        if error.NeedsArgument? {
          MissingValueCase(fs, args, before);
        } else {
          RefusalCase(fs, args, before);
        }
    }
  }

  lemma BareArrangement(r: Reading, args: seq<string>, before: seq<string>)
    requires args != [] && !(r.stopsAtTerminator && args[0] == TERMINATOR) && !r.isFlag(args[0])
    ensures Front(r, args) + (before + Back(r, args))
            == Front(r, args[1..]) + ((before + [args[0]]) + Back(r, args[1..]))
  {
    ArrangeStep(r, args);
    Regroup(before, [args[0]], Back(r, args[1..]));
  }

  lemma BareParse(fs: FlagSet, args: seq<string>, before: seq<string>)
    requires args != [] && args[0] != TERMINATOR && !IsFlag(args[0])
    ensures WithPositionals(before, InterspersedParse(fs, args))
            == WithPositionals(before + [args[0]], InterspersedParse(fs, args[1..]))
  {
    var p := InterspersedParse(fs, args[1..]);
    if p.Parsed? {
      Regroup(before, [args[0]], p.positional);
    }
  }

  lemma BareCase(fs: FlagSet, args: seq<string>, before: seq<string>)
    requires args != [] && args[0] != TERMINATOR && !IsFlag(args[0])
    ensures Agrees(fs, args, before) == Agrees(fs, args[1..], before + [args[0]])
    ensures Keeps(fs, args, before) == Keeps(fs, args[1..], before + [args[0]])
  {
    BareArrangement(Normalizing(fs), args, before);
    BareParse(fs, args, before);
  }

  lemma Regroup(a: seq<string>, b: seq<string>, c: seq<string>)
    ensures (a + b) + c == a + (b + c)
  {
  }

  lemma FlagCase(fs: FlagSet, args: seq<string>, before: seq<string>) returns (n: nat, rest: seq<string>)
    requires args != [] && args[0] != TERMINATOR && IsFlag(args[0])
    ensures n == UnitLength(Normalizing(fs), args)
    ensures rest == Front(Normalizing(fs), args[n..]) + (before + Back(Normalizing(fs), args[n..]))
    ensures Front(Normalizing(fs), args) + (before + Back(Normalizing(fs), args)) == args[..n] + rest
  {
    n := UnitLength(Normalizing(fs), args);
    var front, back := Front(Normalizing(fs), args[n..]), Back(Normalizing(fs), args[n..]);
    rest := front + (before + back);
    FlagMoves(Normalizing(fs), args);
    Regroup(args[..n], front, before + back);
  }

  lemma TakenCase(fs: FlagSet, args: seq<string>, before: seq<string>)
    requires args != [] && args[0] != TERMINATOR && IsFlag(args[0]) && TakeFlag(fs, args).Took?
    ensures Agrees(fs, args, before) == Agrees(fs, args[TakeFlag(fs, args).used..], before)
    ensures Keeps(fs, args, before) == Keeps(fs, args[TakeFlag(fs, args).used..], before)
  {
    var n, rest := FlagCase(fs, args, before);
    var s := TakeFlag(fs, args);
    FlagTakesItsUnit(fs, args);
    FlagIsItsUnit(fs, args, rest);
    var moved := args[..n] + rest;
    assert moved[0] == args[0] && moved[n..] == rest;
    assert GoParse(fs, moved) == After(s.assignment, GoParse(fs, rest));
    var p := InterspersedParse(fs, args[n..]);
    assert WithPositionals(before, After(s.assignment, p)) == After(s.assignment, WithPositionals(before, p));
    AfterDiffers(s.assignment, GoParse(fs, rest), WithPositionals(before, p));
  }

  lemma MissingValueLine(fs: FlagSet, args: seq<string>, before: seq<string>)
    requires args != [] && args[0] != TERMINATOR && IsFlag(args[0])
    requires TakeFlag(fs, args).Refused? && TakeFlag(fs, args).error.NeedsArgument?
    ensures args == [args[0]]
    ensures Front(Normalizing(fs), args) + (before + Back(Normalizing(fs), args)) == [args[0]] + before
  {
    var n, rest := FlagCase(fs, args, before);
    FlagTakesItsUnit(fs, args);
    assert args[..n] == [args[0]] && args[n..] == [];
    assert rest == before;
  }

  lemma MissingValueParse(fs: FlagSet, args: seq<string>, before: seq<string>)
    requires args != [] && args[0] != TERMINATOR && IsFlag(args[0])
    requires TakeFlag(fs, args).Refused? && TakeFlag(fs, args).error.NeedsArgument?
    ensures WithPositionals(before, InterspersedParse(fs, args)) == Failed([], TakeFlag(fs, args).error)
    ensures Keeps(fs, args, before) <==> before == []
  {
  }

  lemma MissingValueCase(fs: FlagSet, args: seq<string>, before: seq<string>)
    requires args != [] && args[0] != TERMINATOR && IsFlag(args[0])
    requires TakeFlag(fs, args).Refused? && TakeFlag(fs, args).error.NeedsArgument?
    ensures Agrees(fs, args, before) <==> Keeps(fs, args, before)
  {
    MissingValueLine(fs, args, before);
    MissingValueParse(fs, args, before);
    ValueTaken(fs, args[0], before);
  }

  lemma RefusalCase(fs: FlagSet, args: seq<string>, before: seq<string>)
    requires args != [] && args[0] != TERMINATOR && IsFlag(args[0])
    requires TakeFlag(fs, args).Refused? && !TakeFlag(fs, args).error.NeedsArgument?
    ensures Agrees(fs, args, before) && Keeps(fs, args, before)
  {
    var n, rest := FlagCase(fs, args, before);
    FlagIsItsUnit(fs, args, rest);
    assert (args[..n] + rest)[0] == args[0];
  }

  lemma AfterTerminator(fs: FlagSet, before: seq<string>, rest: seq<string>)
    requires forall p :: p in before ==> !IsFlag(p)
    ensures GoParse(fs, before + rest) == Parsed([], before + rest)
            <==> before != [] || rest == [] || !IsFlag(rest[0])
  {
    var args := before + rest;
    if before != [] {
      assert args[0] in before;
    } else if rest != [] && IsFlag(rest[0]) {
      assert args == rest;
      if rest[0] != TERMINATOR && TakeFlag(fs, rest).Took? {
        var s := TakeFlag(fs, rest);
        var p := GoParse(fs, rest[s.used..]);
        assert |After(s.assignment, p).settings| > 0;
      }
    }
  }

  /** A flag without its value takes the first positional, if there is one. */
  lemma ValueTaken(fs: FlagSet, flag: string, before: seq<string>)
    requires IsFlag(flag) && flag != TERMINATOR
    requires TakeFlag(fs, [flag]).Refused? && TakeFlag(fs, [flag]).error.NeedsArgument?
    ensures GoParse(fs, [flag] + before) == Failed([], TakeFlag(fs, [flag]).error) <==> before == []
  {
    if before == [] {
      assert [flag] + before == [flag];
    } else {
      var args := [flag] + before;
      assert args[0] == flag && args[1] == before[0];
    }
  }

  /** The main result: for every flag set and every command line, Go's parser on the normalized
      arguments does what the user wrote exactly when the command line neither ends in a flag whose
      value is missing after some positional, nor shields a leading dash argument by a terminator with
      no positional before it. */
  lemma NormalizeKeepsMeaning(fs: FlagSet, args: seq<string>)
    ensures GoParse(fs, Arrange(Normalizing(fs), args)) == InterspersedParse(fs, args)
            <==> KeepsMeaning(ScanArgs(fs, args).positionals, ScanArgs(fs, args).ending)
  {
    ParsersAgree(fs, args, []);
    EmptyBefore(Front(Normalizing(fs), args), Back(Normalizing(fs), args), InterspersedParse(fs, args));
  }

  lemma EmptyBefore(front: seq<string>, back: seq<string>, p: Parse)
    ensures front + ([] + back) == front + back && WithPositionals([], p) == p
  {
    assert p.Parsed? ==> [] + p.positional == p.positional;
  }
}
