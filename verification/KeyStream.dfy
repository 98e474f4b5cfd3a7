/** The keystroke stream of insert mode: the sender writes one line for each key to a remote process,
    which reads lines until the input ends and forwards each to its terminal. */
module KeyStream {
  type Byte = b: int | 0 <= b < 256
  type Bytes = seq<Byte>

  const LF: Byte := 10
  const CR: Byte := 13
  const SPACE: Byte := 32
  const LETTER_E: Byte := 69
  const LETTER_N: Byte := 78
  const LETTER_T: Byte := 84

  /** The scanner gives up on a line that does not fit its buffer together with the line end. */
  const MAX_LINE := 1024 * 1024

  datatype Option<T> = None | Some(value: T)

  datatype Key = Text(text: Bytes) | Named(name: Bytes) | EnterKey

  // ---------- hexadecimal text ----------

  predicate IsHexDigit(b: Byte) {
    48 <= b <= 57 || 97 <= b <= 102 || 65 <= b <= 70
  }

  function DigitOf(n: int): Byte
    requires 0 <= n < 16
  {
    if n < 10 then 48 + n else 87 + n
  }

  function ValueOf(b: Byte): (n: int)
    requires IsHexDigit(b)
    ensures 0 <= n < 16
  {
    if b <= 57 then b - 48 else if b <= 70 then b - 55 else b - 87
  }

  function HexEncode(s: Bytes): Bytes {
    if s == [] then [] else [DigitOf(s[0] / 16), DigitOf(s[0] % 16)] + HexEncode(s[1..])
  }

  function HexDecode(s: Bytes): Option<Bytes> {
    if s == [] then Some([])
    else if |s| == 1 || !IsHexDigit(s[0]) || !IsHexDigit(s[1]) then None
    else
      var rest := HexDecode(s[2..]);
      if rest.None? then None else Some([16 * ValueOf(s[0]) + ValueOf(s[1])] + rest.value)
  }

  lemma {:induction false} HexAlphabet(s: Bytes)
    ensures |HexEncode(s)| == 2 * |s|
    ensures forall i :: 0 <= i < |HexEncode(s)| ==> IsHexDigit(HexEncode(s)[i])
  {
    if s != [] {
      HexAlphabet(s[1..]);
      DigitRoundTrip(s[0] / 16);
      DigitRoundTrip(s[0] % 16);
    }
  }

  lemma DecodePair(a: Byte, b: Byte, rest: Bytes)
    requires IsHexDigit(a) && IsHexDigit(b) && HexDecode(rest).Some?
    ensures HexDecode([a, b] + rest) == Some([16 * ValueOf(a) + ValueOf(b)] + HexDecode(rest).value)
  {
    assert ([a, b] + rest)[2..] == rest;
  }

  lemma {:induction false} HexRoundTrip(s: Bytes)
    ensures HexDecode(HexEncode(s)) == Some(s)
  {
    if s != [] {
      HexRoundTrip(s[1..]);
      DigitRoundTrip(s[0] / 16);
      DigitRoundTrip(s[0] % 16);
      DecodePair(DigitOf(s[0] / 16), DigitOf(s[0] % 16), HexEncode(s[1..]));
      assert s == [s[0]] + s[1..];
    }
  }

  lemma DigitRoundTrip(n: int)
    requires 0 <= n < 16
    ensures IsHexDigit(DigitOf(n)) && ValueOf(DigitOf(n)) == n
  {
  }

  // ---------- lines ----------

  /** The input cut at line feeds; what follows the last one is a line unless it is empty. */
  function RawLines(input: Bytes): seq<Bytes> {
    if input == [] then []
    else if input[0] == LF then [[]] + RawLines(input[1..])
    else
      var rest := RawLines(input[1..]);
      if rest == [] || input[1..] == [] then [[input[0]]] else [[input[0]] + rest[0]] + rest[1..]
  }

  /** One carriage return at the end of a line belongs to the line end. */
  function DropCR(line: Bytes): Bytes {
    if line != [] && line[|line| - 1] == CR then line[..|line| - 1] else line
  }

  lemma {:induction false} FirstLine(line: Bytes, rest: Bytes)
    requires LF !in line
    ensures RawLines(line + [LF] + rest) == [line] + RawLines(rest)
  {
    var input := line + [LF] + rest;
    if line == [] {
      assert input[1..] == rest;
    } else {
      assert input[1..] == line[1..] + [LF] + rest;
      FirstLine(line[1..], rest);
      var tail := RawLines(input[1..]);
      assert tail[0] == line[1..] && tail[1..] == RawLines(rest);
      assert [input[0]] + tail[0] == line;
    }
  }

  // ---------- the reading end ----------

  datatype Item = Do(key: Key) | Skip | Bad

  /** What one line asks for. `blank` tells the keys that are white space only. */
  function Meaning(blank: Bytes -> bool, raw: Bytes): Item {
    if |raw| >= MAX_LINE then Bad
    else
      var line := DropCR(raw);
      if line == [] then Skip
      else if |line| >= 2 && line[0] == LETTER_T && line[1] == SPACE then
        var payload := HexDecode(line[2..]);
        if payload.None? then Bad else if payload.value == [] then Skip else Do(Text(payload.value))
      else if |line| >= 2 && line[0] == LETTER_N && line[1] == SPACE then
        if blank(line[2..]) then Skip else Do(Named(line[2..]))
      else if line == [LETTER_E] then Do(EnterKey)
      else Skip
  }

  datatype Script = Script(keys: seq<Key>, clean: bool)

  /** The keys the lines ask for, up to the first bad line. */
  function ScriptOf(blank: Bytes -> bool, lines: seq<Bytes>): Script {
    if lines == [] then Script([], true)
    else
      match Meaning(blank, lines[0])
      case Bad => Script([], false)
      case Skip => ScriptOf(blank, lines[1..])
      case Do(key) =>
        var rest := ScriptOf(blank, lines[1..]);
        Script([key] + rest.keys, rest.clean)
  }

  /** The terminal, which may refuse a keystroke; `accepts(k)` decides the k-th. */
  class Sink {
    const accepts: nat -> bool
    var trace: seq<Key>

    constructor (accepts: nat -> bool)
      ensures this.accepts == accepts && trace == []
    {
      this.accepts, trace := accepts, [];
    }

    method Send(key: Key) returns (ok: bool)
      modifies this
      ensures trace == old(trace) + [key] && ok == accepts(|old(trace)|)
    {
      ok := accepts(|trace|);
      trace := trace + [key];
    }
  }

  /** How many of the next `n` keystrokes succeed before one fails. */
  function Succeeds(accepts: nat -> bool, from: nat, n: nat): (k: nat)
    ensures k <= n && (k < n ==> !accepts(from + k))
    ensures forall j :: from <= j < from + k ==> accepts(j)
    decreases n
  {
    if n == 0 || !accepts(from) then 0 else 1 + Succeeds(accepts, from + 1, n - 1)
  }

  function Attempted(keys: seq<Key>, k: nat): seq<Key> {
    if k < |keys| then keys[..k + 1] else keys
  }

  datatype Run = Run(trace: seq<Key>, ok: bool)

  /** The lines played one after the other, when `from` keystrokes were sent before. */
  function Played(blank: Bytes -> bool, accepts: nat -> bool, from: nat, lines: seq<Bytes>): Run
    decreases lines
  {
    if lines == [] then Run([], true)
    else
      match Meaning(blank, lines[0])
      case Bad => Run([], false)
      case Skip => Played(blank, accepts, from, lines[1..])
      case Do(key) =>
        if !accepts(from) then Run([key], false)
        else
          var rest := Played(blank, accepts, from + 1, lines[1..]);
          Run([key] + rest.trace, rest.ok)
  }

  /** Playing the lines is sending the keys of their script until one is refused. */
  lemma {:induction false} PlayedIsScript(blank: Bytes -> bool, accepts: nat -> bool, from: nat, lines: seq<Bytes>)
    ensures var script := ScriptOf(blank, lines);
            var k := Succeeds(accepts, from, |script.keys|);
            Played(blank, accepts, from, lines)
            == Run(Attempted(script.keys, k), k == |script.keys| && script.clean)
    decreases lines
  {
    if lines != [] {
      var key := Meaning(blank, lines[0]);
      PlayedIsScript(blank, accepts, if key.Do? then from + 1 else from, lines[1..]);
      if key.Do? {
        var keys := ScriptOf(blank, lines).keys;
        assert keys[1..] == ScriptOf(blank, lines[1..]).keys;
        assert !accepts(from) ==> keys[..1] == [key.key];
        assert accepts(from) ==>
            Attempted(keys, Succeeds(accepts, from, |keys|))
            == [key.key] + Attempted(keys[1..], Succeeds(accepts, from + 1, |keys| - 1));
      }
    }
  }

  /** One line: nothing, a keystroke, or the end. */
  method DispatchLine(blank: Bytes -> bool, raw: Bytes, sink: Sink) returns (ok: bool)
    modifies sink
    ensures match Meaning(blank, raw)
            case Bad => !ok && sink.trace == old(sink.trace)
            case Skip => ok && sink.trace == old(sink.trace)
            case Do(key) => ok == sink.accepts(|old(sink.trace)|) && sink.trace == old(sink.trace) + [key]
  {
    if |raw| >= MAX_LINE {
      return false;
    }
    var line := DropCR(raw);
    if line == [] {
      return true;
    }
    if |line| >= 2 && line[0] == LETTER_T && line[1] == SPACE {
      var payload := HexDecode(line[2..]);
      if payload.None? {
        return false;
      }
      if |payload.value| == 0 {
        return true;
      }
      ok := sink.Send(Text(payload.value));
    } else if |line| >= 2 && line[0] == LETTER_N && line[1] == SPACE {
      if blank(line[2..]) {
        return true;
      }
      ok := sink.Send(Named(line[2..]));
    } else if line == [LETTER_E] {
      ok := sink.Send(EnterKey);
    } else {
      ok := true;
    }
  }

  method DispatchNext(blank: Bytes -> bool, lines: seq<Bytes>, i: nat, sink: Sink,
                      ghost total: seq<Key>, ghost okAll: bool)
    returns (ok: bool)
    requires i < |lines|
    requires PlaysOn(sink.trace, Played(blank, sink.accepts, |sink.trace|, lines[i..]), total, okAll)
    modifies sink
    ensures !ok ==> sink.trace == total && !okAll
    ensures ok ==> PlaysOn(sink.trace, Played(blank, sink.accepts, |sink.trace|, lines[i + 1..]), total, okAll)
  {
    PlayedStep(blank, sink.accepts, sink.trace, lines, i, total, okAll);
    ok := DispatchLine(blank, lines[i], sink);
  }

  /** The whole stream: the keystrokes are those the lines ask for, in order, up to the first bad line or
      the first refused keystroke; without either, and only then, it reports success. */
  method RunSendKeysStream(blank: Bytes -> bool, input: Bytes, sink: Sink) returns (ok: bool)
    modifies sink
    ensures var script := ScriptOf(blank, RawLines(input));
            var k := Succeeds(sink.accepts, |old(sink.trace)|, |script.keys|);
            && sink.trace == old(sink.trace) + Attempted(script.keys, k)
            && (ok <==> k == |script.keys| && script.clean)
  {
    var lines := RawLines(input);
    PlayedIsScript(blank, sink.accepts, |sink.trace|, lines);
    ghost var whole := Played(blank, sink.accepts, |sink.trace|, lines);
    ghost var total := sink.trace + whole.trace;
    assert lines[0..] == lines;
    var i := 0;
    while i < |lines|
      invariant 0 <= i <= |lines|
      invariant PlaysOn(sink.trace, Played(blank, sink.accepts, |sink.trace|, lines[i..]), total, whole.ok)
    {
      ok := DispatchNext(blank, lines, i, sink, total, whole.ok);
      if !ok {
        return false;
      }
      i := i + 1;
    }
    return true;
  }

  /** After the keystrokes in `trace`, playing `rest` completes the whole. */
  predicate PlaysOn(trace: seq<Key>, rest: Run, total: seq<Key>, ok: bool) {
    trace + rest.trace == total && rest.ok == ok
  }

  lemma PlayedNext(blank: Bytes -> bool, accepts: nat -> bool, from: nat, lines: seq<Bytes>, i: nat)
    requires i < |lines|
    ensures Played(blank, accepts, from, lines[i..]) ==
            match Meaning(blank, lines[i])
            case Bad => Run([], false)
            case Skip => Played(blank, accepts, from, lines[i + 1..])
            case Do(key) =>
              if !accepts(from) then Run([key], false)
              else
                var rest := Played(blank, accepts, from + 1, lines[i + 1..]);
                Run([key] + rest.trace, rest.ok)
  {
    assert lines[i..][0] == lines[i] && lines[i..][1..] == lines[i + 1..];
  }

  lemma KeyAdded(trace: seq<Key>, key: Key, rest: Run, total: seq<Key>, ok: bool)
    requires PlaysOn(trace, Run([key] + rest.trace, rest.ok), total, ok)
    ensures PlaysOn(trace + [key], rest, total, ok)
  {
    assert (trace + [key]) + rest.trace == trace + ([key] + rest.trace);
  }

  lemma PlayedStep(blank: Bytes -> bool, accepts: nat -> bool, trace: seq<Key>, lines: seq<Bytes>, i: nat,
                   total: seq<Key>, ok: bool)
    requires i < |lines| && PlaysOn(trace, Played(blank, accepts, |trace|, lines[i..]), total, ok)
    ensures match Meaning(blank, lines[i])
            case Bad => trace == total && !ok
            case Skip => PlaysOn(trace, Played(blank, accepts, |trace|, lines[i + 1..]), total, ok)
            case Do(key) =>
              if !accepts(|trace|) then trace + [key] == total && !ok
              else PlaysOn(trace + [key], Played(blank, accepts, |trace + [key]|, lines[i + 1..]), total, ok)
  {
    PlayedNext(blank, accepts, |trace|, lines, i);
    var item := Meaning(blank, lines[i]);
    if item.Do? && accepts(|trace|) {
      KeyAdded(trace, item.key, Played(blank, accepts, |trace| + 1, lines[i + 1..]), total, ok);
    }
  }

  // ---------- the sending end ----------

  /** What the sender refuses: a blank name, and a name with a line feed. */
  predicate Sendable(blank: Bytes -> bool, key: Key) {
    key.Named? ==> !blank(key.name) && LF !in key.name
  }

  function LineOf(key: Key): Bytes {
    match key
    case Text(text) => [LETTER_T, SPACE] + HexEncode(text)
    case Named(name) => [LETTER_N, SPACE] + name
    case EnterKey => [LETTER_E]
  }

  /** What is written for a key; an empty text needs nothing. */
  function Written(key: Key): Bytes {
    if key == Text([]) then [] else LineOf(key) + [LF]
  }

  function WrittenAll(keys: seq<Key>): Bytes {
    if keys == [] then [] else Written(keys[0]) + WrittenAll(keys[1..])
  }

  class StreamingSender {
    const blank: Bytes -> bool
    var wire: Bytes
    var closed: bool

    constructor (blank: Bytes -> bool)
      ensures this.blank == blank && wire == [] && !closed
    {
      this.blank, wire, closed := blank, [], false;
    }

    method Write(line: Bytes) returns (ok: bool)
      modifies this`wire
      ensures ok <==> !closed
      ensures wire == if closed then old(wire) else old(wire) + line
    {
      if closed {
        return false;
      }
      wire := wire + line;
      return true;
    }

    method SendKeys(text: Bytes) returns (ok: bool)
      modifies this`wire
      ensures ok <==> !closed || text == []
      ensures wire == if closed then old(wire) else old(wire) + Written(Text(text))
    {
      if text == [] {
        return true;
      }
      ok := Write([LETTER_T, SPACE] + HexEncode(text) + [LF]);
    }

    method SendNamedKey(name: Bytes) returns (ok: bool)
      modifies this`wire
      ensures ok <==> !closed && !blank(name) && LF !in name
      ensures wire == if ok then old(wire) + Written(Named(name)) else old(wire)
    {
      if blank(name) || LF in name {
        return false;
      }
      ok := Write([LETTER_N, SPACE] + name + [LF]);
    }

    method SendEnter() returns (ok: bool)
      modifies this`wire
      ensures ok <==> !closed
      ensures wire == if ok then old(wire) + Written(EnterKey) else old(wire)
    {
      ok := Write([LETTER_E, LF]);
    }

    method Close()
      modifies this`closed
      ensures closed
    {
      closed := true;
    }
  }

  // ---------- from end to end ----------

  /** The keys that are written at all. */
  function Visible(keys: seq<Key>): seq<Key> {
    if keys == [] then []
    else (if keys[0] == Text([]) then [] else [keys[0]]) + Visible(keys[1..])
  }

  /** The line fits, and a name does not end in what the reader takes for a line end. */
  predicate Arrives(key: Key) {
    && |LineOf(key)| < MAX_LINE
    && (key.Named? && key.name != [] ==> key.name[|key.name| - 1] != CR)
  }

  lemma LineHasNoLF(blank: Bytes -> bool, key: Key)
    requires Sendable(blank, key)
    ensures LF !in LineOf(key)
  {
    if key.Text? {
      HexAlphabet(key.text);
    }
  }

  /** What the reader makes of one written line. */
  lemma LineArrives(blank: Bytes -> bool, key: Key)
    requires Sendable(blank, key) && key != Text([])
    ensures Meaning(blank, LineOf(key)) == Do(key) <==> Arrives(key)
  {
    var line := LineOf(key);
    match key
    case Text(text) =>
      HexRoundTrip(text);
      HexAlphabet(text);
      assert line[2..] == HexEncode(text);
      assert IsHexDigit(line[|line| - 1]);
    case Named(name) =>
      assert line[2..] == name;
      if name != [] && name[|name| - 1] == CR {
        assert |DropCR(line)| == |line| - 1;
      }
    case EnterKey =>
  }

  lemma WrittenLines(blank: Bytes -> bool, keys: seq<Key>)
    requires keys != [] && Sendable(blank, keys[0])
    ensures RawLines(WrittenAll(keys)) ==
            (if keys[0] == Text([]) then [] else [LineOf(keys[0])]) + RawLines(WrittenAll(keys[1..]))
  {
    if keys[0] == Text([]) {
      assert WrittenAll(keys) == WrittenAll(keys[1..]);
    } else {
      LineHasNoLF(blank, keys[0]);
      FirstLine(LineOf(keys[0]), WrittenAll(keys[1..]));
    }
  }

  /** The script of what is written for a first key and the rest. */
  lemma ScriptOfWritten(blank: Bytes -> bool, keys: seq<Key>)
    requires keys != [] && Sendable(blank, keys[0])
    ensures var rest := ScriptOf(blank, RawLines(WrittenAll(keys[1..])));
            var script := ScriptOf(blank, RawLines(WrittenAll(keys)));
            if keys[0] == Text([]) then script == rest
            else
              match Meaning(blank, LineOf(keys[0]))
              case Bad => script == Script([], false)
              case Skip => script == rest
              case Do(key) => script == Script([key] + rest.keys, rest.clean)
  {
    WrittenLines(blank, keys);
    var rest := RawLines(WrittenAll(keys[1..]));
    if keys[0] == Text([]) {
      assert [] + rest == rest;
    } else {
      assert ([LineOf(keys[0])] + rest)[1..] == rest;
    }
  }

  lemma {:induction false} NeverMoreKeys(blank: Bytes -> bool, keys: seq<Key>)
    requires forall key :: key in keys ==> Sendable(blank, key)
    ensures |ScriptOf(blank, RawLines(WrittenAll(keys))).keys| <= |Visible(keys)|
  {
    if keys != [] {
      NeverMoreKeys(blank, keys[1..]);
      ScriptOfWritten(blank, keys);
    }
  }

  /** From end to end, for every sequence of keys the sender accepts: the reader forwards exactly those
      keys, in order, without error, if and only if every line fits the reader's buffer and no name ends
      in a carriage return. */
  lemma {:induction false} StreamRoundTrip(blank: Bytes -> bool, keys: seq<Key>)
    requires forall key :: key in keys ==> Sendable(blank, key)
    ensures ScriptOf(blank, RawLines(WrittenAll(keys))) == Script(Visible(keys), true)
            <==> forall key :: key in Visible(keys) ==> Arrives(key)
  {
    if keys != [] {
      StreamRoundTrip(blank, keys[1..]);
      NeverMoreKeys(blank, keys[1..]);
      ScriptOfWritten(blank, keys);
      if keys[0] == Text([]) {
        assert [] + Visible(keys[1..]) == Visible(keys[1..]);
      } else {
        LineArrives(blank, keys[0]);
        var visible := Visible(keys);
        assert visible[0] == keys[0] && visible[1..] == Visible(keys[1..]);
      }
    }
  }

  /** For instance: the key `x` with a carriage return behind it is accepted by the sender, and the reader
      forwards `x`, without an error on either side. */
  lemma CarriageReturnIsLost(blank: Bytes -> bool)
    requires !blank([120, CR]) && !blank([120])
    ensures Sendable(blank, Named([120, CR]))
    ensures ScriptOf(blank, RawLines(WrittenAll([Named([120, CR])]))) == Script([Named([120])], true)
  {
    var key := Named([120, CR]);
    assert LineOf(key) == [LETTER_N, SPACE, 120, CR];
    assert DropCR(LineOf(key)) == [LETTER_N, SPACE, 120];
    assert [LETTER_N, SPACE, 120][2..] == [120];
    ScriptOfWritten(blank, [key]);
    assert [key][1..] == [] && WrittenAll([]) == [] && RawLines([]) == [];
  }

  /** What ends the stream with an error: a line that does not fit the buffer of 1 MiB, and a text that is not in
      base 16. */
  lemma BadLines(blank: Bytes -> bool, raw: Bytes)
    ensures Meaning(blank, raw) == Bad <==>
            || |raw| >= 1048576
            || (|DropCR(raw)| >= 2 && DropCR(raw)[..2] == [84, 32] && HexDecode(DropCR(raw)[2..]) == None)
  {
    var line := DropCR(raw);
    if |line| >= 2 {
      assert line[..2] == [line[0], line[1]];
    }
  }

  /** What follows the last line feed is a line too, unless it is empty. */
  lemma {:induction false} LastLine(line: Bytes)
    requires LF !in line
    ensures RawLines(line) == if line == [] then [] else [line]
  {
    if line != [] {
      assert line[0] in line;
      LastLine(line[1..]);
      assert [line[0]] + line[1..] == line;
      assert |line| == 1 ==> line == [line[0]];
    }
  }

  /** A blank line or an unknown verb, anywhere in the stream, changes nothing. */
  lemma {:induction false} IgnoredLineChangesNothing(blank: Bytes -> bool, before: seq<Bytes>, line: Bytes, after: seq<Bytes>)
    requires Meaning(blank, line) == Skip
    ensures ScriptOf(blank, before + [line] + after) == ScriptOf(blank, before + after)
  {
    var all := before + [line] + after;
    if before == [] {
      assert all[1..] == after && before + after == after;
    } else {
      assert all[1..] == before[1..] + [line] + after;
      assert (before + after)[1..] == before[1..] + after;
      IgnoredLineChangesNothing(blank, before[1..], line, after);
    }
  }

  /** The verbs a later version may add: any line that is not one of the three forms. */
  predicate UnknownVerb(line: Bytes) {
    && line != [LETTER_E]
    && !(|line| >= 2 && (line[0] == LETTER_T || line[0] == LETTER_N) && line[1] == SPACE)
  }

  lemma UnknownVerbIsSkipped(blank: Bytes -> bool, raw: Bytes)
    requires |raw| < MAX_LINE
    ensures UnknownVerb(DropCR(raw)) ==> Meaning(blank, raw) == Skip
    ensures Meaning(blank, raw) == Skip && !UnknownVerb(DropCR(raw)) ==>
              DropCR(raw) == [LETTER_T, SPACE] || blank(DropCR(raw)[2..])
  {
    var line := DropCR(raw);
    if |line| > 2 && line[0] == LETTER_T {
      assert line[2..] != [];
    }
  }
}
