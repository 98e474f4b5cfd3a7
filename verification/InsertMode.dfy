/** Typing into a remote session: characters are gathered in a buffer and flushed by a timer or before
    any other key, each key goes over the stream, and leaving flushes and closes it. */
module InsertMode {
  import opened KeyStream

  /** What happens while the mode is active; FlushTick is the timer, which may fire at any time. */
  datatype Event = Typed(text: Bytes) | FlushTick | EnterPressed | NamePressed(name: Bytes)

  // ---------- the specification ----------

  /** The keys an event sends, when `buf` has been gathered. */
  function SentBy(buf: Bytes, e: Event): seq<Key> {
    match e
    case Typed(_) => []
    case FlushTick => [Text(buf)]
    case EnterPressed => [Text(buf), EnterKey]
    case NamePressed(name) => [Text(buf), Named(name)]
  }

  /** What is gathered after it. */
  function KeptAfter(buf: Bytes, e: Event): Bytes {
    if e.Typed? then buf + e.text else []
  }

  /** The keys sent from a buffer and the events to come, up to the flush on leaving. */
  function Batched(buf: Bytes, events: seq<Event>): seq<Key>
    decreases |events|
  {
    if events == [] then [Text(buf)] else SentBy(buf, events[0]) + Batched(KeptAfter(buf, events[0]), events[1..])
  }

  /** The keys the sender does not refuse, in order. */
  function Accepted(blank: Bytes -> bool, keys: seq<Key>): (r: seq<Key>)
    ensures forall key :: key in r ==> Sendable(blank, key)
  {
    if keys == [] then []
    else (if Sendable(blank, keys[0]) then [keys[0]] else []) + Accepted(blank, keys[1..])
  }

  // ---------- the mode as the program runs it ----------

  class Mode {
    var buf: Bytes
    const sender: StreamingSender

    constructor (sender: StreamingSender)
      ensures this.sender == sender && buf == []
    {
      this.sender, buf := sender, [];
    }

    method FlushInsertBuf()
      requires !sender.closed
      modifies this`buf, sender`wire
      ensures buf == []
      ensures sender.wire == old(sender.wire) + WrittenAll(Accepted(sender.blank, [Text(old(buf))]))
    {
      WrittenOne(sender.blank, Text(buf));
      if buf == [] {
        return;
      }
      var text := buf;
      buf := [];
      var _ := sender.SendKeys(text);
    }

    /** A refused key is reported and skipped. */
    method Dispatch(key: Key)
      requires !sender.closed && !key.Text?
      modifies sender`wire
      ensures sender.wire == old(sender.wire) + WrittenAll(Accepted(sender.blank, [key]))
    {
      WrittenOne(sender.blank, key);
      if key.Named? {
        var _ := sender.SendNamedKey(key.name);
      } else {
        var _ := sender.SendEnter();
      }
    }

    /** What was typed before another key goes first. */
    method FlushThen(key: Key)
      requires !sender.closed && !key.Text?
      modifies this`buf, sender`wire
      ensures buf == []
      ensures sender.wire == old(sender.wire) + WrittenAll(Accepted(sender.blank, [Text(old(buf)), key]))
    {
      WrittenTwo(sender.blank, Text(buf), key);
      FlushInsertBuf();
      Dispatch(key);
    }

    method Handle(event: Event)
      requires !sender.closed
      modifies this`buf, sender`wire
      ensures buf == KeptAfter(old(buf), event)
      ensures buf == if event.Typed? then old(buf) + event.text else []
      ensures sender.wire == old(sender.wire) + WrittenAll(Accepted(sender.blank, SentBy(old(buf), event)))
    {
      assert WrittenAll(Accepted(sender.blank, [])) == [];
      match event {
        case Typed(text) =>
          buf := buf + text;
        case FlushTick =>
          FlushInsertBuf();
        case EnterPressed =>
          FlushThen(EnterKey);
        case NamePressed(name) =>
          FlushThen(Named(name));
      }
    }

    /** The whole stay in the mode: afterwards the stream holds the keys of the specification and is closed. */
    method RunInsertMode(events: seq<Event>)
      requires !sender.closed
      modifies this, sender
      ensures sender.wire == old(sender.wire) + WrittenAll(Accepted(sender.blank, Batched(old(buf), events)))
      ensures buf == [] && sender.closed
    {
      ghost var total := sender.wire + WrittenAll(Accepted(sender.blank, Batched(buf, events)));
      assert events[0..] == events;
      for i := 0 to |events|
        invariant !sender.closed
        invariant sender.wire + WrittenAll(Accepted(sender.blank, Batched(buf, events[i..]))) == total
      {
        WrittenNext(sender.blank, sender.wire, buf, events, i);
        Handle(events[i]);
      }
      assert Batched(buf, []) == [Text(buf)];
      FlushInsertBuf();
      sender.Close();
    }
  }

  /** What one event writes and what is still to come are together what was to come before. */
  lemma WrittenNext(blank: Bytes -> bool, wire: Bytes, buf: Bytes, events: seq<Event>, i: nat)
    requires i < |events|
    ensures var now := WrittenAll(Accepted(blank, SentBy(buf, events[i])));
            var later := WrittenAll(Accepted(blank, Batched(KeptAfter(buf, events[i]), events[i + 1..])));
            wire + WrittenAll(Accepted(blank, Batched(buf, events[i..]))) == (wire + now) + later
  {
    assert events[i..][1..] == events[i + 1..];
    WrittenConcat(blank, SentBy(buf, events[i]), Batched(KeptAfter(buf, events[i]), events[i + 1..]));
  }

  lemma WrittenOne(blank: Bytes -> bool, key: Key)
    ensures WrittenAll(Accepted(blank, [key])) == if Sendable(blank, key) then Written(key) else []
  {
    assert Accepted(blank, [key]) == if Sendable(blank, key) then [key] else [];
    assert [key][1..] == [];
  }

  lemma {:induction false} AcceptedConcat(blank: Bytes -> bool, a: seq<Key>, b: seq<Key>)
    ensures Accepted(blank, a + b) == Accepted(blank, a) + Accepted(blank, b)
  {
    if a == [] {
      assert a + b == b;
    } else {
      assert (a + b)[1..] == a[1..] + b;
      AcceptedConcat(blank, a[1..], b);
    }
  }

  lemma {:induction false} WrittenAllConcat(a: seq<Key>, b: seq<Key>)
    ensures WrittenAll(a + b) == WrittenAll(a) + WrittenAll(b)
  {
    if a == [] {
      assert a + b == b;
    } else {
      assert (a + b)[1..] == a[1..] + b;
      WrittenAllConcat(a[1..], b);
    }
  }

  lemma WrittenConcat(blank: Bytes -> bool, a: seq<Key>, b: seq<Key>)
    ensures WrittenAll(Accepted(blank, a + b)) == WrittenAll(Accepted(blank, a)) + WrittenAll(Accepted(blank, b))
  {
    AcceptedConcat(blank, a, b);
    WrittenAllConcat(Accepted(blank, a), Accepted(blank, b));
  }

  lemma WrittenTwo(blank: Bytes -> bool, a: Key, b: Key)
    ensures WrittenAll(Accepted(blank, [a, b])) == WrittenAll(Accepted(blank, [a])) + WrittenAll(Accepted(blank, [b]))
  {
    WrittenConcat(blank, [a], [b]);
    assert [a] + [b] == [a, b];
  }

  // ---------- what the remote end sees ----------

  /** One character or one key, as the user pressed it. */
  datatype Press = Character(c: Byte) | Other(key: Key)

  function Characters(text: Bytes): seq<Press> {
    if text == [] then [] else [Character(text[0])] + Characters(text[1..])
  }

  function PressesOf(key: Key): seq<Press> {
    if key.Text? then Characters(key.text) else [Other(key)]
  }

  function Presses(keys: seq<Key>): seq<Press> {
    if keys == [] then [] else PressesOf(keys[0]) + Presses(keys[1..])
  }

  function PressedBy(e: Event): seq<Press> {
    match e
    case Typed(text) => Characters(text)
    case FlushTick => []
    case EnterPressed => [Other(EnterKey)]
    case NamePressed(name) => [Other(Named(name))]
  }

  /** What the user pressed; the timer leaves no trace. */
  function Pressed(events: seq<Event>): seq<Press> {
    if events == [] then [] else PressedBy(events[0]) + Pressed(events[1..])
  }

  lemma {:induction false} CharactersConcat(a: Bytes, b: Bytes)
    ensures Characters(a + b) == Characters(a) + Characters(b)
  {
    if a == [] {
      assert a + b == b;
    } else {
      assert (a + b)[1..] == a[1..] + b;
      CharactersConcat(a[1..], b);
    }
  }

  lemma PressesCons(key: Key, rest: seq<Key>)
    ensures Presses([key] + rest) == PressesOf(key) + Presses(rest)
  {
    assert ([key] + rest)[1..] == rest;
  }

  lemma {:induction false} PressesConcat(a: seq<Key>, b: seq<Key>)
    ensures Presses(a + b) == Presses(a) + Presses(b)
  {
    if a == [] {
      assert a + b == b;
    } else {
      assert (a + b)[1..] == a[1..] + b;
      PressesConcat(a[1..], b);
    }
  }

  /** What an event sends, and what it leaves gathered, is what was gathered and what was pressed. */
  lemma PressesKept(buf: Bytes, e: Event)
    ensures Presses(SentBy(buf, e)) + Characters(KeptAfter(buf, e)) == Characters(buf) + PressedBy(e)
  {
    if e.Typed? {
      CharactersConcat(buf, e.text);
    } else {
      var sent := SentBy(buf, e);
      assert sent == [Text(buf)] + sent[1..];
      PressesCons(Text(buf), sent[1..]);
      assert Presses(sent[1..]) == PressedBy(e);
    }
  }

  /** Whenever the timer fires, the keys sent are what the user pressed, in the order pressed. */
  lemma {:induction false} BatchingKeepsOrder(buf: Bytes, events: seq<Event>)
    ensures Presses(Batched(buf, events)) == Characters(buf) + Pressed(events)
    decreases |events|
  {
    if events == [] {
      assert [Text(buf)] == [Text(buf)] + [];
      PressesCons(Text(buf), []);
    } else {
      var e, kept := events[0], KeptAfter(buf, events[0]);
      BatchingKeepsOrder(kept, events[1..]);
      PressesConcat(SentBy(buf, e), Batched(kept, events[1..]));
      PressesKept(buf, e);
      Regroup(Presses(SentBy(buf, e)), Characters(kept), Pressed(events[1..]));
      Regroup(Characters(buf), PressedBy(e), Pressed(events[1..]));
    }
  }

  lemma Regroup(a: seq<Press>, b: seq<Press>, c: seq<Press>)
    ensures (a + b) + c == a + (b + c)
  {
  }

  lemma {:induction false} VisiblePresses(keys: seq<Key>)
    ensures Presses(Visible(keys)) == Presses(keys)
  {
    if keys != [] {
      VisiblePresses(keys[1..]);
      if keys[0] == Text([]) {
        assert [] + Visible(keys[1..]) == Visible(keys[1..]);
      } else {
        PressesCons(keys[0], Visible(keys[1..]));
      }
    }
  }

  lemma {:induction false} AcceptedWhole(blank: Bytes -> bool, keys: seq<Key>)
    requires forall key :: key in keys ==> Sendable(blank, key)
    ensures Accepted(blank, keys) == keys
  {
    if keys != [] {
      AcceptedWhole(blank, keys[1..]);
    }
  }

  lemma {:induction false} BatchedSendable(blank: Bytes -> bool, buf: Bytes, events: seq<Event>)
    requires forall e :: e in events && e.NamePressed? ==> Sendable(blank, Named(e.name))
    ensures forall key :: key in Batched(buf, events) ==> Sendable(blank, key)
    decreases |events|
  {
    if events != [] {
      var e := events[0];
      assert e in events;
      BatchedSendable(blank, KeptAfter(buf, e), events[1..]);
    }
  }

  /** From the keyboard to the remote session, whenever the timer fires: what the reader forwards is what
      the user pressed, in order and without error, if and only if every flushed text and every name fits
      its line and no name ends in a carriage return. */
  lemma PressedIsForwarded(blank: Bytes -> bool, events: seq<Event>)
    requires forall e :: e in events && e.NamePressed? ==> Sendable(blank, Named(e.name))
    ensures var keys := Batched([], events);
            var script := ScriptOf(blank, RawLines(WrittenAll(Accepted(blank, keys))));
            && Presses(Visible(keys)) == Pressed(events)
            && (script == Script(Visible(keys), true) <==> forall key :: key in Visible(keys) ==> Arrives(key))
  {
    var keys := Batched([], events);
    BatchedSendable(blank, [], events);
    AcceptedWhole(blank, keys);
    StreamRoundTrip(blank, keys);
    VisiblePresses(keys);
    BatchingKeepsOrder([], events);
  }

  // ---------- the keys the mode sends ----------

  /** BSpace, Up, Down, Left, Right, Tab, BTab, C-c and C-d. */
  predicate IsModeName(name: Bytes) {
    || name == [66, 83, 112, 97, 99, 101] || name == [85, 112] || name == [68, 111, 119, 110]
    || name == [76, 101, 102, 116] || name == [82, 105, 103, 104, 116] || name == [84, 97, 98]
    || name == [66, 84, 97, 98] || name == [67, 45, 99] || name == [67, 45, 100]
  }

  lemma ModeNamesArrive(name: Bytes)
    requires IsModeName(name)
    ensures LF !in name && Arrives(Named(name))
  {
  }

  /** The line of a text holds two digits for each byte. */
  predicate TextFits(key: Key) {
    key.Text? ==> 2 * |key.text| + 2 < MAX_LINE
  }

  lemma ArrivesIffTextFits(key: Key)
    requires key.Named? ==> IsModeName(key.name)
    ensures Arrives(key) <==> TextFits(key)
  {
    match key
    case Text(text) => HexAlphabet(text);
    case Named(name) => ModeNamesArrive(name);
    case EnterKey =>
  }

  lemma {:induction false} BatchedNames(buf: Bytes, events: seq<Event>)
    requires forall e :: e in events && e.NamePressed? ==> IsModeName(e.name)
    ensures forall key :: key in Batched(buf, events) && key.Named? ==> IsModeName(key.name)
    decreases |events|
  {
    if events != [] {
      assert events[0] in events;
      BatchedNames(KeptAfter(buf, events[0]), events[1..]);
    }
  }

  lemma {:induction false} VisibleAreKeys(keys: seq<Key>)
    ensures forall key :: key in Visible(keys) ==> key in keys
  {
    if keys != [] {
      VisibleAreKeys(keys[1..]);
    }
  }

  /** For the keys the mode does send, one condition is left: that the texts gathered between two flushes fit. */
  lemma ModeKeysAreForwarded(blank: Bytes -> bool, events: seq<Event>)
    requires forall name :: IsModeName(name) ==> !blank(name)
    requires forall e :: e in events && e.NamePressed? ==> IsModeName(e.name)
    ensures var keys := Batched([], events);
            var script := ScriptOf(blank, RawLines(WrittenAll(Accepted(blank, keys))));
            && Presses(Visible(keys)) == Pressed(events)
            && (script == Script(Visible(keys), true) <==> forall key :: key in Visible(keys) ==> TextFits(key))
  {
    var keys := Batched([], events);
    forall e | e in events && e.NamePressed?
      ensures Sendable(blank, Named(e.name))
    {
      ModeNamesArrive(e.name);
    }
    PressedIsForwarded(blank, events);
    BatchedNames([], events);
    VisibleAreKeys(keys);
    forall key | key in Visible(keys)
      ensures Arrives(key) <==> TextFits(key)
    {
      ArrivesIffTextFits(key);
    }
  }
}
