/** The terminal pane a message is typed into, seen through the small interface the send code
    uses: keystrokes go in, and each capture or status poll gives the next answer of a terminal
    that nothing is assumed about. */
module Terminal {

  /** What one captured pane shows. `pasted` is the paste marker, `unsent` the message still in
      the input line, `token` the recognisable part of the message anywhere on the screen. */
  datatype Capture =
    | CaptureFailed
    | Captured(composer: bool, draft: string, pasted: bool, unsent: bool, token: bool)

  datatype Status = Active | Waiting | Idle | OtherStatus | StatusFailed

  datatype Action =
    | Submit(text: string)  // type the text, then Enter
    | Retype(text: string)  // type the text without Enter
    | Enter
    | CtrlC

  /** The message is typed but not accepted. */
  predicate Marked(view: Capture) {
    view.Captured? && (view.pasted || view.unsent)
  }

  function Count(trace: seq<Action>, a: Action): nat {
    if trace == [] then 0 else (if trace[0] == a then 1 else 0) + Count(trace[1..], a)
  }

  lemma {:induction false} CountConcat(s: seq<Action>, t: seq<Action>, a: Action)
    ensures Count(s + t, a) == Count(s, a) + Count(t, a)
  {
    if s == [] {
      assert s + t == t;
    } else {
      assert (s + t)[1..] == s[1..] + t;
      CountConcat(s[1..], t, a);
    }
  }

  /** A pane with a fixed, arbitrary script of answers. `trace` holds every keystroke sent, the
      failed ones too; keystroke k succeeds when `accepts(k)`. */
  class Pane {
    const captures: nat -> Capture
    const statuses: nat -> Status
    const accepts: nat -> bool
    var captured: nat
    var polled: nat
    var trace: seq<Action>

    constructor (captures: nat -> Capture, statuses: nat -> Status, accepts: nat -> bool)
      ensures this.captures == captures && this.statuses == statuses && this.accepts == accepts
      ensures captured == 0 && polled == 0 && trace == []
    {
      this.captures, this.statuses, this.accepts := captures, statuses, accepts;
      captured, polled, trace := 0, 0, [];
    }

    /** The capture `i` calls after the `from`-th. */
    function Shot(from: nat, i: nat): Capture {
      captures(from + i)
    }

    method CapturePaneFresh() returns (view: Capture)
      modifies this`captured
      ensures view == captures(old(captured)) && captured == old(captured) + 1
    {
      view := captures(captured);
      captured := captured + 1;
    }

    method GetStatus() returns (status: Status)
      modifies this`polled
      ensures status == statuses(old(polled)) && polled == old(polled) + 1
    {
      status := statuses(polled);
      polled := polled + 1;
    }

    method Press(a: Action) returns (ok: bool)
      modifies this`trace
      ensures trace == old(trace) + [a] && ok == accepts(|old(trace)|)
    {
      ok := accepts(|trace|);
      trace := trace + [a];
    }
  }
}
