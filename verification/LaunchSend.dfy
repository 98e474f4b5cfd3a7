/** The prompt of `launch --no-wait`: a short verified send, then a watch over the composer with one
    more attempt. */
module LaunchSend {
  import opened Terminal
  import opened SendLoop

  /** The composer is on the screen and no longer holds the message. */
  predicate Consumed(view: Capture) {
    view.Captured? && view.composer && !view.unsent
  }

  /** No capture of a window of `polls + 1` shows the prompt consumed. */
  ghost predicate NeverConsumed(pane: Pane, from: nat, polls: nat) {
    forall i :: 0 <= i <= polls ==> !Consumed(pane.Shot(from, i))
  }

  method PollPromptConsumed(pane: Pane, polls: nat) returns (consumed: bool)
    modifies pane`captured
    ensures consumed <==> !NeverConsumed(pane, old(pane.captured), polls)
    ensures !consumed <==> forall i :: 0 <= i <= polls ==>
              var view := pane.Shot(old(pane.captured), i); !view.Captured? || !view.composer || view.unsent
    ensures consumed ==> old(pane.captured) < pane.captured && Consumed(pane.captures(pane.captured - 1))
    ensures !consumed ==> pane.captured == old(pane.captured) + polls + 1
  {
    for i := 0 to polls + 1
      invariant pane.captured == old(pane.captured) + i
      invariant forall j :: 0 <= j < i ==> !Consumed(pane.Shot(old(pane.captured), j))
    {
      var view := pane.CapturePaneFresh();
      assert view == pane.Shot(old(pane.captured), i);
      if Consumed(view) {
        return true;
      }
    }
    return false;
  }

  /** The message is typed again exactly when the whole first window never showed it consumed, and
      the warning appears exactly when the second window, after that, did not either. */
  method VerifyPromptConsumedAfterLaunch(pane: Pane, message: string, polls: nat)
    returns (warned: bool, ghost retried: bool)
    modifies pane
    ensures retried <==> NeverConsumed(pane, old(pane.captured), polls)
    ensures pane.trace == old(pane.trace) + if retried then [Submit(message)] else []
    ensures warned <==> retried && NeverConsumed(pane, old(pane.captured) + polls + 1, polls)
    ensures !warned ==> pane.captured > 0 && Consumed(pane.captures(pane.captured - 1))
  {
    retried := false;
    var consumed := PollPromptConsumed(pane, polls);
    if consumed {
      return false, false;
    }
    var _ := pane.Press(Submit(message));
    consumed := PollPromptConsumed(pane, polls);
    return !consumed, true;
  }

  const LAUNCH_OPTIONS := Options(8, 0, false)

  /** How many times the message was typed between two points of a trace. */
  function Typed(before: seq<Action>, after: seq<Action>, message: string): int {
    Count(after, Submit(message)) - Count(before, Submit(message))
  }

  /** Typing the message once, the answers of the loop, and one more typing if the watch asks for it. */
  function LaunchKeys(keys: seq<Action>, retried: bool, message: string): seq<Action> {
    keys + if retried then [Submit(message)] else []
  }

  lemma OneSubmit(message: string)
    ensures Count([Submit(message)], Submit(message)) == 1 && Count([], Submit(message)) == 0
  {
    assert [Submit(message)][1..] == [];
  }

  /** The eight checks of the first attempt leave room for one full resend. */
  lemma FirstAttemptTypes(pane: Pane, delivery: Delivery, keys: seq<Action>, typedAt: nat, seen: nat, polled: nat,
                          message: string, skipVerify: bool)
    requires Delivered(pane, delivery, keys, typedAt, seen, polled, message, skipVerify, LAUNCH_OPTIONS)
    ensures 1 <= Count(keys, Submit(message)) <= if skipVerify then 1 else 2
    ensures delivery == SendFailed ==> Count(keys, Submit(message)) == 1
    ensures delivery != SendFailed && !skipVerify ==>
              var obs := Window(pane, seen, polled, Budget(LAUNCH_OPTIONS));
              Count(keys, Submit(message)) == 1 + Min(DEFAULT_FULL_RESENDS, LostCount(obs, ChecksMade(obs)))
  {
    OneSubmit(message);
    if delivery != SendFailed && !skipVerify {
      var obs := Window(pane, seen, polled, Budget(LAUNCH_OPTIONS));
      var answers := Responses(obs, ChecksMade(obs), MaxFullResends(LAUNCH_OPTIONS), message);
      ResendBound(obs, ChecksMade(obs), LAUNCH_OPTIONS, message);
      ResendsExactly(obs, ChecksMade(obs), MaxFullResends(LAUNCH_OPTIONS), message, Submit(message));
      CountConcat([Submit(message)], answers, Submit(message));
    }
  }

  lemma TypedByLaunch(before: seq<Action>, keys: seq<Action>, retried: bool, message: string)
    ensures Typed(before, before + LaunchKeys(keys, retried, message), message)
            == Count(keys, Submit(message)) + if retried then 1 else 0
  {
    OneSubmit(message);
    CountConcat(before, LaunchKeys(keys, retried, message), Submit(message));
    CountConcat(keys, if retried then [Submit(message)] else [], Submit(message));
  }

  /** Without verification of the delivery only the first typing can fail. */
  lemma LaunchFailsOnlyAtFirst(pane: Pane, delivery: Delivery, keys: seq<Action>, typedAt: nat, seen: nat, polled: nat,
                               message: string, skipVerify: bool)
    requires Delivered(pane, delivery, keys, typedAt, seen, polled, message, skipVerify, LAUNCH_OPTIONS)
    ensures delivery != TypedNotSubmitted && delivery != NoEvidence
  {
  }

  lemma AtMostThree(pane: Pane, delivery: Delivery, keys: seq<Action>, seen: nat, polled: nat,
                    message: string, skipVerify: bool, before: seq<Action>, retried: bool)
    requires Delivered(pane, delivery, keys, |before|, seen, polled, message, skipVerify, LAUNCH_OPTIONS)
    requires delivery == SendFailed ==> !retried
    ensures 1 <= Typed(before, before + LaunchKeys(keys, retried, message), message)
              <= if delivery == SendFailed then 1 else if skipVerify then 2 else 3
  {
    FirstAttemptTypes(pane, delivery, keys, |before|, seen, polled, message, skipVerify);
    TypedByLaunch(before, keys, retried, message);
  }

  /** The first attempt; without verification of the delivery only its first typing can fail. */
  method FirstAttempt(pane: Pane, message: string, skipVerify: bool)
    returns (failed: bool, ghost delivery: Delivery, ghost keys: seq<Action>)
    modifies pane
    ensures Delivered(pane, delivery, keys, |old(pane.trace)|, old(pane.captured), old(pane.polled),
                      message, skipVerify, LAUNCH_OPTIONS)
    ensures failed <==> delivery == SendFailed
    ensures pane.trace == old(pane.trace) + keys
    ensures pane.captured == old(pane.captured)
            + if failed || skipVerify then 0
              else CapturesMade(Window(pane, old(pane.captured), old(pane.polled), Budget(LAUNCH_OPTIONS)), false)
  {
    delivery, failed, keys := Deliver(pane, message, skipVerify, LAUNCH_OPTIONS);
    LaunchFailsOnlyAtFirst(pane, delivery, keys, |old(pane.trace)|, old(pane.captured), old(pane.polled),
                           message, skipVerify);
  }

  method SendThenWatch(pane: Pane, message: string, skipVerify: bool, polls: nat)
    returns (failed: bool, warned: bool,
             ghost delivery: Delivery, ghost keys: seq<Action>, ghost seen: nat, ghost retried: bool)
    modifies pane
    ensures Delivered(pane, delivery, keys, |old(pane.trace)|, old(pane.captured), old(pane.polled),
                      message, skipVerify, LAUNCH_OPTIONS)
    ensures failed <==> delivery == SendFailed
    ensures retried <==> !failed && NeverConsumed(pane, seen, polls)
    ensures warned <==> retried && NeverConsumed(pane, seen + polls + 1, polls)
    ensures seen == old(pane.captured)
            + if failed || skipVerify then 0
              else CapturesMade(Window(pane, old(pane.captured), old(pane.polled), Budget(LAUNCH_OPTIONS)), false)
    ensures pane.trace == old(pane.trace) + LaunchKeys(keys, retried, message)
    ensures !failed && !warned ==> pane.captured > 0 && Consumed(pane.captures(pane.captured - 1))
  {
    failed, delivery, keys := FirstAttempt(pane, message, skipVerify);
    seen, retried, warned := pane.captured, false, false;
    SentThenRetried(old(pane.trace), keys, false, message);
    SentThenRetried(old(pane.trace), keys, true, message);
    if !failed {
      warned, retried := VerifyPromptConsumedAfterLaunch(pane, message, polls);
    }
  }

  /** Whatever the pane does, the keystrokes are those of the verified send and one more typing exactly when it
      did not fail and no capture of the first window shows the prompt consumed. So the prompt is typed at
      least once and at most three times; a tool without verification gets it at most twice, and a failed send
      exactly once. */
  method SendLaunchPrompt(pane: Pane, message: string, skipVerify: bool, polls: nat)
    returns (failed: bool, warned: bool,
             ghost delivery: Delivery, ghost keys: seq<Action>, ghost seen: nat, ghost retried: bool)
    modifies pane
    ensures Delivered(pane, delivery, keys, |old(pane.trace)|, old(pane.captured), old(pane.polled),
                      message, skipVerify, LAUNCH_OPTIONS)
    ensures failed <==> delivery == SendFailed
    ensures retried <==> !failed && NeverConsumed(pane, seen, polls)
    ensures warned <==> retried && NeverConsumed(pane, seen + polls + 1, polls)
    ensures seen == old(pane.captured)
            + if failed || skipVerify then 0
              else CapturesMade(Window(pane, old(pane.captured), old(pane.polled), Budget(LAUNCH_OPTIONS)), false)
    ensures pane.trace == old(pane.trace) + LaunchKeys(keys, retried, message)
    ensures 1 <= Typed(old(pane.trace), pane.trace, message) <= if failed then 1 else if skipVerify then 2 else 3
    ensures !failed && !warned ==> pane.captured > 0 && Consumed(pane.captures(pane.captured - 1))
  {
    failed, warned, delivery, keys, seen, retried := SendThenWatch(pane, message, skipVerify, polls);
    AtMostThree(pane, delivery, keys, old(pane.captured), old(pane.polled), message, skipVerify, old(pane.trace), retried);
  }

  lemma SentThenRetried(before: seq<Action>, keys: seq<Action>, retried: bool, message: string)
    ensures (before + keys) + (if retried then [Submit(message)] else []) == before + LaunchKeys(keys, retried, message)
    ensures !retried ==> before + keys == before + LaunchKeys(keys, retried, message)
  {
  }

  /** The bound of three is met: in a pane that is idle and cannot be captured, the eight checks make one full
      resend, and the watch one more typing. */
  method ThreeIsReached(message: string, polls: nat) returns (pane: Pane)
    ensures fresh(pane) && Typed([], pane.trace, message) == 3
  {
    pane := new Pane(_ => CaptureFailed, _ => Idle, _ => true);
    ghost var obs := Window(pane, 0, 0, Budget(LAUNCH_OPTIONS));
    var _, _, delivery, keys, seen, retried := SendLaunchPrompt(pane, message, false, polls);
    IdleWindow(pane, obs);
    FirstAttemptTypes(pane, delivery, keys, 0, 0, 0, message, false);
    TypedByLaunch([], keys, retried, message);
    assert NeverConsumed(pane, seen, polls);
    assert [] + LaunchKeys(keys, retried, message) == LaunchKeys(keys, retried, message);
  }

  lemma IdleWindow(pane: Pane, obs: seq<Observation>)
    requires obs == Window(pane, 0, 0, 8)
    requires forall k: nat :: pane.captures(k) == CaptureFailed && pane.statuses(k) == Idle
    ensures FirstSettled(obs, 0) == 8 && ChecksMade(obs) == 8 && LostCount(obs, 8) == 1
  {
    forall i | 0 <= i < 8
      ensures KindOf(obs[i]) == Quiet
    {
      WindowAt(pane, 0, 0, 8, i);
    }
    AllQuiet(obs, 8);
    FirstSettledIs(obs, 8);
  }

  lemma {:induction false} AllQuiet(obs: seq<Observation>, n: nat)
    requires n <= |obs| && forall i :: 0 <= i < |obs| ==> KindOf(obs[i]) == Quiet
    ensures !SawWorking(obs, n) && QuietRun(obs, n) == n
    ensures LostCount(obs, n) == n / FULL_RESEND_THRESHOLD
    ensures forall i :: 0 <= i < n ==> !Settled(obs, i)
  {
    if n > 0 {
      AllQuiet(obs, n - 1);
    }
  }
}
