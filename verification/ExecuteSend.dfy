/** The whole send: wait for the composer, move an operator's half-typed draft out of the way, send
    the message, and type the draft back. Polling deadlines are budgets of captures. */
module ExecuteSend {
  import opened Terminal
  import opened SendLoop

  const MAX_CLEAR_ATTEMPTS := 2

  datatype Tuning = Tuning(preflightPolls: nat, holdPolls: nat, clearPolls: nat, retry: Options)

  datatype GuardResult = GuardResult(savedDraft: string, draftCleared: bool, clearFailed: bool)

  datatype SendResult = SendResult(
    delivery: Delivery,
    draftSaved: string,
    draftCleared: bool,
    draftRestored: bool,
    draftRestoreFailed: bool)

  /** The operator's text in the composer, empty when there is none to see. */
  function DraftOf(view: Capture): string {
    if view.Captured? && view.composer then view.draft else ""
  }

  predicate ComposerReady(view: Capture) {
    view.Captured? && view.composer
  }

  // ---------- the composer guard ----------

  /** Hold while every capture shows a draft; the draft of the last one is the one to save. */
  method HoldForDraft(pane: Pane, holdPolls: nat) returns (draft: string)
    modifies pane`captured
    ensures draft == "" <==>
            exists i :: 0 <= i <= holdPolls && DraftOf(pane.Shot(old(pane.captured), i)) == ""
    ensures draft != "" <==> forall i :: 0 <= i <= holdPolls ==>
              var view := pane.Shot(old(pane.captured), i); view.Captured? && view.composer && view.draft != ""
    ensures draft != "" ==> draft == pane.Shot(old(pane.captured), holdPolls).draft
    ensures draft != "" ==> pane.captured == old(pane.captured) + holdPolls + 1
                            && draft == DraftOf(pane.Shot(old(pane.captured), holdPolls))
    ensures pane.captured > old(pane.captured)
  {
    var polls := 0;
    while true
      invariant 0 <= polls <= holdPolls && pane.captured == old(pane.captured) + polls
      invariant forall i :: 0 <= i < polls ==> DraftOf(pane.Shot(old(pane.captured), i)) != ""
      decreases holdPolls - polls
    {
      var view := pane.CapturePaneFresh();
      assert view == pane.Shot(old(pane.captured), polls);
      if DraftOf(view) == "" {
        return "";
      }
      if polls == holdPolls {
        return DraftOf(view);
      }
      polls := polls + 1;
    }
  }

  predicate ShowsCleared(view: Capture) {
    view.Captured? && DraftOf(view) == ""
  }

  /** How many captures come before the window that follows the last of `presses` Ctrl+C. */
  function CapturesBefore(presses: nat, clearPolls: nat): nat {
    if presses <= 1 then 0 else clearPolls + 1
  }

  /** How the clearing went, in the captures from `at` up to `seen` and the keystrokes from `typedAt` on: it ends
      at the first capture that shows an empty composer, and fails at a refused Ctrl+C or after two windows. */
  ghost predicate ClearOutcome(pane: Pane, at: nat, seen: nat, typedAt: nat, presses: nat, clearPolls: nat, cleared: bool)
  {
    && 1 <= presses <= MAX_CLEAR_ATTEMPTS && (presses == 2 ==> pane.accepts(typedAt))
    && (cleared ==> pane.accepts(typedAt + presses - 1) && at + CapturesBefore(presses, clearPolls) < seen
                    && seen <= at + CapturesBefore(presses, clearPolls) + clearPolls + 1
                    && ShowsCleared(pane.captures(seen - 1)) && NoneCleared(pane, at, seen - 1))
    && (!cleared ==> NoneCleared(pane, at, seen) &&
                     if pane.accepts(typedAt + presses - 1) then presses == 2 && seen == at + 2 * (clearPolls + 1)
                     else seen == at + CapturesBefore(presses, clearPolls))
  }

  ghost predicate NoneCleared(pane: Pane, at: nat, to: nat) {
    forall k :: at <= k < to ==> !ShowsCleared(pane.captures(k))
  }

  /** The captures after one Ctrl+C. */
  method PollCleared(pane: Pane, clearPolls: nat) returns (cleared: bool)
    modifies pane`captured
    ensures old(pane.captured) < pane.captured <= old(pane.captured) + clearPolls + 1
    ensures cleared ==> ShowsCleared(pane.captures(pane.captured - 1))
                        && (pane.captures(pane.captured - 1).composer ==> pane.captures(pane.captured - 1).draft == "")
                        && NoneCleared(pane, old(pane.captured), pane.captured - 1)
    ensures !cleared ==> NoneCleared(pane, old(pane.captured), pane.captured)
                         && pane.captured == old(pane.captured) + clearPolls + 1
  {
    for poll := 0 to clearPolls + 1
      invariant pane.captured == old(pane.captured) + poll
      invariant NoneCleared(pane, old(pane.captured), pane.captured)
    {
      var view := pane.CapturePaneFresh();
      if ShowsCleared(view) {
        return true;
      }
    }
    return false;
  }

  /** Press Ctrl+C until a capture shows an empty composer, twice at most. */
  method ClearComposer(pane: Pane, clearPolls: nat) returns (cleared: bool)
    modifies pane
    ensures |old(pane.trace)| < |pane.trace| && pane.trace[..|old(pane.trace)|] == old(pane.trace)
    ensures forall k :: |old(pane.trace)| <= k < |pane.trace| ==> pane.trace[k] == CtrlC
    ensures ClearOutcome(pane, old(pane.captured), pane.captured, |old(pane.trace)|, |pane.trace| - |old(pane.trace)|,
                         clearPolls, cleared)
    ensures pane.captured >= old(pane.captured) && pane.polled == old(pane.polled)
  {
    var attempt := 0;
    while attempt < MAX_CLEAR_ATTEMPTS
      invariant 0 <= attempt <= MAX_CLEAR_ATTEMPTS && |pane.trace| == |old(pane.trace)| + attempt
      invariant pane.trace[..|old(pane.trace)|] == old(pane.trace)
      invariant forall k :: |old(pane.trace)| <= k < |pane.trace| ==> pane.trace[k] == CtrlC && pane.accepts(k)
      invariant pane.captured == old(pane.captured) + attempt * (clearPolls + 1) && pane.polled == old(pane.polled)
      invariant NoneCleared(pane, old(pane.captured), pane.captured)
    {
      var ok := pane.Press(CtrlC);
      if !ok {
        return false;
      }
      var empty := PollCleared(pane, clearPolls);
      if empty {
        return true;
      }
      attempt := attempt + 1;
    }
    return false;
  }

  /** The guard never blocks the send: it saves a draft exactly when the composer held one through
      the whole hold, and presses Ctrl+C only then. */
  method GuardComposerDraft(pane: Pane, holdPolls: nat, clearPolls: nat) returns (g: GuardResult)
    modifies pane
    ensures g.savedDraft == "" <==>
            exists i :: 0 <= i <= holdPolls && DraftOf(pane.Shot(old(pane.captured), i)) == ""
    ensures g.savedDraft != "" ==> g.savedDraft == DraftOf(pane.Shot(old(pane.captured), holdPolls))
    ensures g.savedDraft == "" ==> pane.trace == old(pane.trace) && !g.draftCleared && !g.clearFailed
    ensures g.savedDraft != "" ==> |pane.trace| > |old(pane.trace)| && (g.draftCleared <==> !g.clearFailed)
    ensures |old(pane.trace)| <= |pane.trace| && pane.trace[..|old(pane.trace)|] == old(pane.trace)
    ensures forall k :: |old(pane.trace)| <= k < |pane.trace| ==> pane.trace[k] == CtrlC
    ensures g.savedDraft != "" ==>
              ClearOutcome(pane, old(pane.captured) + holdPolls + 1, pane.captured, |old(pane.trace)|,
                           |pane.trace| - |old(pane.trace)|, clearPolls, g.draftCleared)
    ensures pane.polled == old(pane.polled) && pane.captured >= old(pane.captured)
  {
    var draft := HoldForDraft(pane, holdPolls);
    if draft == "" {
      return GuardResult("", false, false);
    }
    var cleared := ClearComposer(pane, clearPolls);
    return GuardResult(draft, cleared, !cleared);
  }

  /** The wait that starts at capture `at` ends before capture `to`: at the first one that shows the composer, or
      when its budget is spent. */
  ghost predicate WaitedTo(pane: Pane, at: nat, polls: nat, to: nat) {
    && at < to <= at + polls + 1
    && (forall k :: at <= k < to - 1 ==> !ComposerReady(pane.captures(k)))
    && (to <= at + polls ==> ComposerReady(pane.captures(to - 1)))
  }

  method AwaitComposerReady(pane: Pane, polls: nat) returns (ready: bool)
    modifies pane`captured
    ensures ready <==> exists i :: 0 <= i <= polls && ComposerReady(pane.Shot(old(pane.captured), i))
    ensures !ready <==> forall i :: 0 <= i <= polls ==>
              var view := pane.Shot(old(pane.captured), i); !view.Captured? || !view.composer
    ensures WaitedTo(pane, old(pane.captured), polls, pane.captured)
  {
    for i := 0 to polls + 1
      invariant pane.captured == old(pane.captured) + i
      invariant forall j :: 0 <= j < i ==> !ComposerReady(pane.Shot(old(pane.captured), j))
      invariant forall k :: old(pane.captured) <= k < pane.captured ==> !ComposerReady(pane.captures(k))
    {
      var view := pane.CapturePaneFresh();
      assert view == pane.Shot(old(pane.captured), i);
      if ComposerReady(view) {
        return true;
      }
    }
    return false;
  }

  // ---------- the pipeline ----------

  /** Every saved draft ends in exactly one way: typed back, reported as not typed back, or held back
      because the message itself is stuck in the composer. */
  predicate DraftAccounted(r: SendResult) {
    if r.draftSaved == "" then !r.draftRestored && !r.draftRestoreFailed
    else if r.delivery == TypedNotSubmitted then !r.draftRestored && !r.draftRestoreFailed
    else r.draftRestored != r.draftRestoreFailed
  }

  /** The draft typed back, when it is due. */
  function DraftKeys(r: SendResult): seq<Action> {
    if r.draftSaved != "" && r.delivery != TypedNotSubmitted then [Retype(r.draftSaved)] else []
  }

  /** The keystrokes of one send: Ctrl+C before the message, and only for a draft; the message with the send
      loop's own keys; and the draft once at the very end when it is due. */
  predicate SendTrace(guardKeys: seq<Action>, loopKeys: seq<Action>, message: string, r: SendResult) {
    && (forall k :: 0 <= k < |guardKeys| ==> guardKeys[k] == CtrlC)
    && (r.draftSaved == "" <==> guardKeys == [])
    && loopKeys != [] && loopKeys[0] == Submit(message)
    && (forall k :: 0 < k < |loopKeys| ==> LoopKey(loopKeys[k], message))
  }

  function AllKeys(guardKeys: seq<Action>, loopKeys: seq<Action>, r: SendResult): seq<Action> {
    guardKeys + loopKeys + DraftKeys(r)
  }

  predicate LoopKey(a: Action, message: string) {
    a == Enter || a == CtrlC || a == Submit(message)
  }

  lemma {:induction false} ResponsesAreLoopKeys(obs: seq<Observation>, n: nat, maxResends: nat, message: string)
    requires n <= |obs|
    ensures forall a :: a in Responses(obs, n, maxResends, message) ==> LoopKey(a, message)
  {
    if n > 0 {
      ResponsesAreLoopKeys(obs, n - 1, maxResends, message);
    }
  }

  lemma DeliveredKeys(pane: Pane, delivery: Delivery, keys: seq<Action>, typedAt: nat, seen: nat, polled: nat,
                      message: string, skipVerify: bool, opts: Options)
    requires Delivered(pane, delivery, keys, typedAt, seen, polled, message, skipVerify, opts)
    ensures keys != [] && keys[0] == Submit(message) && forall k :: 0 < k < |keys| ==> LoopKey(keys[k], message)
  {
    if delivery != SendFailed && !skipVerify {
      var obs := Window(pane, seen, polled, Budget(opts));
      ResponsesAreLoopKeys(obs, ChecksMade(obs), MaxFullResends(opts), message);
    }
  }

  /** Type the saved draft back, unless the message itself is stuck in the composer. */
  method RestoreDraft(pane: Pane, r: SendResult) returns (res: SendResult)
    requires !r.draftRestored && !r.draftRestoreFailed
    modifies pane
    ensures res == r.(draftRestored := res.draftRestored, draftRestoreFailed := res.draftRestoreFailed)
    ensures DraftAccounted(res)
    ensures pane.trace == old(pane.trace) + DraftKeys(r)
    ensures res.draftRestored ==> pane.accepts(|pane.trace| - 1)
    ensures res.draftRestoreFailed ==> !pane.accepts(|pane.trace| - 1)
  {
    res := r;
    if r.draftSaved != "" && r.delivery != TypedNotSubmitted {
      var ok := pane.Press(Retype(r.draftSaved));
      if ok {
        res := res.(draftRestored := true);
      } else {
        res := res.(draftRestoreFailed := true);
      }
    }
  }

  /** The capture that a hold starting at capture `at` takes for the draft: the last one, if all of them show
      one. */
  ghost predicate SavedFrom(pane: Pane, draft: string, at: nat, holdPolls: nat) {
    && (draft == "" <==> exists i :: 0 <= i <= holdPolls && DraftOf(pane.Shot(at, i)) == "")
    && (draft != "" ==> draft == DraftOf(pane.Shot(at, holdPolls)))
  }

  /** Where the guard starts to look: at once, or where the wait for the composer ends. */
  ghost predicate HoldStarts(pane: Pane, waits: bool, at: nat, polls: nat, heldAt: nat) {
    if waits then WaitedTo(pane, at, polls, heldAt) else heldAt == at
  }

  /** What comes before the message: the wait for the composer and the guard, for Claude alone. */
  method PrepareComposer(pane: Pane, claudeLike: bool, noWait: bool, tun: Tuning)
    returns (draftSaved: string, draftCleared: bool, ghost heldAt: nat, ghost guardKeys: seq<Action>)
    modifies pane
    ensures pane.trace == old(pane.trace) + guardKeys
    ensures (forall k :: 0 <= k < |guardKeys| ==> guardKeys[k] == CtrlC) && (draftSaved == "" <==> guardKeys == [])
    ensures HoldStarts(pane, noWait && claudeLike, old(pane.captured), tun.preflightPolls, heldAt) && heldAt <= pane.captured
    ensures claudeLike ==> SavedFrom(pane, draftSaved, heldAt, tun.holdPolls)
    ensures !claudeLike ==> draftSaved == "" && pane.captured == old(pane.captured)
    ensures if draftSaved == "" then !draftCleared
            else ClearOutcome(pane, heldAt + tun.holdPolls + 1, pane.captured, |old(pane.trace)|, |guardKeys|,
                              tun.clearPolls, draftCleared)
    ensures pane.polled == old(pane.polled)
  {
    if noWait && claudeLike {
      var _ := AwaitComposerReady(pane, tun.preflightPolls);
    }
    heldAt := pane.captured;
    draftSaved, draftCleared := "", false;
    if claudeLike {
      var guard := GuardComposerDraft(pane, tun.holdPolls, tun.clearPolls);
      draftSaved, draftCleared := guard.savedDraft, guard.draftCleared;
    }
    guardKeys := pane.trace[|old(pane.trace)|..];
  }

  /** The whole send. `heldAt` is the capture at which the guard starts to look, and `seen` the one at which
      the send loop does. */
  method ExecuteSend(pane: Pane, claudeLike: bool, skipVerify: bool, message: string, noWait: bool, tun: Tuning)
    returns (res: SendResult, failed: bool, ghost heldAt: nat, ghost seen: nat,
             ghost guardKeys: seq<Action>, ghost loopKeys: seq<Action>)
    modifies pane
    ensures pane.trace == old(pane.trace) + AllKeys(guardKeys, loopKeys, res)
    ensures SendTrace(guardKeys, loopKeys, message, res)
    ensures HoldStarts(pane, noWait && claudeLike, old(pane.captured), tun.preflightPolls, heldAt) && heldAt <= seen
    ensures claudeLike ==> SavedFrom(pane, res.draftSaved, heldAt, tun.holdPolls)
    ensures !claudeLike ==> res.draftSaved == "" && seen == old(pane.captured)
    ensures if res.draftSaved == "" then !res.draftCleared
            else ClearOutcome(pane, heldAt + tun.holdPolls + 1, seen, |old(pane.trace)|, |guardKeys|,
                              tun.clearPolls, res.draftCleared)
    ensures Delivered(pane, res.delivery, loopKeys, |old(pane.trace)| + |guardKeys|, seen, old(pane.polled),
                      message, skipVerify, tun.retry)
    ensures DraftAccounted(res)
    ensures res.draftRestored ==> pane.accepts(|pane.trace| - 1)
    ensures res.draftRestoreFailed ==> !pane.accepts(|pane.trace| - 1)
    ensures failed <==> res.delivery == SendFailed || res.delivery == TypedNotSubmitted || res.delivery == NoEvidence
  {
    var draftSaved, draftCleared;
    draftSaved, draftCleared, heldAt, guardKeys := PrepareComposer(pane, claudeLike, noWait, tun);
    seen := pane.captured;
    var delivery;
    delivery, failed, loopKeys := Deliver(pane, message, skipVerify, tun.retry);
    DeliveredKeys(pane, delivery, loopKeys, |old(pane.trace)| + |guardKeys|, seen, old(pane.polled),
                  message, skipVerify, tun.retry);
    res := SendResult(delivery, draftSaved, draftCleared, false, false);
    res := RestoreDraft(pane, res);
    Regroup(old(pane.trace), guardKeys, loopKeys, DraftKeys(res));
  }

  lemma Regroup(a: seq<Action>, b: seq<Action>, c: seq<Action>, d: seq<Action>)
    ensures ((a + b) + c) + d == a + ((b + c) + d)
  {
  }

  /** The draft is typed back at most once, as the last keystroke of all, and only when due. */
  lemma DraftTypedBackOnlyLast(guardKeys: seq<Action>, loopKeys: seq<Action>, message: string, r: SendResult)
    requires SendTrace(guardKeys, loopKeys, message, r) && DraftAccounted(r)
    ensures var keys := AllKeys(guardKeys, loopKeys, r);
            && (forall k :: 0 <= k < |keys| ==>
                  (keys[k].Retype? <==> k == |keys| - 1 && (r.draftRestored || r.draftRestoreFailed)))
            && (r.draftRestored || r.draftRestoreFailed ==> keys[|keys| - 1] == Retype(r.draftSaved))
  {
    var keys, n := AllKeys(guardKeys, loopKeys, r), |guardKeys|;
    forall k | 0 <= k < |keys|
      ensures keys[k] == if k < n then guardKeys[k] else if k < n + |loopKeys| then loopKeys[k - n]
                         else Retype(r.draftSaved)
    {
    }
    forall k | 0 <= k < |loopKeys|
      ensures !loopKeys[k].Retype?
    {
      assert k > 0 ==> LoopKey(loopKeys[k], message);
    }
  }

  // ---------- what the caller of --json is told ----------

  datatype Json = Text(text: string) | Flag(flag: bool)

  function DeliveryName(d: Delivery): string {
    match d
    case SendFailed => "send_failed"
    case Unverified => "unverified"
    case Submitted => "submitted"
    case TypedNotSubmitted => "typed_not_submitted"
    case NoEvidence => "no_evidence"
  }

  function JsonFields(r: SendResult): map<string, Json> {
    var fields: map<string, Json> := map["delivery" := Text(DeliveryName(r.delivery))];
    if r.draftSaved == "" then fields
    else
      var withDraft := fields["saved_draft" := Text(r.draftSaved)]["draft_restored" := Flag(r.draftRestored)];
      if r.draftRestoreFailed then withDraft["draft_restore_failed" := Flag(true)] else withDraft
  }

  /** What the fields are: the delivery always, and of a saved draft its text, whether it is back, and that it could
      not be typed back, if so. */
  lemma JsonShows(r: SendResult)
    ensures var f := JsonFields(r);
            && "delivery" in f
            && f["delivery"] == Text(match r.delivery
                                     case SendFailed => "send_failed"
                                     case Unverified => "unverified"
                                     case Submitted => "submitted"
                                     case TypedNotSubmitted => "typed_not_submitted"
                                     case NoEvidence => "no_evidence")
            && ("saved_draft" in f <==> r.draftSaved != "")
            && ("draft_restored" in f <==> r.draftSaved != "")
            && ("draft_restore_failed" in f <==> r.draftSaved != "" && r.draftRestoreFailed)
            && (r.draftSaved != "" ==> f["saved_draft"] == Text(r.draftSaved) && f["draft_restored"] == Flag(r.draftRestored))
  {
    FieldNamesDiffer();
  }

  lemma DeliveryNamesDiffer(d: Delivery, e: Delivery)
    requires DeliveryName(d) == DeliveryName(e)
    ensures d == e
  {
    assert |DeliveryName(d)| == |DeliveryName(e)|;
    assert DeliveryName(d)[0] == DeliveryName(e)[0];
  }

  lemma FieldNamesDiffer()
    ensures "delivery" != "saved_draft" && "delivery" != "draft_restored" && "delivery" != "draft_restore_failed"
    ensures "saved_draft" != "draft_restored" && "saved_draft" != "draft_restore_failed"
    ensures "draft_restored" != "draft_restore_failed"
  {
    assert |"delivery"| == 8 && |"saved_draft"| == 11 && |"draft_restored"| == 14 && |"draft_restore_failed"| == 20;
  }

  /** Nothing about the draft is lost on the way to JSON: two results a run can end with show the same
      fields only if they agree on the delivery, the draft and what became of it. */
  lemma JsonTellsTheDraft(r: SendResult, q: SendResult)
    requires DraftAccounted(r) && DraftAccounted(q) && JsonFields(r) == JsonFields(q)
    ensures r.delivery == q.delivery && r.draftSaved == q.draftSaved
    ensures r.draftRestored == q.draftRestored && r.draftRestoreFailed == q.draftRestoreFailed
  {
    FieldNamesDiffer();
    var f, g := JsonFields(r), JsonFields(q);
    assert f["delivery"] == Text(DeliveryName(r.delivery)) && g["delivery"] == Text(DeliveryName(q.delivery));
    DeliveryNamesDiffer(r.delivery, q.delivery);
    assert "saved_draft" in f <==> r.draftSaved != "";
    assert "saved_draft" in g <==> q.draftSaved != "";
    if r.draftSaved != "" {
      assert f["saved_draft"] == Text(r.draftSaved) && g["saved_draft"] == Text(q.draftSaved);
      assert f["draft_restored"] == Flag(r.draftRestored) && g["draft_restored"] == Flag(q.draftRestored);
    }
  }
}
