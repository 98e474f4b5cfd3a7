/** The verified send: type the message once, then poll the pane a bounded number of times and
    decide, from what the polls show, whether to press Enter, clear and type again, or stop.

    The loop keeps six counters and flags. The specification below uses none of them: it is
    written over the window of observations made so far. */
module SendLoop {
  import opened Terminal

  datatype Options = Options(maxRetries: int, maxFullResends: int, verifyDelivery: bool)

  datatype Delivery = SendFailed | Unverified | Submitted | TypedNotSubmitted | NoEvidence

  datatype Observation = Observation(view: Capture, status: Status)

  datatype Kind = Stuck | Working | Quiet | Unclear

  const ACTIVE_SUCCESS_THRESHOLD := 2
  const WAITING_AFTER_ACTIVE_THRESHOLD := 2
  const FULL_RESEND_THRESHOLD := 8
  const DEFAULT_FULL_RESENDS := 3

  function Budget(opts: Options): nat {
    if opts.maxRetries <= 0 then 1 else opts.maxRetries
  }

  function MaxFullResends(opts: Options): nat {
    if opts.maxFullResends > 0 then opts.maxFullResends
    else if opts.maxFullResends < 0 then 0
    else DEFAULT_FULL_RESENDS
  }

  // ---------- the specification, over the window of observations ----------

  function KindOf(o: Observation): Kind {
    if Marked(o.view) then Stuck
    else match o.status
      case Active => Working
      case Waiting => Quiet
      case Idle => Quiet
      case _ => Unclear
  }

  predicate Evidence(o: Observation) {
    KindOf(o) == Stuck || KindOf(o) == Working || (o.view.Captured? && o.view.token)
  }

  /** Some check before `n` saw the agent at work with nothing unsent. */
  predicate SawWorking(obs: seq<Observation>, n: nat)
    requires n <= |obs|
  {
    n > 0 && (KindOf(obs[n - 1]) == Working || SawWorking(obs, n - 1))
  }

  predicate SawEvidence(obs: seq<Observation>, n: nat)
    requires n <= |obs|
  {
    n > 0 && (Evidence(obs[n - 1]) || SawEvidence(obs, n - 1))
  }

  /** Check `i` confirms the submission: the last two checks are both working, or both quiet after
      an earlier working one. */
  predicate Settled(obs: seq<Observation>, i: nat)
    requires i < |obs|
  {
    && i >= 1
    && (|| (KindOf(obs[i - 1]) == Working && KindOf(obs[i]) == Working)
        || (KindOf(obs[i - 1]) == Quiet && KindOf(obs[i]) == Quiet && SawWorking(obs, i - 1)))
  }

  /** The first settled check from `from` on, or the end of the window. */
  function FirstSettled(obs: seq<Observation>, from: nat): (n: nat)
    requires from <= |obs|
    ensures from <= n <= |obs|
    ensures n < |obs| ==> Settled(obs, n)
    ensures forall i :: from <= i < n ==> !Settled(obs, i)
    decreases |obs| - from
  {
    if from == |obs| || Settled(obs, from) then from else FirstSettled(obs, from + 1)
  }

  /** How many quiet checks in a row end just before `n`. */
  function QuietRun(obs: seq<Observation>, n: nat): nat
    requires n <= |obs|
  {
    if n == 0 || KindOf(obs[n - 1]) != Quiet then 0 else 1 + QuietRun(obs, n - 1)
  }

  /** Check `i` is one where the message looks lost: nothing ever worked, and the run of quiet
      checks has just reached a multiple of the threshold. */
  predicate LooksLost(obs: seq<Observation>, i: nat)
    requires i < |obs|
  {
    && !SawWorking(obs, i + 1)
    && QuietRun(obs, i + 1) > 0
    && QuietRun(obs, i + 1) % FULL_RESEND_THRESHOLD == 0
  }

  function LostCount(obs: seq<Observation>, n: nat): nat
    requires n <= |obs|
  {
    if n == 0 then 0 else LostCount(obs, n - 1) + (if LooksLost(obs, n - 1) then 1 else 0)
  }

  function Min(a: nat, b: nat): nat { if a < b then a else b }

  /** The keystrokes check `i` answers with. */
  function Response(obs: seq<Observation>, i: nat, maxResends: nat, message: string): seq<Action>
    requires i < |obs|
  {
    match KindOf(obs[i])
    case Stuck => [Enter]
    case Working => []
    case Quiet =>
      if SawWorking(obs, i) then []
      else if LooksLost(obs, i) && LostCount(obs, i) < maxResends then [CtrlC, Submit(message)]
      else if i < 5 || i % 2 == 0 then [Enter]
      else []
    case Unclear => if i < 4 then [Enter] else []
  }

  /** The keystrokes of the first `n` checks. */
  function Responses(obs: seq<Observation>, n: nat, maxResends: nat, message: string): seq<Action>
    requires n <= |obs|
  {
    if n == 0 then []
    else Responses(obs, n - 1, maxResends, message) + Response(obs, n - 1, maxResends, message)
  }

  /** The observations a pane gives from capture `c` and status poll `s` on. */
  function Window(pane: Pane, c: nat, s: nat, n: nat): (obs: seq<Observation>)
    ensures |obs| == n
  {
    if n == 0 then []
    else Window(pane, c, s, n - 1) + [Observation(pane.captures(c + n - 1), pane.statuses(s + n - 1))]
  }

  lemma {:induction false} WindowAt(pane: Pane, c: nat, s: nat, n: nat, i: nat)
    requires i < n
    ensures Window(pane, c, s, n)[i] == Observation(pane.captures(c + i), pane.statuses(s + i))
  {
    if i < n - 1 {
      WindowAt(pane, c, s, n - 1, i);
    }
  }

  /** How many checks are made on a window: up to and including the settled one. */
  function ChecksMade(obs: seq<Observation>): (n: nat)
    ensures n <= |obs|
  {
    var k := FirstSettled(obs, 0);
    if k < |obs| then k + 1 else k
  }

  /** How a finished run is classified, from its observations and the capture that follows the last
      of them. */
  ghost predicate Classified(delivery: Delivery, obs: seq<Observation>, last: Capture, verify: bool) {
    var settled := FirstSettled(obs, 0) < |obs|;
    && (delivery == TypedNotSubmitted <==> !settled && verify && Marked(last))
    && (delivery == NoEvidence <==> !settled && verify && !Marked(last) && !SawEvidence(obs, |obs|))
    && (delivery == Submitted <==> settled || (verify && !Marked(last) && SawEvidence(obs, |obs|)))
    && (delivery == Unverified <==> !settled && !verify)
  }

  // ---------- the loop ----------

  /** The six counters and flags of the loop. */
  datatype Counters = Counters(
    waitingNoMarkerChecks: int,
    waitingNoActivityChecks: int,
    activeChecks: int,
    sawActiveAfterSend: bool,
    fullResendCount: int,
    sawDeliveryEvidence: bool)

  /** What the counters mean after `n` checks. */
  ghost predicate Tracks(c: Counters, obs: seq<Observation>, n: nat, maxResends: nat) {
    && n <= |obs|
    && c.activeChecks == (if n > 0 && KindOf(obs[n - 1]) == Working then 1 else 0)
    && c.waitingNoMarkerChecks ==
       (if n > 0 && KindOf(obs[n - 1]) == Quiet && SawWorking(obs, n - 1) then 1 else 0)
    && (c.sawActiveAfterSend <==> SawWorking(obs, n))
    && (c.sawDeliveryEvidence <==> SawEvidence(obs, n))
    && c.fullResendCount == Min(maxResends, LostCount(obs, n))
    && (!c.sawActiveAfterSend && c.fullResendCount < maxResends ==>
          c.waitingNoActivityChecks == QuietRun(obs, n) % FULL_RESEND_THRESHOLD)
  }

  /** One pass of the loop: observe, then answer. It reports whether the submission is confirmed. */
  method Check(pane: Pane, message: string, retry: nat, maxFullResends: nat, c: Counters, ghost obs: seq<Observation>)
    returns (done: bool, c': Counters)
    requires retry < |obs| && Tracks(c, obs, retry, maxFullResends)
    requires obs[retry] == Observation(pane.captures(pane.captured), pane.statuses(pane.polled))
    modifies pane
    ensures pane.captured == old(pane.captured) + 1 && pane.polled == old(pane.polled) + 1
    ensures pane.trace == old(pane.trace) + Response(obs, retry, maxFullResends, message)
    ensures done <==> Settled(obs, retry)
    ensures !done ==> Tracks(c', obs, retry + 1, maxFullResends)
  {
    var unsentPromptDetected := false;
    var evidence := c.sawDeliveryEvidence;
    var view := pane.CapturePaneFresh();
    if view.Captured? {
      unsentPromptDetected := view.pasted || view.unsent;
      if !evidence && view.token {
        evidence := true;
      }
    }
    var status := pane.GetStatus();
    if unsentPromptDetected {
      StuckStep(c, obs, retry, maxFullResends);
      var _ := pane.Press(Enter);
      return false, Counters(0, 0, 0, c.sawActiveAfterSend, c.fullResendCount, true);
    }
    if status == Active {
      WorkingStep(c, obs, retry, maxFullResends);
      var activeChecks := c.activeChecks + 1;
      return activeChecks >= ACTIVE_SUCCESS_THRESHOLD, Counters(0, 0, activeChecks, true, c.fullResendCount, true);
    }
    if status == Waiting || status == Idle {
      if c.sawActiveAfterSend {
        QuietAfterWorkStep(c, obs, retry, maxFullResends);
        var waiting := c.waitingNoMarkerChecks + 1;
        return waiting >= WAITING_AFTER_ACTIVE_THRESHOLD, Counters(waiting, 0, 0, true, c.fullResendCount, evidence);
      }
      QuietBeforeWorkStep(c, obs, retry, maxFullResends);
      var waiting := c.waitingNoActivityChecks + 1;
      if waiting >= FULL_RESEND_THRESHOLD && c.fullResendCount < maxFullResends {
        var _ := pane.Press(CtrlC);
        var _ := pane.Press(Submit(message));
        return false, Counters(0, 0, 0, false, c.fullResendCount + 1, evidence);
      }
      if retry < 5 || retry % 2 == 0 {
        var _ := pane.Press(Enter);
      }
      return false, Counters(0, waiting, 0, false, c.fullResendCount, evidence);
    }
    UnclearStep(c, obs, retry, maxFullResends);
    if retry < 4 {
      var _ := pane.Press(Enter);
    }
    return false, Counters(0, 0, 0, c.sawActiveAfterSend, c.fullResendCount, evidence);
  }

  lemma AnswerAppended(trace: seq<Action>, obs: seq<Observation>, i: nat, maxResends: nat, message: string)
    requires i < |obs|
    ensures (trace + Responses(obs, i, maxResends, message)) + Response(obs, i, maxResends, message)
            == trace + Responses(obs, i + 1, maxResends, message)
  {
  }

  /** `checks` checks were made without a settled one, and answered. */
  ghost predicate Polled(obs: seq<Observation>, checks: nat, c: Counters, maxResends: nat) {
    Tracks(c, obs, checks, maxResends) && forall i :: 0 <= i < checks ==> !Settled(obs, i)
  }

  lemma PolledNext(obs: seq<Observation>, checks: nat, c: Counters, c': Counters, maxResends: nat)
    requires checks < |obs| && Polled(obs, checks, c, maxResends)
    requires !Settled(obs, checks) && Tracks(c', obs, checks + 1, maxResends)
    ensures Polled(obs, checks + 1, c', maxResends)
  {
  }

  /** What a finished poll has seen in `checks` checks. */
  ghost predicate PollEnds(obs: seq<Observation>, checks: nat, settled: bool, evidence: bool) {
    && checks <= |obs| && (forall i :: 0 <= i < checks - 1 ==> !Settled(obs, i))
    && if settled then checks > 0 && Settled(obs, checks - 1)
       else checks == |obs| && (checks > 0 ==> !Settled(obs, checks - 1)) && (evidence <==> SawEvidence(obs, checks))
  }

  method PollChecks(pane: Pane, message: string, maxRetries: nat, maxFullResends: nat, ghost obs: seq<Observation>)
    returns (settled: bool, evidence: bool, ghost checks: nat)
    requires obs == Window(pane, pane.captured, pane.polled, maxRetries)
    modifies pane
    ensures PollEnds(obs, checks, settled, evidence)
    ensures pane.trace == old(pane.trace) + Responses(obs, checks, maxFullResends, message)
    ensures pane.captured == old(pane.captured) + checks && pane.polled == old(pane.polled) + checks
  {
    var c := Counters(0, 0, 0, false, 0, false);
    for retry := 0 to maxRetries
      invariant pane.captured == old(pane.captured) + retry && pane.polled == old(pane.polled) + retry
      invariant pane.trace == old(pane.trace) + Responses(obs, retry, maxFullResends, message)
      invariant Polled(obs, retry, c, maxFullResends)
    {
      AnswerAppended(old(pane.trace), obs, retry, maxFullResends, message);
      WindowAt(pane, old(pane.captured), old(pane.polled), maxRetries, retry);
      var done, next := Check(pane, message, retry, maxFullResends, c, obs);
      if done {
        return true, true, retry + 1;
      }
      PolledNext(obs, retry, c, next, maxFullResends);
      c := next;
    }
    return false, c.sawDeliveryEvidence, maxRetries;
  }

  /** The polling loop: it stops at the first settled check or when the budget is spent. */
  method Poll(pane: Pane, message: string, maxRetries: nat, maxFullResends: nat)
    returns (settled: bool, evidence: bool)
    modifies pane
    ensures var obs := Window(pane, old(pane.captured), old(pane.polled), maxRetries);
            && (settled <==> FirstSettled(obs, 0) < |obs|)
            && (!settled ==> (evidence <==> SawEvidence(obs, |obs|)))
            && pane.trace == old(pane.trace) + Responses(obs, ChecksMade(obs), maxFullResends, message)
            && pane.captured == old(pane.captured) + ChecksMade(obs)
            && pane.polled == old(pane.polled) + ChecksMade(obs)
  {
    ghost var obs := Window(pane, pane.captured, pane.polled, maxRetries);
    ghost var checks;
    settled, evidence, checks := PollChecks(pane, message, maxRetries, maxFullResends, obs);
    FirstSettledIs(obs, if settled then checks - 1 else checks);
  }

  /** How a run is classified once the loop is over and, if need be, a last look was taken. */
  function Conclusion(settled: bool, evidence: bool, verify: bool, last: Capture): Delivery {
    if settled then Submitted
    else if !verify then Unverified
    else if Marked(last) then TypedNotSubmitted
    else if evidence then Submitted
    else NoEvidence
  }

  lemma ConclusionClassifies(obs: seq<Observation>, settled: bool, evidence: bool, verify: bool, last: Capture)
    requires settled <==> FirstSettled(obs, 0) < |obs|
    requires !settled ==> (evidence <==> SawEvidence(obs, |obs|))
    ensures Classified(Conclusion(settled, evidence, verify, last), obs, last, verify)
    ensures Conclusion(settled, evidence, verify, last) != SendFailed
  {
  }

  /** The last look, which only an unsettled run with verification takes. */
  method LastLook(pane: Pane, settled: bool, evidence: bool, verify: bool) returns (delivery: Delivery)
    modifies pane`captured
    ensures delivery == Conclusion(settled, evidence, verify, pane.captures(old(pane.captured)))
    ensures pane.captured == old(pane.captured) + if settled || !verify then 0 else 1
  {
    if settled {
      return Submitted;
    }
    if verify {
      var view := pane.CapturePaneFresh();
      if view.Captured? {
        if view.pasted || view.unsent {
          return TypedNotSubmitted;
        }
      }
      if !evidence {
        return NoEvidence;
      }
      return Submitted;
    }
    return Unverified;
  }

  /** The captures of a run: one for each check, and the last look. */
  function CapturesMade(obs: seq<Observation>, verify: bool): nat {
    ChecksMade(obs) + if FirstSettled(obs, 0) == |obs| && verify then 1 else 0
  }

  method PollAndLook(pane: Pane, message: string, maxRetries: nat, maxFullResends: nat, verify: bool)
    returns (delivery: Delivery)
    modifies pane
    ensures delivery != SendFailed
    ensures var obs := Window(pane, old(pane.captured), old(pane.polled), maxRetries);
            && Classified(delivery, obs, pane.captures(old(pane.captured) + maxRetries), verify)
            && pane.trace == old(pane.trace) + Responses(obs, ChecksMade(obs), maxFullResends, message)
            && pane.polled == old(pane.polled) + ChecksMade(obs)
            && pane.captured == old(pane.captured) + CapturesMade(obs, verify)
  {
    ghost var obs := Window(pane, pane.captured, pane.polled, maxRetries);
    ghost var last := pane.captures(pane.captured + maxRetries);
    var settled, evidence := Poll(pane, message, maxRetries, maxFullResends);
    ConclusionClassifies(obs, settled, evidence, verify, last);
    delivery := LastLook(pane, settled, evidence, verify);
  }

  method Limits(opts: Options) returns (maxRetries: nat, maxFullResends: nat)
    ensures maxRetries == Budget(opts) && maxFullResends == MaxFullResends(opts)
  {
    maxRetries := if opts.maxRetries <= 0 then 1 else opts.maxRetries;
    maxFullResends := DEFAULT_FULL_RESENDS;
    if opts.maxFullResends > 0 {
      maxFullResends := opts.maxFullResends;
    } else if opts.maxFullResends < 0 {
      maxFullResends := 0;
    }
  }

  /** What follows the first typing: the loop, and a last look when it has not settled. */
  method Verify(pane: Pane, message: string, opts: Options) returns (delivery: Delivery)
    modifies pane
    ensures delivery != SendFailed
    ensures var obs := Window(pane, old(pane.captured), old(pane.polled), Budget(opts));
            && Classified(delivery, obs, pane.captures(old(pane.captured) + Budget(opts)), opts.verifyDelivery)
            && pane.trace == old(pane.trace) + Responses(obs, ChecksMade(obs), MaxFullResends(opts), message)
            && pane.polled == old(pane.polled) + ChecksMade(obs)
            && pane.captured == old(pane.captured) + CapturesMade(obs, opts.verifyDelivery)
  {
    var maxRetries, maxFullResends := Limits(opts);
    delivery := PollAndLook(pane, message, maxRetries, maxFullResends, opts.verifyDelivery);
  }

  /** The verified send. Whatever the pane shows, the keystrokes are those of the specification up
      to the first settled check, and the delivery status splits the runs into the five cases. */
  method SendWithRetryTarget(pane: Pane, message: string, skipVerify: bool, opts: Options)
    returns (delivery: Delivery, failed: bool)
    modifies pane
    ensures failed <==> delivery == SendFailed || delivery == TypedNotSubmitted || delivery == NoEvidence
    ensures delivery == SendFailed <==> !pane.accepts(|old(pane.trace)|)
    ensures delivery == SendFailed || skipVerify ==>
              pane.trace == old(pane.trace) + [Submit(message)]
              && pane.captured == old(pane.captured) && pane.polled == old(pane.polled)
    ensures delivery != SendFailed && skipVerify ==> delivery == Unverified
    ensures delivery != SendFailed && !skipVerify ==>
              var obs := Window(pane, old(pane.captured), old(pane.polled), Budget(opts));
              && Classified(delivery, obs, pane.captures(old(pane.captured) + Budget(opts)), opts.verifyDelivery)
              && pane.trace == old(pane.trace) + [Submit(message)]
                               + Responses(obs, ChecksMade(obs), MaxFullResends(opts), message)
              && pane.polled == old(pane.polled) + ChecksMade(obs)
              && pane.captured == old(pane.captured) + CapturesMade(obs, opts.verifyDelivery)
  {
    var ok := pane.Press(Submit(message));
    if !ok {
      return SendFailed, true;
    }
    if skipVerify {
      return Unverified, false;
    }
    delivery := Verify(pane, message, opts);
    failed := delivery == TypedNotSubmitted || delivery == NoEvidence;
  }

  /** What the send loop made of the pane: `keys` are its keystrokes, `typedAt` is the number of keystrokes
      before them, and `seen` and `polled` are where its captures and status polls start. */
  ghost predicate Delivered(pane: Pane, delivery: Delivery, keys: seq<Action>, typedAt: nat, seen: nat, polled: nat,
                            message: string, skipVerify: bool, opts: Options)
  {
    && (delivery == SendFailed <==> !pane.accepts(typedAt))
    && (delivery == SendFailed || skipVerify ==> keys == [Submit(message)])
    && (delivery != SendFailed && skipVerify ==> delivery == Unverified)
    && (delivery != SendFailed && !skipVerify ==>
          var obs := Window(pane, seen, polled, Budget(opts));
          && Classified(delivery, obs, pane.captures(seen + Budget(opts)), opts.verifyDelivery)
          && keys == [Submit(message)] + Responses(obs, ChecksMade(obs), MaxFullResends(opts), message))
  }

  /** The send loop seen from outside. */
  method Deliver(pane: Pane, message: string, skipVerify: bool, opts: Options)
    returns (delivery: Delivery, failed: bool, ghost keys: seq<Action>)
    modifies pane
    ensures pane.trace == old(pane.trace) + keys
    ensures Delivered(pane, delivery, keys, |old(pane.trace)|, old(pane.captured), old(pane.polled),
                      message, skipVerify, opts)
    ensures failed <==> delivery == SendFailed || delivery == TypedNotSubmitted || delivery == NoEvidence
    ensures pane.captured == old(pane.captured)
            + if delivery == SendFailed || skipVerify then 0
              else CapturesMade(Window(pane, old(pane.captured), old(pane.polled), Budget(opts)), opts.verifyDelivery)
  {
    ghost var obs := Window(pane, pane.captured, pane.polled, Budget(opts));
    delivery, failed := SendWithRetryTarget(pane, message, skipVerify, opts);
    keys := [Submit(message)] + if delivery == SendFailed || skipVerify then []
                                else Responses(obs, ChecksMade(obs), MaxFullResends(opts), message);
    assert [Submit(message)] + [] == [Submit(message)];
  }

  // What check `i` does to the counters, kind by kind, and when it settles the run.

  lemma StuckStep(c: Counters, obs: seq<Observation>, i: nat, maxResends: nat)
    requires i < |obs| && KindOf(obs[i]) == Stuck && Tracks(c, obs, i, maxResends)
    ensures !Settled(obs, i)
    ensures Tracks(Counters(0, 0, 0, c.sawActiveAfterSend, c.fullResendCount, true), obs, i + 1, maxResends)
  {
    assert !LooksLost(obs, i);
  }

  lemma WorkingStep(c: Counters, obs: seq<Observation>, i: nat, maxResends: nat)
    requires i < |obs| && KindOf(obs[i]) == Working && Tracks(c, obs, i, maxResends)
    ensures Settled(obs, i) <==> c.activeChecks + 1 >= ACTIVE_SUCCESS_THRESHOLD
    ensures !Settled(obs, i) ==>
              Tracks(Counters(0, 0, c.activeChecks + 1, true, c.fullResendCount, true), obs, i + 1, maxResends)
  {
    assert !LooksLost(obs, i);
  }

  lemma QuietAfterWorkStep(c: Counters, obs: seq<Observation>, i: nat, maxResends: nat)
    requires i < |obs| && KindOf(obs[i]) == Quiet && Tracks(c, obs, i, maxResends) && c.sawActiveAfterSend
    ensures Settled(obs, i) <==> c.waitingNoMarkerChecks + 1 >= WAITING_AFTER_ACTIVE_THRESHOLD
    ensures !Settled(obs, i) ==>
              Tracks(Counters(c.waitingNoMarkerChecks + 1, 0, 0, true, c.fullResendCount,
                              c.sawDeliveryEvidence || Evidence(obs[i])),
                     obs, i + 1, maxResends)
  {
    assert !LooksLost(obs, i);
  }

  lemma QuietBeforeWorkStep(c: Counters, obs: seq<Observation>, i: nat, maxResends: nat)
    requires i < |obs| && KindOf(obs[i]) == Quiet && Tracks(c, obs, i, maxResends) && !c.sawActiveAfterSend
    ensures !Settled(obs, i)
    ensures var n := c.waitingNoActivityChecks + 1;
            var lost := n >= FULL_RESEND_THRESHOLD && c.fullResendCount < maxResends;
            && (lost <==> LooksLost(obs, i) && LostCount(obs, i) < maxResends)
            && Tracks(Counters(0, if lost then 0 else n, 0, false,
                               if lost then c.fullResendCount + 1 else c.fullResendCount,
                               c.sawDeliveryEvidence || Evidence(obs[i])),
                      obs, i + 1, maxResends)
  {
    assert QuietRun(obs, i + 1) == QuietRun(obs, i) + 1;
    NextOfRun(QuietRun(obs, i));
    assert LostCount(obs, i + 1) == LostCount(obs, i) + (if LooksLost(obs, i) then 1 else 0);
    assert i > 0 ==> !SawWorking(obs, i - 1);
  }

  lemma NextOfRun(run: nat)
    ensures (run + 1) % FULL_RESEND_THRESHOLD ==
            if run % FULL_RESEND_THRESHOLD == FULL_RESEND_THRESHOLD - 1 then 0 else run % FULL_RESEND_THRESHOLD + 1
  {
  }

  lemma UnclearStep(c: Counters, obs: seq<Observation>, i: nat, maxResends: nat)
    requires i < |obs| && KindOf(obs[i]) == Unclear && Tracks(c, obs, i, maxResends)
    ensures !Settled(obs, i)
    ensures Tracks(Counters(0, 0, 0, c.sawActiveAfterSend, c.fullResendCount,
                            c.sawDeliveryEvidence || Evidence(obs[i])),
                   obs, i + 1, maxResends)
  {
    assert !LooksLost(obs, i);
  }

  lemma FirstSettledIs(obs: seq<Observation>, n: nat)
    requires n <= |obs|
    requires n < |obs| ==> Settled(obs, n)
    requires forall i :: 0 <= i < n ==> !Settled(obs, i)
    ensures FirstSettled(obs, 0) == n && ChecksMade(obs) == if n < |obs| then n + 1 else n
  {
  }

  // ---------- what the specification guarantees, for every window of observations ----------

  lemma {:induction false} SawWorkingMeans(obs: seq<Observation>, n: nat)
    requires n <= |obs|
    ensures SawWorking(obs, n) <==> exists j :: 0 <= j < n && KindOf(obs[j]) == Working
  {
    if n > 0 {
      SawWorkingMeans(obs, n - 1);
    }
  }

  lemma {:induction false} WorkingIsEvidence(obs: seq<Observation>, n: nat)
    requires n <= |obs| && SawWorking(obs, n)
    ensures SawEvidence(obs, n)
  {
    if KindOf(obs[n - 1]) != Working {
      WorkingIsEvidence(obs, n - 1);
    }
  }

  lemma {:induction false} SawWorkingStays(obs: seq<Observation>, m: nat, n: nat)
    requires m <= n <= |obs| && SawWorking(obs, m)
    ensures SawWorking(obs, n)
  {
    if m < n {
      SawWorkingStays(obs, m, n - 1);
    }
  }

  /** Eight checks are spent for every one that finds the message lost. */
  lemma {:induction false} LostCountBound(obs: seq<Observation>, n: nat)
    requires n <= |obs|
    ensures 8 * LostCount(obs, n) <= n
    ensures !SawWorking(obs, n) ==> 8 * LostCount(obs, n) + QuietRun(obs, n) % 8 <= n
  {
    if n > 0 {
      LostCountBound(obs, n - 1);
      NextOfRun(QuietRun(obs, n - 1));
      assert LostCount(obs, n) == LostCount(obs, n - 1) + if LooksLost(obs, n - 1) then 1 else 0;
    }
  }

  lemma ResendCounts(obs: seq<Observation>, i: nat, maxResends: nat, message: string, a: Action)
    requires i < |obs| && (a == CtrlC || a == Submit(message))
    ensures Count(Response(obs, i, maxResends, message), a) ==
            if LooksLost(obs, i) && LostCount(obs, i) < maxResends then 1 else 0
  {
    if LooksLost(obs, i) && LostCount(obs, i) < maxResends {
      var answer := Response(obs, i, maxResends, message);
      assert KindOf(obs[i]) == Quiet && !SawWorking(obs, i);
      assert answer == [CtrlC] + [Submit(message)];
      CountConcat([CtrlC], [Submit(message)], a);
    } else {
      assert [Enter][1..] == [];
    }
  }

  lemma ResendStep(obs: seq<Observation>, n: nat, maxResends: nat, message: string, a: Action)
    requires 0 < n <= |obs| && (a == CtrlC || a == Submit(message))
    ensures Count(Responses(obs, n, maxResends, message), a)
            == Count(Responses(obs, n - 1, maxResends, message), a)
               + if LooksLost(obs, n - 1) && LostCount(obs, n - 1) < maxResends then 1 else 0
  {
    ResendCounts(obs, n - 1, maxResends, message, a);
    CountConcat(Responses(obs, n - 1, maxResends, message), Response(obs, n - 1, maxResends, message), a);
  }

  /** Ctrl+C and typing again always come together, once for each lost message until the limit. */
  lemma {:induction false} ResendsExactly(obs: seq<Observation>, n: nat, maxResends: nat, message: string, a: Action)
    requires n <= |obs| && (a == CtrlC || a == Submit(message))
    ensures Count(Responses(obs, n, maxResends, message), a) == Min(maxResends, LostCount(obs, n))
  {
    if n > 0 {
      ResendsExactly(obs, n - 1, maxResends, message, a);
      ResendStep(obs, n, maxResends, message, a);
      assert LostCount(obs, n) == LostCount(obs, n - 1) + if LooksLost(obs, n - 1) then 1 else 0;
    }
  }

  /** For any budget and any pane: at most one full resend for every eight checks, never more than
      the limit, and none at all when resends are disabled. */
  lemma ResendBound(obs: seq<Observation>, n: nat, opts: Options, message: string)
    requires n <= |obs|
    ensures var keys := Responses(obs, n, MaxFullResends(opts), message);
            && Count(keys, Submit(message)) == Count(keys, CtrlC)
            && Count(keys, CtrlC) <= Min(MaxFullResends(opts), n / 8)
            && (opts.maxFullResends < 0 ==> Count(keys, Submit(message)) == 0)
  {
    ResendsExactly(obs, n, MaxFullResends(opts), message, CtrlC);
    ResendsExactly(obs, n, MaxFullResends(opts), message, Submit(message));
    LostCountBound(obs, n);
  }

  lemma {:induction false} NotLostAfterWork(obs: seq<Observation>, m: nat, n: nat)
    requires m <= n <= |obs| && SawWorking(obs, m)
    ensures LostCount(obs, n) == LostCount(obs, m)
  {
    if m < n {
      NotLostAfterWork(obs, m, n - 1);
      SawWorkingStays(obs, m, n);
    }
  }

  /** Once a check has seen the agent at work, the message is never cleared or typed again. */
  lemma NoResendAfterWork(obs: seq<Observation>, m: nat, n: nat, maxResends: nat, message: string, a: Action)
    requires m <= n <= |obs| && SawWorking(obs, m) && (a == CtrlC || a == Submit(message))
    ensures Count(Responses(obs, n, maxResends, message), a) == Count(Responses(obs, m, maxResends, message), a)
  {
    NotLostAfterWork(obs, m, n);
    ResendsExactly(obs, m, maxResends, message, a);
    ResendsExactly(obs, n, maxResends, message, a);
  }

  /** `submitted` is never claimed without a sign of life: either way of reaching it has seen
      evidence, and the early way ends on a check with nothing unsent. */
  lemma SubmittedHasEvidence(delivery: Delivery, obs: seq<Observation>, last: Capture, verify: bool)
    requires Classified(delivery, obs, last, verify) && delivery == Submitted
    ensures SawEvidence(obs, ChecksMade(obs))
    ensures FirstSettled(obs, 0) < |obs| ==> !Marked(obs[ChecksMade(obs) - 1].view)
    ensures FirstSettled(obs, 0) == |obs| ==> !Marked(last)
  {
    var n := FirstSettled(obs, 0);
    if n < |obs| {
      SawWorkingMeans(obs, n + 1);
      SawWorkingMeans(obs, n - 1);
      assert SawWorking(obs, n + 1);
      WorkingIsEvidence(obs, n + 1);
    }
  }

  /** The statuses partition the runs: exactly one fits each run. */
  lemma ClassifiedIsPartition(obs: seq<Observation>, last: Capture, verify: bool)
    ensures exists d :: Classified(d, obs, last, verify)
    ensures forall d, e :: Classified(d, obs, last, verify) && Classified(e, obs, last, verify) ==> d == e
  {
    var d :=
      if FirstSettled(obs, 0) < |obs| then Submitted
      else if !verify then Unverified
      else if Marked(last) then TypedNotSubmitted
      else if SawEvidence(obs, |obs|) then Submitted
      else NoEvidence;
    assert Classified(d, obs, last, verify);
    var settled := FirstSettled(obs, 0) < |obs|;
    forall d, e | Classified(d, obs, last, verify) && Classified(e, obs, last, verify)
      ensures d == e
    {
      if d == SendFailed {
        assert !settled && !(verify && Marked(last)) && verify;
      }
    }
  }

  lemma {:induction false} SawWorkingOfPrefix(obs: seq<Observation>, more: seq<Observation>, n: nat)
    requires n <= |obs|
    ensures SawWorking(obs + more, n) == SawWorking(obs, n)
  {
    if n > 0 {
      assert (obs + more)[n - 1] == obs[n - 1];
      SawWorkingOfPrefix(obs, more, n - 1);
    }
  }

  /** A larger budget never changes a run that was confirmed within the smaller one. */
  lemma MoreBudgetKeepsSubmission(obs: seq<Observation>, more: seq<Observation>)
    requires FirstSettled(obs, 0) < |obs|
    ensures FirstSettled(obs + more, 0) == FirstSettled(obs, 0)
  {
    var n := FirstSettled(obs, 0);
    forall i | 0 <= i <= n
      ensures Settled(obs + more, i) == Settled(obs, i)
    {
      if i > 0 {
        SawWorkingOfPrefix(obs, more, i - 1);
        assert (obs + more)[i] == obs[i] && (obs + more)[i - 1] == obs[i - 1];
      }
    }
    FirstSettledIs(obs + more, n);
  }
}
