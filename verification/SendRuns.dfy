/** What the send loop types, in terms of what the pane shows: how many Enters on every window, and the whole
    trace on panes that keep showing the same. */
module SendRuns {
  import opened Terminal
  import opened SendLoop

  // ---------- what a check sees ----------

  /** The message sits in the composer, as a paste marker or as its text. */
  predicate ShowsUnsent(o: Observation) {
    o.view.Captured? && (o.view.pasted || o.view.unsent)
  }

  predicate AtWork(o: Observation) {
    !ShowsUnsent(o) && o.status == Active
  }

  predicate AtRest(o: Observation) {
    !ShowsUnsent(o) && (o.status == Waiting || o.status == Idle)
  }

  predicate WorkBefore(obs: seq<Observation>, i: nat)
    requires i <= |obs|
  {
    i > 0 && (AtWork(obs[i - 1]) || WorkBefore(obs, i - 1))
  }

  lemma {:induction false} WorkBeforeIff(obs: seq<Observation>, i: nat)
    requires i <= |obs|
    ensures WorkBefore(obs, i) <==> exists j :: 0 <= j < i && AtWork(obs[j])
  {
    if i > 0 {
      WorkBeforeIff(obs, i - 1);
    }
  }

  /** The message is cleared and typed again: it is lost, and the limit leaves one more. */
  predicate Resends(obs: seq<Observation>, i: nat, maxResends: nat)
    requires i < |obs|
  {
    LooksLost(obs, i) && LostCount(obs, i) < maxResends
  }

  /** An Enter is due: at a check that shows the message unsent; at rest before any work, when it is not typed
      again, in the first five checks and every second one after them; and in an unclear state in the first
      four checks. */
  predicate EnterDue(obs: seq<Observation>, i: nat, maxResends: nat)
    requires i < |obs|
  {
    || ShowsUnsent(obs[i])
    || (AtRest(obs[i]) && !WorkBefore(obs, i) && !Resends(obs, i, maxResends) && (i < 5 || i % 2 == 0))
    || (!ShowsUnsent(obs[i]) && !AtWork(obs[i]) && !AtRest(obs[i]) && i < 4)
  }

  function EntersDue(obs: seq<Observation>, n: nat, maxResends: nat): nat
    requires n <= |obs|
  {
    if n == 0 then 0 else EntersDue(obs, n - 1, maxResends) + if EnterDue(obs, n - 1, maxResends) then 1 else 0
  }

  lemma CheckIsSeen(obs: seq<Observation>, i: nat)
    requires i < |obs|
    ensures ShowsUnsent(obs[i]) <==> KindOf(obs[i]) == Stuck
    ensures AtWork(obs[i]) <==> KindOf(obs[i]) == Working
    ensures AtRest(obs[i]) <==> KindOf(obs[i]) == Quiet
  {
  }

  lemma WorkIsSeen(obs: seq<Observation>, i: nat)
    requires i <= |obs|
    ensures SawWorking(obs, i) <==> WorkBefore(obs, i)
  {
    SawWorkingMeans(obs, i);
    WorkBeforeIff(obs, i);
    if j: nat :| j < i && KindOf(obs[j]) == Working {
      CheckIsSeen(obs, j);
    }
  }

  /** The `r` checks up to `i` were at rest, and not one more. */
  predicate RestRun(obs: seq<Observation>, i: nat, r: int)
    requires i < |obs|
  {
    && 0 < r <= i + 1 && (forall j :: i - r < j <= i ==> AtRest(obs[j]))
    && (r <= i ==> !AtRest(obs[i - r]))
  }

  lemma {:induction false} RestRunIs(obs: seq<Observation>, i: nat)
    requires i < |obs|
    ensures QuietRun(obs, i + 1) > 0 ==> RestRun(obs, i, QuietRun(obs, i + 1))
    ensures QuietRun(obs, i + 1) == 0 ==> !AtRest(obs[i])
  {
    CheckIsSeen(obs, i);
    if i > 0 {
      RestRunIs(obs, i - 1);
    }
  }

  /** The message looks lost when nothing has been at work and the run of checks at rest has just reached a
      multiple of eight. */
  lemma LooksLostIff(obs: seq<Observation>, i: nat)
    requires i < |obs|
    ensures LooksLost(obs, i) <==> !WorkBefore(obs, i + 1) && exists r :: RestRun(obs, i, r) && r % 8 == 0
  {
    WorkIsSeen(obs, i + 1);
    RestRunIs(obs, i);
    if r :| RestRun(obs, i, r) && r % 8 == 0 {
      var q := QuietRun(obs, i + 1);
      assert AtRest(obs[i]);
      assert q < r ==> !AtRest(obs[i - q]);
      assert r < q ==> !AtRest(obs[i - r]);
    }
  }

  lemma OneAnswer(obs: seq<Observation>, i: nat, maxResends: nat, message: string)
    requires i < |obs|
    ensures Count(Response(obs, i, maxResends, message), Enter) == if EnterDue(obs, i, maxResends) then 1 else 0
    ensures AtWork(obs[i]) ==> Response(obs, i, maxResends, message) == []
  {
    CheckIsSeen(obs, i);
    WorkIsSeen(obs, i);
    assert [Enter][1..] == [] && [CtrlC, Submit(message)][1..] == [Submit(message)];
    assert [Submit(message)][1..] == [];
  }

  lemma AnswerCounts(obs: seq<Observation>, n: nat, maxResends: nat, message: string)
    requires 0 < n <= |obs|
    ensures Count(Responses(obs, n, maxResends, message), Enter)
            == Count(Responses(obs, n - 1, maxResends, message), Enter) + EntersDue(obs, n, maxResends) - EntersDue(obs, n - 1, maxResends)
  {
    OneAnswer(obs, n - 1, maxResends, message);
    CountConcat(Responses(obs, n - 1, maxResends, message), Response(obs, n - 1, maxResends, message), Enter);
  }

  /** For every window: exactly one Enter for every check at which one is due. */
  lemma {:induction false} EntersExactly(obs: seq<Observation>, n: nat, maxResends: nat, message: string)
    requires n <= |obs|
    ensures Count(Responses(obs, n, maxResends, message), Enter) == EntersDue(obs, n, maxResends)
  {
    if n > 0 {
      EntersExactly(obs, n - 1, maxResends, message);
      AnswerCounts(obs, n, maxResends, message);
    }
  }

  // ---------- panes that keep showing the same ----------

  function Enters(n: nat): (keys: seq<Action>)
    ensures |keys| == n && forall k :: 0 <= k < n ==> keys[k] == Enter
  {
    if n == 0 then [] else Enters(n - 1) + [Enter]
  }

  lemma {:induction false} StuckAnswers(obs: seq<Observation>, n: nat, maxResends: nat, message: string)
    requires n <= |obs| && forall i :: 0 <= i < |obs| ==> ShowsUnsent(obs[i])
    ensures Responses(obs, n, maxResends, message) == Enters(n)
    ensures forall i :: 0 <= i < n ==> !Settled(obs, i)
  {
    if n > 0 {
      StuckAnswers(obs, n - 1, maxResends, message);
      CheckIsSeen(obs, n - 1);
    }
  }

  /** A message that stays unsent gets one Enter for every check of the budget, and nothing else; with
      verification on, the send ends as typed and not submitted. */
  lemma StuckThroughout(pane: Pane, delivery: Delivery, keys: seq<Action>, typedAt: nat, seen: nat, polled: nat,
                        message: string, opts: Options)
    requires Delivered(pane, delivery, keys, typedAt, seen, polled, message, false, opts) && pane.accepts(typedAt)
    requires opts.verifyDelivery
    requires forall k :: seen <= k <= seen + Budget(opts) ==>
                           pane.captures(k).Captured? && (pane.captures(k).pasted || pane.captures(k).unsent)
    ensures delivery == TypedNotSubmitted && keys == [Submit(message)] + Enters(Budget(opts))
  {
    var n := Budget(opts);
    var obs := Window(pane, seen, polled, n);
    forall i | 0 <= i < n
      ensures ShowsUnsent(obs[i])
    {
      WindowAt(pane, seen, polled, n, i);
    }
    StuckAnswers(obs, n, MaxFullResends(opts), message);
    FirstSettledIs(obs, n);
  }

  /** What an agent that stays at rest gets at check `i`: the message again at every eighth check up to the limit,
      and an Enter otherwise in the first five checks and at every even one. */
  function RestAnswer(i: nat, maxResends: nat, message: string): seq<Action> {
    if i % 8 == 7 && i / 8 < maxResends then [CtrlC, Submit(message)]
    else if i < 5 || i % 2 == 0 then [Enter]
    else []
  }

  function RestAnswers(n: nat, maxResends: nat, message: string): seq<Action> {
    if n == 0 then [] else RestAnswers(n - 1, maxResends, message) + RestAnswer(n - 1, maxResends, message)
  }

  lemma {:induction false} RestCounts(obs: seq<Observation>, n: nat)
    requires n <= |obs| && forall i :: 0 <= i < |obs| ==> AtRest(obs[i])
    ensures !SawWorking(obs, n) && QuietRun(obs, n) == n && LostCount(obs, n) == n / 8
    ensures forall i :: 0 <= i < n ==> !Settled(obs, i)
  {
    if n > 0 {
      RestCounts(obs, n - 1);
      CheckIsSeen(obs, n - 1);
    }
  }

  /** At rest throughout: the exact keys. */
  lemma {:induction false} RestingAnswers(obs: seq<Observation>, n: nat, maxResends: nat, message: string)
    requires n <= |obs| && forall i :: 0 <= i < |obs| ==> AtRest(obs[i])
    ensures Responses(obs, n, maxResends, message) == RestAnswers(n, maxResends, message)
    ensures FirstSettled(obs, 0) == |obs|
  {
    RestCounts(obs, |obs|);
    FirstSettledIs(obs, |obs|);
    if n > 0 {
      RestingAnswers(obs, n - 1, maxResends, message);
      OneRestAnswer(obs, n - 1, maxResends, message);
    }
  }

  lemma OneRestAnswer(obs: seq<Observation>, i: nat, maxResends: nat, message: string)
    requires i < |obs| && forall j :: 0 <= j < |obs| ==> AtRest(obs[j])
    ensures Response(obs, i, maxResends, message) == RestAnswer(i, maxResends, message)
  {
    RestCounts(obs, i);
    RestCounts(obs, i + 1);
    CheckIsSeen(obs, i);
  }

  /** Unclear throughout: four Enters and no more. */
  lemma {:induction false} UnclearAnswers(obs: seq<Observation>, n: nat, maxResends: nat, message: string)
    requires n <= |obs|
    requires forall i :: 0 <= i < |obs| ==> !ShowsUnsent(obs[i]) && obs[i].status in {OtherStatus, StatusFailed}
    ensures Responses(obs, n, maxResends, message) == Enters(if n < 4 then n else 4)
    ensures forall i :: 0 <= i < n ==> !Settled(obs, i)
  {
    if n > 0 {
      UnclearAnswers(obs, n - 1, maxResends, message);
      assert KindOf(obs[n - 1]) == Unclear;
    }
  }

  /** The run is confirmed at the second of two checks at work in a row, or the second of two at rest in a row once
      there was work; and never before. */
  lemma SettledIff(obs: seq<Observation>, i: nat)
    requires i < |obs|
    ensures Settled(obs, i) <==>
            i > 0 && ((AtWork(obs[i - 1]) && AtWork(obs[i])) || (AtRest(obs[i - 1]) && AtRest(obs[i]) && WorkBefore(obs, i - 1)))
  {
    CheckIsSeen(obs, i);
    if i > 0 {
      CheckIsSeen(obs, i - 1);
      WorkIsSeen(obs, i - 1);
    }
  }

  /** Evidence of delivery: the message unsent in the composer, its text anywhere on the screen, or the agent at
      work. */
  lemma {:induction false} EvidenceIff(obs: seq<Observation>, n: nat)
    requires n <= |obs|
    ensures SawEvidence(obs, n) <==>
            exists j :: 0 <= j < n && (ShowsUnsent(obs[j]) || AtWork(obs[j]) || (obs[j].view.Captured? && obs[j].view.token))
  {
    if n > 0 {
      EvidenceIff(obs, n - 1);
      CheckIsSeen(obs, n - 1);
    }
  }

  /** The delivery of a run, in the order in which it is decided: confirmed within the budget; without verification
      nothing is claimed; then the last look at the composer; then whether there ever was evidence. */
  lemma DeliveryIs(delivery: Delivery, obs: seq<Observation>, last: Capture, verify: bool)
    requires Classified(delivery, obs, last, verify)
    ensures (exists i :: 0 <= i < |obs| && Settled(obs, i)) ==> delivery == Submitted
    ensures (forall i :: 0 <= i < |obs| ==> !Settled(obs, i)) ==>
              delivery == (if !verify then Unverified
                           else if last.Captured? && (last.pasted || last.unsent) then TypedNotSubmitted
                           else if SawEvidence(obs, |obs|) then Submitted
                           else NoEvidence)
  {
  }

  /** The limits: three full resends unless asked otherwise, none when they are switched off, and one check at
      least. */
  lemma LimitsAre(opts: Options)
    ensures opts.maxFullResends == 0 ==> MaxFullResends(opts) == 3
    ensures opts.maxFullResends < 0 ==> MaxFullResends(opts) == 0
    ensures opts.maxFullResends > 0 ==> MaxFullResends(opts) == opts.maxFullResends
    ensures Budget(opts) >= 1 && (opts.maxRetries >= 1 ==> Budget(opts) == opts.maxRetries)
  {
  }
}
