/** How long a queued session waits: the drains reach it in order of creation. */
module QueueOrder {
  import opened SessionTypes
  import opened GroupQueue
  import opened CapProofs

  /** Session `j` waits in the group of session `i` and a drain would pick it first. */
  predicate Before(s: seq<Session>, j: nat, i: nat)
    requires i < |s| && j < |s|
  {
    && QueuedIn(s[i].group)(s[j])
    && (s[j].created < s[i].created || (s[j].created == s[i].created && j < i))
  }

  function AheadAmong(s: seq<Session>, i: nat, n: nat): nat
    requires i < |s| && n <= |s|
  {
    if n == 0 then 0 else AheadAmong(s, i, n - 1) + if Before(s, n - 1, i) then 1 else 0
  }

  /** How many sessions the queue serves before session `i`. */
  function Ahead(s: seq<Session>, i: nat): nat
    requires i < |s|
  {
    AheadAmong(s, i, |s|)
  }

  /** The command frees a slot in the group: it stops a session and leaves the group below its cap. */
  predicate FreesSlot(s: seq<Session>, cap: Cap, c: Command, group: string) {
    c.Stop? && c.killed &&
    var j := Position(s, c.id);
    j < |s| && s[j].live && s[j].group == group && !ShouldQueue(Killed(s, j), group, cap(group))
  }

  /** The command queues a session that overtakes session `i`: a launch with an earlier creation time,
      or a start of an older session that was not waiting. */
  predicate Overtakes(s: seq<Session>, cap: Cap, c: Command, i: nat)
    requires i < |s|
  {
    match c
    case Launch(_, group, created, _) =>
      group == s[i].group && created < s[i].created && ShouldQueue(s, group, cap(group))
    case Start(id, _) =>
      var j := Position(s, id);
      && j < |s| && !s[j].live && s[j].status != Queued
      && ShouldQueue(s, s[j].group, cap(s[j].group))
      && Before(s[j := s[j].(status := Queued)], j, i)
    case _ => false
  }

  // ---------- counting who is ahead ----------

  lemma {:induction false} AheadUpdate(s: seq<Session>, i: nat, j: nat, x: Session, n: nat)
    requires i < |s| && j < |s| && j != i && n <= |s|
    ensures AheadAmong(s[j := x], i, n) ==
            AheadAmong(s, i, n) - (if j < n && Before(s, j, i) then 1 else 0)
            + if j < n && Before(s[j := x], j, i) then 1 else 0
  {
    if n > 0 {
      AheadUpdate(s, i, j, x, n - 1);
    }
  }

  lemma {:induction false} AheadOfPrefix(s: seq<Session>, x: Session, i: nat, n: nat)
    requires i < |s| && n <= |s|
    ensures AheadAmong(s + [x], i, n) == AheadAmong(s, i, n)
  {
    if n > 0 {
      AheadOfPrefix(s, x, i, n - 1);
    }
  }

  function One(b: bool): nat { if b then 1 else 0 }

  lemma LaunchOrder(s: seq<Session>, cap: Cap, c: Command, i: nat)
    requires i < |s| && c.Launch?
    ensures var t := Step(s, cap, c);
            t[i] == s[i] && Ahead(t, i) == Ahead(s, i) + One(Overtakes(s, cap, c, i))
  {
    var t := Step(s, cap, c);
    assert t == s + [t[|s|]];
    AheadOfPrefix(s, t[|s|], i, |s|);
    TallyAppend(s, Session(c.id, c.group, Idle, c.created, false), RunningIn(c.group));
  }

  lemma StartOrder(s: seq<Session>, cap: Cap, c: Command, i: nat)
    requires i < |s| && c.Start? && s[i].status == Queued && Step(s, cap, c)[i].status == Queued
    ensures var t := Step(s, cap, c);
            t[i] == s[i] && Ahead(t, i) <= Ahead(s, i) + One(Overtakes(s, cap, c, i))
  {
    var t, j := Step(s, cap, c), Position(s, c.id);
    if j < |s| && j != i {
      assert t == s[j := t[j]];
      AheadUpdate(s, i, j, t[j], |s|);
    } else {
      assert t == s;
    }
  }

  lemma StopOrder(s: seq<Session>, cap: Cap, c: Command, i: nat)
    requires i < |s| && c.Stop? && s[i].status == Queued && Step(s, cap, c)[i].status == Queued
    ensures var t := Step(s, cap, c);
            t[i] == s[i] && Ahead(t, i) + One(FreesSlot(s, cap, c, s[i].group)) <= Ahead(s, i)
  {
    var t, j := Step(s, cap, c), Position(s, c.id);
    if j < |s| && s[j].live && c.killed && j != i {
      var group := s[j].group;
      var mid := Killed(s, j);
      var k := NextQueued(mid, group);
      AheadUpdate(s, i, j, mid[j], |s|);
      if !ShouldQueue(mid, group, cap(group)) && k >= 0 {
        assert t == mid[k := t[k]] && k != i;
        AheadUpdate(mid, i, k, t[k], |s|);
      }
      if group == s[i].group && k >= 0 {
        assert QueuedIn(group)(mid[i]);
        assert k == i || Before(mid, k, i);
      }
    }
  }

  lemma RefreshOrder(s: seq<Session>, cap: Cap, c: Command, i: nat)
    requires i < |s| && c.Refresh? && s[i].status == Queued && Step(s, cap, c)[i].status == Queued
    ensures var t := Step(s, cap, c); t[i] == s[i] && Ahead(t, i) <= Ahead(s, i)
  {
    var t, j := Step(s, cap, c), Position(s, c.id);
    if j < |s| {
      assert t[j].status != Queued;
      AheadUpdate(s, i, j, t[j], |s|);
    }
  }

  /** One command while session `i` keeps waiting: each freed slot takes one of those ahead of it. */
  lemma OrderStep(s: seq<Session>, cap: Cap, c: Command, i: nat)
    requires i < |s| && s[i].status == Queued && Step(s, cap, c)[i].status == Queued
    ensures var t := Step(s, cap, c);
            && t[i] == s[i]
            && Ahead(t, i) + One(FreesSlot(s, cap, c, s[i].group)) <= Ahead(s, i) + One(Overtakes(s, cap, c, i))
  {
    match c
    case Launch(_, _, _, _) => LaunchOrder(s, cap, c, i);
    case Start(_, _) => StartOrder(s, cap, c, i);
    case Stop(_, _, _) => StopOrder(s, cap, c, i);
    case Refresh(_, _, _) => RefreshOrder(s, cap, c, i);
  }

  // ---------- whole runs ----------

  lemma {:induction false} NeverShrinks(s: seq<Session>, cap: Cap, cs: seq<Command>)
    ensures |RunCommands(s, cap, cs)| >= |s|
  {
    if cs != [] {
      NeverShrinks(s, cap, cs[..|cs| - 1]);
    }
  }

  function After(s: seq<Session>, cap: Cap, cs: seq<Command>): (t: seq<Session>)
    ensures |t| >= |s|
  {
    NeverShrinks(s, cap, cs);
    RunCommands(s, cap, cs)
  }

  function SlotsFreed(s: seq<Session>, cap: Cap, cs: seq<Command>, group: string): nat {
    if cs == [] then 0
    else
      var m := |cs| - 1;
      SlotsFreed(s, cap, cs[..m], group) + One(FreesSlot(After(s, cap, cs[..m]), cap, cs[m], group))
  }

  function Overtakings(s: seq<Session>, cap: Cap, cs: seq<Command>, i: nat): nat
    requires i < |s|
  {
    if cs == [] then 0
    else
      var m := |cs| - 1;
      Overtakings(s, cap, cs[..m], i) + One(Overtakes(After(s, cap, cs[..m]), cap, cs[m], i))
  }

  /** Session `i` waits at the start and after every command. */
  predicate KeepsWaiting(s: seq<Session>, cap: Cap, cs: seq<Command>, i: nat)
    requires i < |s|
  {
    After(s, cap, cs)[i].status == Queued && (cs != [] ==> KeepsWaiting(s, cap, cs[..|cs| - 1], i))
  }

  /** The order of the queue over every run, drains that fail included: as long as session `i` waits, the
      slots freed in its group are at most the sessions that were ahead of it and those that overtook it
      since, less those still ahead. */
  lemma {:induction false} WaitIsBounded(s: seq<Session>, cap: Cap, cs: seq<Command>, i: nat)
    requires i < |s| && KeepsWaiting(s, cap, cs, i)
    ensures After(s, cap, cs)[i] == s[i]
    ensures SlotsFreed(s, cap, cs, s[i].group) + Ahead(After(s, cap, cs), i)
            <= Ahead(s, i) + Overtakings(s, cap, cs, i)
  {
    if cs != [] {
      var m := |cs| - 1;
      WaitIsBounded(s, cap, cs[..m], i);
      assert KeepsWaiting(s, cap, cs[..m], i);
      OrderStep(After(s, cap, cs[..m]), cap, cs[m], i);
    }
  }

  predicate LaunchedFromQueue(x: Session) {
    x.live && x.status == Starting
  }

  lemma StopTakes(s: seq<Session>, cap: Cap, c: Command, i: nat)
    requires i < |s| && Sound(s) && s[i].status == Queued && c.Stop?
    ensures var x := Step(s, cap, c)[i];
            x.status == Queued || LaunchedFromQueue(x) || (x.status == Error && !c.drainStarts)
  {
    assert s[i] in s;
    var j := Position(s, c.id);
    if j < |s| && s[j].live && c.killed {
      assert i != j && Killed(s, j)[i] == s[i];
    }
  }

  /** How a session leaves the queue: it is started, its drain failed, or a status refresh saw that it
      has no tmux session. */
  lemma LeavesQueue(s: seq<Session>, cap: Cap, c: Command, i: nat)
    requires i < |s| && Sound(s) && s[i].status == Queued
    ensures var x := Step(s, cap, c)[i];
            || x.status == Queued
            || LaunchedFromQueue(x)
            || (c.Stop? && x.status == Error && !c.drainStarts)
            || (c.Refresh? && x.status == (if c.young then Starting else Error) && !x.live && c.id == s[i].id)
  {
    assert s[i] in s;
    match c
    case Launch(_, _, _, _) =>
    case Start(_, _) =>
    case Stop(_, _, _) => StopTakes(s, cap, c, i);
    case Refresh(_, _, _) =>
  }

  /** Session `i` is started at some point of the run. */
  predicate Starts(s: seq<Session>, cap: Cap, cs: seq<Command>, i: nat)
    requires i < |s|
  {
    LaunchedFromQueue(After(s, cap, cs)[i]) || (cs != [] && Starts(s, cap, cs[..|cs| - 1], i))
  }

  lemma {:induction false} WaitsOrStarts(s: seq<Session>, cap: Cap, cs: seq<Command>, i: nat)
    requires i < |s| && Sound(s) && s[i].status == Queued
    requires forall c :: c in cs ==> (c.Stop? ==> c.drainStarts) && (c.Refresh? ==> c.id != s[i].id)
    ensures Sound(After(s, cap, cs))
    ensures KeepsWaiting(s, cap, cs, i) || Starts(s, cap, cs, i)
  {
    if cs != [] {
      var m := |cs| - 1;
      WaitsOrStarts(s, cap, cs[..m], i);
      var mid := After(s, cap, cs[..m]);
      StepSound(mid, cap, cs[m]);
      if KeepsWaiting(s, cap, cs[..m], i) {
        WaitIsBounded(s, cap, cs[..m], i);
        LeavesQueue(mid, cap, cs[m], i);
      }
    }
  }

  /** First come, first served: with k sessions ahead of it, nothing overtaking it, drains that start and
      no refresh of it, a queued session has been started once k + 1 slots of its group were freed. */
  lemma StartedAfterItsTurn(s: seq<Session>, cap: Cap, cs: seq<Command>, i: nat)
    requires i < |s| && Sound(s) && s[i].status == Queued
    requires forall c :: c in cs ==> (c.Stop? ==> c.drainStarts) && (c.Refresh? ==> c.id != s[i].id)
    requires Overtakings(s, cap, cs, i) == 0 && SlotsFreed(s, cap, cs, s[i].group) > Ahead(s, i)
    ensures Starts(s, cap, cs, i)
  {
    WaitsOrStarts(s, cap, cs, i);
    if KeepsWaiting(s, cap, cs, i) {
      WaitIsBounded(s, cap, cs, i);
    }
  }

  /** Stopping a session that the cap counts frees a slot whenever the group was within its cap. */
  lemma StopFreesSlot(s: seq<Session>, cap: Cap, id: Id, drainStarts: bool)
    requires var i := Position(s, id); i < |s| && s[i].live && s[i].status == Running && WithinCount(s, cap, s[i].group)
    ensures FreesSlot(s, cap, Stop(id, true, drainStarts), s[Position(s, id)].group)
  {
    var j := Position(s, id);
    TallyUpdate(s, j, Killed(s, j)[j], RunningIn(s[j].group));
  }

  /** The recorded count is within the cap, if there is one. */
  predicate WithinCount(s: seq<Session>, cap: Cap, group: string) {
    cap(group) <= 0 || Counted(s, group) <= cap(group)
  }

  /** A status refresh takes a waiting session out of the queue without starting it: it is recorded as
      starting while it is young and as an error later. */
  lemma RefreshLosesQueued(s: seq<Session>, cap: Cap, i: nat, observed: SessionStatus, young: bool)
    requires Sound(s) && i < |s| && Position(s, s[i].id) == i && s[i].status == Queued
    ensures var t := Step(s, cap, Refresh(s[i].id, observed, young));
            && t[i].status == (if young then Starting else Error) && !t[i].live
            && Waiting(t, s[i].group) == Waiting(s, s[i].group) - 1
  {
    assert s[i] in s;
    TallyUpdate(s, i, Refreshed(s[i], observed, young), QueuedIn(s[i].group));
  }
}
