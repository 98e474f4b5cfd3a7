/** What the group cap guarantees over every sequence of commands, and what it does not. */
module CapProofs {
  import opened SessionTypes
  import opened GroupQueue

  function Live(s: seq<Session>, group: string): nat { Tally(s, LiveIn(group)) }

  function Counted(s: seq<Session>, group: string): nat { Tally(s, RunningIn(group)) }

  function Waiting(s: seq<Session>, group: string): nat { Tally(s, QueuedIn(group)) }

  /** A session recorded as running has its tmux session, and a queued one has none. */
  predicate Sound(s: seq<Session>) {
    forall x :: x in s ==> (x.status == Running ==> x.live) && (x.status == Queued ==> !x.live)
  }

  lemma DrainedSound(s: seq<Session>, group: string, max: int, starts: bool)
    requires Sound(s)
    ensures Sound(Drained(s, group, max, starts))
  {
    var k := NextQueued(s, group);
    if k >= 0 {
      UpdateSound(s, k, if starts then s[k].(status := Starting, live := true) else s[k].(status := Error));
    }
  }

  lemma UpdateSound(s: seq<Session>, i: nat, x: Session)
    requires i < |s| && Sound(s) && Sound([x])
    ensures Sound(s[i := x])
  {
    assert x in [x];
    forall y | y in s[i := x]
      ensures y in s || y == x
    {
    }
  }

  lemma StopSound(s: seq<Session>, cap: Cap, c: Command)
    requires Sound(s) && c.Stop?
    ensures Sound(Step(s, cap, c))
  {
    var i := Position(s, c.id);
    if i < |s| {
      UpdateSound(s, i, s[i].(status := Stopped, live := false));
      DrainedSound(Killed(s, i), s[i].group, cap(s[i].group), c.drainStarts);
    }
  }

  lemma StartSound(s: seq<Session>, cap: Cap, c: Command)
    requires Sound(s) && c.Start?
    ensures Sound(Step(s, cap, c))
  {
    var t, i := Step(s, cap, c), Position(s, c.id);
    if i < |s| && !s[i].live && t != s {
      UpdateSound(s, i, t[i]);
      assert t == s[i := t[i]];
    }
  }

  lemma StepSound(s: seq<Session>, cap: Cap, c: Command)
    requires Sound(s)
    ensures Sound(Step(s, cap, c))
  {
    match c
    case Launch(_, _, _, _) =>
    case Start(_, _) => StartSound(s, cap, c);
    case Stop(_, _, _) => StopSound(s, cap, c);
    case Refresh(id, observed, young) =>
      var i := Position(s, id);
      if i < |s| {
        assert s[i] in s;
        UpdateSound(s, i, Refreshed(s[i], observed, young));
      }
  }

  /** The group a command is about; none when the session is unknown. */
  function GroupsOf(s: seq<Session>, c: Command): set<string> {
    if c.Launch? then {c.group} else if Position(s, c.id) < |s| then {s[Position(s, c.id)].group} else {}
  }

  /** A command leaves the sessions of every other group alone. */
  lemma OtherGroupsUntouched(s: seq<Session>, cap: Cap, c: Command, i: nat)
    requires i < |s| && s[i].group !in GroupsOf(s, c)
    ensures Step(s, cap, c)[i] == s[i]
  {
  }

  predicate SameSession(x: Session, y: Session) {
    x.id == y.id && x.group == y.group && x.created == y.created
  }

  predicate Names(s: seq<Session>, c: Command, i: nat) {
    i < |s| && !c.Launch? && i == Position(s, c.id)
  }

  /** The session a stop picks from the queue of its group. */
  predicate Drains(s: seq<Session>, c: Command, i: nat) {
    && c.Stop? && Position(s, c.id) < |s| && i < |s| && s[i].status == Queued
    && i == NextQueued(Killed(s, Position(s, c.id)), s[Position(s, c.id)].group)
  }

  lemma StopChangesTwo(s: seq<Session>, cap: Cap, c: Command, i: nat)
    requires i < |s| && c.Stop?
    ensures var t := Step(s, cap, c);
            |t| == |s| && SameSession(t[i], s[i]) && (t[i] != s[i] ==> Names(s, c, i) || Drains(s, c, i))
  {
    var j := Position(s, c.id);
    if j < |s| && s[j].live && c.killed {
      var mid, k := Killed(s, j), NextQueued(Killed(s, j), s[j].group);
      assert k >= 0 ==> QueuedIn(s[j].group)(mid[k]);
      assert SameSession(mid[i], s[i]) && (i != j ==> mid[i] == s[i]);
    }
  }

  lemma StartChangesOne(s: seq<Session>, cap: Cap, c: Command, i: nat)
    requires i < |s| && c.Start?
    ensures var t := Step(s, cap, c);
            |t| == |s| && SameSession(t[i], s[i]) && (t[i] != s[i] ==> Names(s, c, i))
  {
  }

  /** In its own group it changes at most two: the session it names, and the one a stop drains, which was
      waiting there. No session is lost, and none changes its id, group or creation time. */
  lemma OnlyNamedAndDrainedChange(s: seq<Session>, cap: Cap, c: Command, i: nat)
    requires i < |s|
    ensures var t := Step(s, cap, c);
            i < |t| && SameSession(t[i], s[i]) && (t[i] != s[i] ==> Names(s, c, i) || Drains(s, c, i))
  {
    match c
    case Launch(_, _, _, _) =>
    case Start(_, _) => StartChangesOne(s, cap, c, i);
    case Stop(_, _, _) => StopChangesTwo(s, cap, c, i);
    case Refresh(_, _, _) =>
  }

  // ---------- the cap itself ----------

  ghost predicate WithinCap(s: seq<Session>, cap: Cap) {
    forall group :: cap(group) > 0 ==> Live(s, group) <= cap(group)
  }

  /** The count the cap looks at shows room that is not there. */
  predicate SeesRoomWronglyIn(s: seq<Session>, cap: Cap, group: string) {
    cap(group) > 0 && Counted(s, group) < cap(group) <= Live(s, group)
  }

  /** The command starts a session because the recorded statuses lag behind. */
  predicate OverAdmits(s: seq<Session>, cap: Cap, c: Command) {
    match c
    case Launch(_, group, _, starts) => starts && SeesRoomWronglyIn(s, cap, group)
    case Start(id, starts) =>
      var i := Position(s, id);
      i < |s| && !s[i].live && starts && SeesRoomWronglyIn(s, cap, s[i].group)
    case _ => false
  }

  /** How many sessions of a group a command adds to the live ones. */
  lemma LiveAfterUpdate(s: seq<Session>, i: nat, x: Session, group: string)
    requires i < |s| && x.group == s[i].group
    ensures Live(s[i := x], group) ==
            Live(s, group) - (if s[i].live && x.group == group then 1 else 0) + if x.live && x.group == group then 1 else 0
  {
    TallyUpdate(s, i, x, LiveIn(group));
  }

  /** One session more in one group keeps the cap exactly when that group had room. */
  lemma AdmissionKeepsCap(s: seq<Session>, t: seq<Session>, cap: Cap, g: string)
    requires WithinCap(s, cap)
    requires forall group :: Live(t, group) == Live(s, group) + if group == g then 1 else 0
    ensures WithinCap(t, cap) <==> !(0 < cap(g) <= Live(s, g))
  {
    assert Live(t, g) == Live(s, g) + 1;
  }

  lemma NoAdmissionKeepsCap(s: seq<Session>, t: seq<Session>, cap: Cap)
    requires WithinCap(s, cap)
    requires forall group :: Live(t, group) == Live(s, group)
    ensures WithinCap(t, cap)
  {
    forall group | cap(group) > 0
      ensures Live(t, group) <= cap(group)
    {
      assert Live(t, group) == Live(s, group);
    }
  }

  lemma LaunchKeepsCap(s: seq<Session>, cap: Cap, c: Command)
    requires WithinCap(s, cap) && c.Launch?
    ensures WithinCap(Step(s, cap, c), cap) <==> !OverAdmits(s, cap, c)
  {
    var t := Step(s, cap, c);
    assert t == s + [t[|s|]];
    TallyAppend(s, Session(c.id, c.group, Idle, c.created, false), RunningIn(c.group));
    var admitted := c.starts && !ShouldQueue(s, c.group, cap(c.group));
    assert t[|s|].group == c.group && t[|s|].live == admitted;
    forall group
      ensures Live(t, group) == Live(s, group) + if group == c.group && admitted then 1 else 0
    {
      TallyAppend(s, t[|s|], LiveIn(group));
    }
    if admitted {
      AdmissionKeepsCap(s, t, cap, c.group);
    } else {
      NoAdmissionKeepsCap(s, t, cap);
    }
  }

  lemma StartKeepsCap(s: seq<Session>, cap: Cap, c: Command)
    requires WithinCap(s, cap) && c.Start?
    ensures WithinCap(Step(s, cap, c), cap) <==> !OverAdmits(s, cap, c)
  {
    var t, i := Step(s, cap, c), Position(s, c.id);
    if i < |s| && !s[i].live {
      var admitted := c.starts && !ShouldQueue(s, s[i].group, cap(s[i].group));
      assert t == s[i := t[i]] && t[i].group == s[i].group && t[i].live == admitted;
      forall group
        ensures Live(t, group) == Live(s, group) + if group == s[i].group && admitted then 1 else 0
      {
        LiveAfterUpdate(s, i, t[i], group);
      }
      if admitted {
        AdmissionKeepsCap(s, t, cap, s[i].group);
      } else {
        NoAdmissionKeepsCap(s, t, cap);
      }
    }
  }

  lemma StopKeepsCap(s: seq<Session>, cap: Cap, c: Command)
    requires WithinCap(s, cap) && c.Stop?
    ensures WithinCap(Step(s, cap, c), cap)
  {
    var i := Position(s, c.id);
    if i < |s| && s[i].live && c.killed {
      var group := s[i].group;
      var mid := Killed(s, i);
      var t := Drained(mid, group, cap(group), c.drainStarts);
      var k := NextQueued(mid, group);
      forall g
        ensures Live(t, g) <= Live(s, g)
      {
        LiveAfterUpdate(s, i, mid[i], g);
        if k >= 0 {
          LiveAfterUpdate(mid, k, t[k], g);
          assert t == mid[k := t[k]];
        }
      }
    }
  }

  lemma RefreshKeepsCap(s: seq<Session>, cap: Cap, c: Command)
    requires WithinCap(s, cap) && c.Refresh?
    ensures WithinCap(Step(s, cap, c), cap)
  {
    var i := Position(s, c.id);
    if i < |s| {
      forall group
        ensures Live(Step(s, cap, c), group) == Live(s, group)
      {
        LiveAfterUpdate(s, i, Refreshed(s[i], c.observed, c.young), group);
      }
    }
  }

  lemma CapStep(s: seq<Session>, cap: Cap, c: Command)
    requires WithinCap(s, cap)
    ensures WithinCap(Step(s, cap, c), cap) <==> !OverAdmits(s, cap, c)
  {
    match c
    case Launch(_, _, _, _) => LaunchKeepsCap(s, cap, c);
    case Start(_, _) => StartKeepsCap(s, cap, c);
    case Stop(_, _, _) => StopKeepsCap(s, cap, c);
    case Refresh(_, _, _) => RefreshKeepsCap(s, cap, c);
  }

  lemma RunOneMore(s: seq<Session>, cap: Cap, cs: seq<Command>, n: nat)
    requires n < |cs|
    ensures RunCommands(s, cap, cs[..n + 1]) == Step(RunCommands(s, cap, cs[..n]), cap, cs[n])
  {
    assert cs[..n + 1][..n] == cs[..n];
  }

  ghost predicate CapKeptThroughout(s: seq<Session>, cap: Cap, cs: seq<Command>) {
    forall n :: 0 <= n <= |cs| ==> WithinCap(RunCommands(s, cap, cs[..n]), cap)
  }

  ghost predicate NeverOverAdmits(s: seq<Session>, cap: Cap, cs: seq<Command>) {
    forall n :: 0 <= n < |cs| ==> !OverAdmits(RunCommands(s, cap, cs[..n]), cap, cs[n])
  }

  lemma {:induction false} KeptUpTo(s: seq<Session>, cap: Cap, cs: seq<Command>, n: nat)
    requires WithinCap(s, cap) && NeverOverAdmits(s, cap, cs) && n <= |cs|
    ensures WithinCap(RunCommands(s, cap, cs[..n]), cap)
  {
    if n > 0 {
      KeptUpTo(s, cap, cs, n - 1);
      RunOneMore(s, cap, cs, n - 1);
      CapStep(RunCommands(s, cap, cs[..n - 1]), cap, cs[n - 1]);
    }
  }

  /** The promise of the cap, with its exact condition: over a sequence of commands the live sessions of
      every capped group stay within the cap throughout, if and only if no launch or start meets a group
      whose recorded count is below the cap while its live sessions already fill it. */
  lemma CapHoldsIff(s: seq<Session>, cap: Cap, cs: seq<Command>)
    requires WithinCap(s, cap)
    ensures CapKeptThroughout(s, cap, cs) <==> NeverOverAdmits(s, cap, cs)
  {
    if NeverOverAdmits(s, cap, cs) {
      forall n | 0 <= n <= |cs|
        ensures WithinCap(RunCommands(s, cap, cs[..n]), cap)
      {
        KeptUpTo(s, cap, cs, n);
      }
    }
    if CapKeptThroughout(s, cap, cs) {
      forall n | 0 <= n < |cs|
        ensures !OverAdmits(RunCommands(s, cap, cs[..n]), cap, cs[n])
      {
        RunOneMore(s, cap, cs, n);
        CapStep(RunCommands(s, cap, cs[..n]), cap, cs[n]);
      }
    }
  }

  /** With every live session of the group recorded as running, the count is right. */
  lemma CurrentStatusesSeeRightly(s: seq<Session>, cap: Cap, group: string)
    requires forall x :: x in s && x.group == group && x.live ==> x.status == Running
    ensures !SeesRoomWronglyIn(s, cap, group)
  {
    TallyLe(s, LiveIn(group), RunningIn(group));
  }

  lemma FirstLaunchStarts(cap: Cap, group: string, a: Id, t: int)
    requires cap(group) == 1
    ensures Step([], cap, Launch(a, group, t, true)) == [Session(a, group, Starting, t, true)]
  {
    TallyAppend([], Session(a, group, Idle, t, false), RunningIn(group));
  }

  /** A launch beside one live session is started unless that session is recorded as running. */
  lemma SecondLaunch(cap: Cap, x: Session, b: Id, t: int)
    requires cap(x.group) == 1 && x.live
    ensures Live(Step([x], cap, Launch(b, x.group, t, true)), x.group) == if x.status == Running then 1 else 2
  {
    var y := Session(b, x.group, Idle, t, false);
    var end := Step([x], cap, Launch(b, x.group, t, true));
    TallyAppend([], x, RunningIn(x.group));
    TallyAppend([x], y, RunningIn(x.group));
    TallyAppend([], x, LiveIn(x.group));
    TallyAppend([x], end[1], LiveIn(x.group));
  }

  lemma RunLast(s: seq<Session>, cap: Cap, cs: seq<Command>, c: Command)
    ensures RunCommands(s, cap, cs + [c]) == Step(RunCommands(s, cap, cs), cap, c)
  {
    assert (cs + [c])[..|cs|] == cs;
  }

  lemma RunOfThree(s: seq<Session>, cap: Cap, a: Command, b: Command, c: Command)
    ensures RunCommands(s, cap, [a, b]) == Step(Step(s, cap, a), cap, b)
    ensures RunCommands(s, cap, [a, b, c]) == Step(Step(Step(s, cap, a), cap, b), cap, c)
  {
    RunLast(s, cap, [], a);
    RunLast(s, cap, [a], b);
    RunLast(s, cap, [a, b], c);
    assert [] + [a] == [a] && [a] + [b] == [a, b] && [a, b] + [c] == [a, b, c];
  }

  /** Two launches in a row go over a cap of one: the first is still recorded as starting. */
  lemma BackToBackLaunchesExceedCap(cap: Cap, group: string, a: Id, b: Id, t: int)
    requires cap(group) == 1
    ensures Live(RunCommands([], cap, [Launch(a, group, t, true), Launch(b, group, t, true)]), group) == 2
  {
    var first, second := Launch(a, group, t, true), Launch(b, group, t, true);
    RunOfThree([], cap, first, second, second);
    FirstLaunchStarts(cap, group, a, t);
    SecondLaunch(cap, Session(a, group, Starting, t, true), b, t);
  }

  lemma RefreshOfOne(cap: Cap, x: Session, observed: SessionStatus, young: bool)
    ensures Step([x], cap, Refresh(x.id, observed, young)) == [Refreshed(x, observed, young)]
  {
    assert Position([x], x.id) == 0;
  }

  /** A refresh in between helps just when it sees the first one running: one that sees it waiting for
      input, or idle, leaves it uncounted. */
  lemma RefreshHelpsIffSeenRunning(cap: Cap, group: string, a: Id, b: Id, t: int, observed: SessionStatus, young: bool)
    requires cap(group) == 1
    ensures var cs := [Launch(a, group, t, true), Refresh(a, observed, young), Launch(b, group, t, true)];
            Live(RunCommands([], cap, cs), group) == if observed in {Running, Queued, Stopped} then 1 else 2
  {
    var first, second := Launch(a, group, t, true), Launch(b, group, t, true);
    RunOfThree([], cap, first, Refresh(a, observed, young), second);
    FirstLaunchStarts(cap, group, a, t);
    var x := Session(a, group, Starting, t, true);
    RefreshOfOne(cap, x, observed, young);
    SecondLaunch(cap, Refreshed(x, observed, young), b, t);
  }

  // ---------- the queue ----------

  /** Sessions wait only in groups whose cap is filled. */
  ghost predicate WaitsAtCap(s: seq<Session>, cap: Cap) {
    forall group :: Waiting(s, group) > 0 ==> cap(group) > 0 && Live(s, group) >= cap(group)
  }

  lemma CountedAreLive(s: seq<Session>, group: string)
    requires Sound(s)
    ensures Counted(s, group) <= Live(s, group)
  {
    TallyLe(s, RunningIn(group), LiveIn(group));
  }

  lemma LaunchWaits(s: seq<Session>, cap: Cap, c: Command)
    requires Sound(s) && WaitsAtCap(s, cap) && c.Launch?
    ensures WaitsAtCap(Step(s, cap, c), cap)
  {
    var t := Step(s, cap, c);
    assert t == s + [t[|s|]];
    TallyAppend(s, Session(c.id, c.group, Idle, c.created, false), RunningIn(c.group));
    CountedAreLive(s, c.group);
    forall group | Waiting(t, group) > 0
      ensures cap(group) > 0 && Live(t, group) >= cap(group)
    {
      TallyAppend(s, t[|s|], LiveIn(group));
      TallyAppend(s, t[|s|], QueuedIn(group));
    }
  }

  lemma UpdateWaits(s: seq<Session>, cap: Cap, i: nat, x: Session)
    requires i < |s| && x.group == s[i].group && WaitsAtCap(s, cap)
    requires s[i].live ==> x.live
    requires x.status == Queued ==>
               s[i].status == Queued || (cap(x.group) > 0 && Live(s, x.group) >= cap(x.group))
    ensures WaitsAtCap(s[i := x], cap)
  {
    forall group | Waiting(s[i := x], group) > 0
      ensures cap(group) > 0 && Live(s[i := x], group) >= cap(group)
    {
      LiveAfterUpdate(s, i, x, group);
      TallyUpdate(s, i, x, QueuedIn(group));
    }
  }

  lemma StartWaits(s: seq<Session>, cap: Cap, c: Command)
    requires Sound(s) && WaitsAtCap(s, cap) && c.Start?
    ensures WaitsAtCap(Step(s, cap, c), cap)
  {
    var i, t := Position(s, c.id), Step(s, cap, c);
    if i < |s| && !s[i].live {
      CountedAreLive(s, s[i].group);
      assert t == s[i := t[i]];
      UpdateWaits(s, cap, i, t[i]);
    }
  }

  lemma RefreshWaits(s: seq<Session>, cap: Cap, c: Command)
    requires WaitsAtCap(s, cap) && c.Refresh?
    ensures WaitsAtCap(Step(s, cap, c), cap)
  {
    var i := Position(s, c.id);
    if i < |s| {
      UpdateWaits(s, cap, i, Refreshed(s[i], c.observed, c.young));
    }
  }

  lemma StopWaits(s: seq<Session>, cap: Cap, c: Command)
    requires Sound(s) && WaitsAtCap(s, cap) && c.Stop? && c.drainStarts
    ensures WaitsAtCap(Step(s, cap, c), cap)
  {
    var i := Position(s, c.id);
    if i < |s| && s[i].live && c.killed {
      assert s[i] in s;
      var group := s[i].group;
      var mid := Killed(s, i);
      var t := Drained(mid, group, cap(group), true);
      var k := NextQueued(mid, group);
      UpdateSound(s, i, mid[i]);
      CountedAreLive(mid, group);
      TallyZero(mid, QueuedIn(group));
      forall g | Waiting(t, g) > 0
        ensures cap(g) > 0 && Live(t, g) >= cap(g)
      {
        LiveAfterUpdate(s, i, mid[i], g);
        TallyUpdate(s, i, mid[i], QueuedIn(g));
        if k >= 0 {
          LiveAfterUpdate(mid, k, mid[k].(status := Starting, live := true), g);
          TallyUpdate(mid, k, mid[k].(status := Starting, live := true), QueuedIn(g));
          assert mid[k] in mid;
        }
      }
    }
  }

  /** Every command keeps it, as long as the session a drain picks does start. */
  lemma WaitsStep(s: seq<Session>, cap: Cap, c: Command)
    requires Sound(s) && WaitsAtCap(s, cap) && (c.Stop? ==> c.drainStarts)
    ensures WaitsAtCap(Step(s, cap, c), cap)
  {
    match c
    case Launch(_, _, _, _) => LaunchWaits(s, cap, c);
    case Start(_, _) => StartWaits(s, cap, c);
    case Stop(_, _, _) => StopWaits(s, cap, c);
    case Refresh(_, _, _) => RefreshWaits(s, cap, c);
  }

  /** Over every sequence of commands in which drained sessions start, a session waits in a group only
      while the live sessions of that group fill its cap, whatever the recorded statuses say. */
  lemma {:induction false} QueueWaitsOnlyAtCap(s: seq<Session>, cap: Cap, cs: seq<Command>)
    requires Sound(s) && WaitsAtCap(s, cap)
    requires forall c :: c in cs && c.Stop? ==> c.drainStarts
    ensures Sound(RunCommands(s, cap, cs)) && WaitsAtCap(RunCommands(s, cap, cs), cap)
  {
    if cs != [] {
      var m := |cs| - 1;
      QueueWaitsOnlyAtCap(s, cap, cs[..m]);
      var mid := RunCommands(s, cap, cs[..m]);
      StepSound(mid, cap, cs[m]);
      WaitsStep(mid, cap, cs[m]);
    }
  }

  /** A drain that fails leaves the slot empty with sessions still waiting. */
  lemma FailedDrainLeavesSlotEmpty(cap: Cap, group: string, a: Id, b: Id, d: Id, t: int)
    requires cap(group) == 1 && a != b && a != d && b != d
    ensures var s := [Session(a, group, Running, t, true), Session(b, group, Queued, t, false),
                      Session(d, group, Queued, t, false)];
            var end := Step(s, cap, Stop(a, true, false));
            Sound(s) && end[2].status == Queued && forall x :: x in end ==> !x.live
  {
    var s := [Session(a, group, Running, t, true), Session(b, group, Queued, t, false),
              Session(d, group, Queued, t, false)];
    var mid := Killed(s, 0);
    assert Position(s, a) == 0;
    TallyZero(mid, RunningIn(group));
    assert QueuedIn(group)(mid[1]) && !QueuedIn(group)(mid[0]);
    assert NextQueued(mid, group) == 1;
  }
}
