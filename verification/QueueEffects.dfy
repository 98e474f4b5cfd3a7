/** What each command on the session table achieves. */
module QueueEffects {
  import opened SessionTypes
  import opened GroupQueue
  import opened CapProofs
  import opened QueueOrder

  /** The recorded count of the group has reached its cap. */
  predicate AtCap(s: seq<Session>, cap: Cap, group: string) {
    0 < cap(group) <= Counted(s, group)
  }

  /** Session `i` alone is different, in status and tmux session at most. */
  predicate OnlyDiffers(s: seq<Session>, t: seq<Session>, i: nat, status: SessionStatus, live: bool)
    requires i < |s|
  {
    && |t| == |s| && SameSession(t[i], s[i]) && t[i].status == status && t[i].live == live
    && forall j :: 0 <= j < |s| && j != i ==> t[j] == s[j]
  }

  lemma OneDiffers(s: seq<Session>, t: seq<Session>, i: nat, status: SessionStatus, live: bool)
    requires i < |s| && OnlyDiffers(s, t, i, status, live)
    ensures t == s[i := t[i]]
  {
  }

  /** A launch adds one session, as asked for: queued at the cap, otherwise live if its start succeeds, and idle if
      not. */
  lemma LaunchAdds(s: seq<Session>, cap: Cap, id: Id, group: string, created: int, starts: bool)
    ensures var t := Step(s, cap, Launch(id, group, created, starts));
            && |t| == |s| + 1 && t[..|s|] == s
            && t[|s|].id == id && t[|s|].group == group && t[|s|].created == created
            && (if AtCap(s, cap, group) then t[|s|].status == Queued && !t[|s|].live
                else if starts then t[|s|].status == Starting && t[|s|].live
                else t[|s|].status == Idle && !t[|s|].live)
  {
    var x := Session(id, group, Idle, created, false);
    TallyAppend(s, x, RunningIn(group));
    assert ShouldQueue(s + [x], group, cap(group)) == AtCap(s, cap, group);
  }

  /** A start of a session that is not live: at the cap it is queued, below it live if the start succeeds. Nothing
      else changes, and a failed start changes nothing. */
  lemma StartAchieves(s: seq<Session>, cap: Cap, id: Id, starts: bool)
    requires Position(s, id) < |s| && !s[Position(s, id)].live
    ensures var i, t := Position(s, id), Step(s, cap, Start(id, starts));
            if AtCap(s, cap, s[i].group) then OnlyDiffers(s, t, i, Queued, false)
            else if starts then OnlyDiffers(s, t, i, Starting, true)
            else t == s
  {
  }

  /** And so for the queue and the live sessions of the group. */
  lemma StartCounts(s: seq<Session>, cap: Cap, id: Id, starts: bool)
    requires Position(s, id) < |s| && !s[Position(s, id)].live
    ensures var i, t := Position(s, id), Step(s, cap, Start(id, starts));
            var g, was := s[i].group, if s[i].status == Queued then 1 else 0;
            if AtCap(s, cap, g) then Waiting(t, g) == Waiting(s, g) + 1 - was && Live(t, g) == Live(s, g)
            else if starts then Waiting(t, g) == Waiting(s, g) - was && Live(t, g) == Live(s, g) + 1
            else Waiting(t, g) == Waiting(s, g) && Live(t, g) == Live(s, g)
  {
    var i, t := Position(s, id), Step(s, cap, Start(id, starts));
    StartAchieves(s, cap, id, starts);
    if t != s {
      OneDiffers(s, t, i, t[i].status, t[i].live);
      TallyUpdate(s, i, t[i], QueuedIn(s[i].group));
      TallyUpdate(s, i, t[i], LiveIn(s[i].group));
    }
  }

  /** A start of a live or unknown session changes nothing. */
  lemma StartRefused(s: seq<Session>, cap: Cap, id: Id, starts: bool)
    requires Position(s, id) == |s| || s[Position(s, id)].live
    ensures Step(s, cap, Start(id, starts)) == s
  {
  }

  /** A drain below the cap: the oldest queued session leaves the queue, live or as an error. */
  lemma DrainTakesOne(s: seq<Session>, group: string, max: int, starts: bool)
    requires !(0 < max <= Counted(s, group)) && Waiting(s, group) > 0
    ensures var k, t := NextQueued(s, group), Drained(s, group, max, starts);
            && k >= 0 && OnlyDiffers(s, t, k, if starts then Starting else Error, if starts then true else s[k].live)
            && Waiting(t, group) == Waiting(s, group) - 1
  {
    TallyZero(s, QueuedIn(group));
    var k, t := NextQueued(s, group), Drained(s, group, max, starts);
    assert k >= 0 by {
      var x :| x in s && QueuedIn(group)(x);
      var j :| 0 <= j < |s| && s[j] == x;
      assert QueuedIn(group)(s[j]);
    }
    TallyUpdate(s, k, t[k], QueuedIn(group));
  }

  /** Without anybody waiting, or at the cap, a drain changes nothing. */
  lemma DrainTakesNone(s: seq<Session>, group: string, max: int, starts: bool)
    requires 0 < max <= Counted(s, group) || Waiting(s, group) == 0
    ensures Drained(s, group, max, starts) == s
  {
    TallyZero(s, QueuedIn(group));
    var k := NextQueued(s, group);
    assert k >= 0 ==> s[k] in s;
  }

  /** A stop that kills a live session leaves it stopped, and then drains its group. */
  lemma StopAchieves(s: seq<Session>, cap: Cap, id: Id, drainStarts: bool)
    requires Position(s, id) < |s| && s[Position(s, id)].live
    ensures var i, t := Position(s, id), Step(s, cap, Stop(id, true, drainStarts));
            && |t| == |s| && SameSession(t[i], s[i]) && t[i].status == Stopped && !t[i].live
            && Step(s, cap, Stop(id, false, drainStarts)) == s
  {
    var i := Position(s, id);
    var mid := StoppedAt(s, i);
    StopDrains(s, cap, id, drainStarts);
    var k := NextQueued(mid, s[i].group);
    assert k >= 0 ==> QueuedIn(s[i].group)(mid[k]);
  }

  /** The slot of a stopped session goes to the oldest waiting one of its group, when the group was within its cap. */
  lemma StopStartsNext(s: seq<Session>, cap: Cap, id: Id, drainStarts: bool)
    requires Sound(s) && Position(s, id) < |s|
    requires var x := s[Position(s, id)]; x.live && x.status == Running && WithinCount(s, cap, x.group) && Waiting(s, x.group) > 0
    ensures var i := Position(s, id);
            var k, t := NextQueued(s, s[i].group), Step(s, cap, Stop(id, true, drainStarts));
            && k >= 0 && t[k].status == (if drainStarts then Starting else Error) && t[k].live == drainStarts
            && Waiting(t, s[i].group) == Waiting(s, s[i].group) - 1
  {
    var i := Position(s, id);
    var g, mid := s[i].group, StoppedAt(s, i);
    StopDrains(s, cap, id, drainStarts);
    StoppedCounts(s, i, g);
    DrainTakesOne(mid, g, cap(g), drainStarts);
    SameNext(s, i, g);
    NextIsWaiting(s, i, g);
  }

  function StoppedAt(s: seq<Session>, i: nat): seq<Session>
    requires i < |s|
  {
    s[i := s[i].(status := Stopped, live := false)]
  }

  lemma StopDrains(s: seq<Session>, cap: Cap, id: Id, drainStarts: bool)
    requires Position(s, id) < |s| && s[Position(s, id)].live
    ensures var i := Position(s, id);
            Step(s, cap, Stop(id, true, drainStarts)) == Drained(StoppedAt(s, i), s[i].group, cap(s[i].group), drainStarts)
  {
  }

  lemma StoppedCounts(s: seq<Session>, i: nat, group: string)
    requires i < |s| && s[i].status == Running && s[i].group == group
    ensures Waiting(StoppedAt(s, i), group) == Waiting(s, group) && Counted(StoppedAt(s, i), group) == Counted(s, group) - 1
  {
    TallyUpdate(s, i, StoppedAt(s, i)[i], QueuedIn(group));
    TallyUpdate(s, i, StoppedAt(s, i)[i], RunningIn(group));
  }

  lemma NextIsWaiting(s: seq<Session>, i: nat, group: string)
    requires Sound(s) && i < |s| && NextQueued(StoppedAt(s, i), group) >= 0
    ensures !StoppedAt(s, i)[NextQueued(StoppedAt(s, i), group)].live
  {
    var k := NextQueued(StoppedAt(s, i), group);
    assert QueuedIn(group)(StoppedAt(s, i)[k]);
    assert s[k] in s;
  }

  /** Stopping a session does not change who is next. */
  lemma SameNext(s: seq<Session>, i: nat, group: string)
    requires i < |s| && s[i].status == Running
    ensures NextQueued(StoppedAt(s, i), group) == NextQueued(s, group)
  {
    var mid := StoppedAt(s, i);
    var a, b := NextQueued(s, group), NextQueued(mid, group);
    assert forall j :: 0 <= j < |s| ==> (QueuedIn(group)(mid[j]) <==> QueuedIn(group)(s[j])) && mid[j].created == s[j].created;
    assert a >= 0 ==> QueuedIn(group)(mid[a]);
    assert b >= 0 ==> QueuedIn(group)(s[b]);
  }

  /** What a refresh records. */
  lemma RefreshRecords(s: seq<Session>, cap: Cap, id: Id, observed: SessionStatus, young: bool)
    requires Position(s, id) < |s|
    ensures var i, t := Position(s, id), Step(s, cap, Refresh(id, observed, young));
            var x := s[i];
            OnlyDiffers(s, t, i,
                        if x.live then (if observed == Queued || observed == Stopped then Running else observed)
                        else if young then (if x.status == Running || x.status == Idle then x.status else Starting)
                        else if x.status == Stopped then Stopped else Error,
                        x.live)
  {
  }

  lemma StartIsUpdate(s: seq<Session>, cap: Cap, id: Id, starts: bool)
    requires Position(s, id) < |s| && !s[Position(s, id)].live
    ensures var j, t := Position(s, id), Step(s, cap, Start(id, starts));
            && t == s[j := t[j]] && t[j].group == s[j].group && t[j].created == s[j].created
            && t[j].status == (if AtCap(s, cap, s[j].group) then Queued else if starts then Starting else s[j].status)
  {
    StartAchieves(s, cap, id, starts);
  }

  /** The place of a waiting session changes with a start exactly so: it is overtaken, or one ahead of it is started. */
  lemma StartOrderExactly(s: seq<Session>, cap: Cap, id: Id, starts: bool, i: nat)
    requires i < |s| && s[i].status == Queued && Step(s, cap, Start(id, starts))[i].status == Queued
    ensures var t, j := Step(s, cap, Start(id, starts)), Position(s, id);
            var leaves := j < |s| && j != i && !s[j].live && starts && !AtCap(s, cap, s[j].group) && Before(s, j, i);
            Ahead(t, i) == Ahead(s, i) + One(Overtakes(s, cap, Start(id, starts), i)) - One(leaves)
  {
    var t, j := Step(s, cap, Start(id, starts)), Position(s, id);
    if j < |s| && j != i && !s[j].live {
      StartIsUpdate(s, cap, id, starts);
      AheadUpdate(s, i, j, t[j], |s|);
    } else {
      assert t == s;
    }
  }
}
