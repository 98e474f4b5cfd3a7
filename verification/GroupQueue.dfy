/** The group concurrency cap: launches and starts over the cap are queued, and a stop starts the
    oldest queued session of its group.

    The cap counts the sessions whose recorded status is "running". A live session recorded as anything
    else is not counted: "starting" until a status refresh looks at it, and "waiting" or "idle" when
    the refresh saw the agent so. The recorded count can therefore stay below the number of live
    sessions. The model keeps both. */
module GroupQueue {
  import opened SessionTypes

  /** `live` says whether the tmux session exists; `status` is what the registry records. */
  datatype Session = Session(id: Id, group: string, status: SessionStatus, created: int, live: bool)

  type Cap = string -> int

  datatype Command =
    | Launch(id: Id, group: string, created: int, starts: bool)
    | Start(id: Id, starts: bool)
    | Stop(id: Id, killed: bool, drainStarts: bool)
    | Refresh(id: Id, observed: SessionStatus, young: bool)

  // ---------- counting ----------

  function Tally(s: seq<Session>, p: Session -> bool): nat {
    if s == [] then 0 else Tally(s[..|s| - 1], p) + if p(s[|s| - 1]) then 1 else 0
  }

  function RunningIn(group: string): Session -> bool {
    (x: Session) => x.group == group && x.status == Running
  }

  function LiveIn(group: string): Session -> bool {
    (x: Session) => x.group == group && x.live
  }

  function QueuedIn(group: string): Session -> bool {
    (x: Session) => x.group == group && x.status == Queued
  }

  lemma {:induction false} TallyUpdate(s: seq<Session>, i: nat, x: Session, p: Session -> bool)
    requires i < |s|
    ensures Tally(s[i := x], p) == Tally(s, p) - (if p(s[i]) then 1 else 0) + if p(x) then 1 else 0
  {
    var n := |s| - 1;
    if i < n {
      assert s[i := x][..n] == s[..n][i := x];
      TallyUpdate(s[..n], i, x, p);
    } else {
      assert s[i := x][..n] == s[..n];
    }
  }

  lemma TallyAppend(s: seq<Session>, x: Session, p: Session -> bool)
    ensures Tally(s + [x], p) == Tally(s, p) + if p(x) then 1 else 0
  {
    assert (s + [x])[..|s|] == s;
  }

  lemma {:induction false} TallyLe(s: seq<Session>, p: Session -> bool, q: Session -> bool)
    requires forall x :: x in s && p(x) ==> q(x)
    ensures Tally(s, p) <= Tally(s, q)
  {
    if s != [] {
      TallyLe(s[..|s| - 1], p, q);
    }
  }

  lemma {:induction false} TallyZero(s: seq<Session>, p: Session -> bool)
    ensures Tally(s, p) == 0 <==> forall x :: x in s ==> !p(x)
  {
    if s != [] {
      var n := |s| - 1;
      TallyZero(s[..n], p);
      assert s == s[..n] + [s[n]];
    }
  }

  predicate IsAtCap(running: nat, max: int) {
    max > 0 && running >= max
  }

  predicate ShouldQueue(s: seq<Session>, group: string, max: int) {
    IsAtCap(Tally(s, RunningIn(group)), max)
  }

  /** The queued session of the group created first; among equals the first listed. -1 when none. */
  function NextQueued(s: seq<Session>, group: string): (k: int)
    ensures -1 <= k < |s|
    ensures k >= 0 ==> QueuedIn(group)(s[k])
    ensures forall j :: 0 <= j < |s| && QueuedIn(group)(s[j]) ==>
                          k >= 0 && s[k].created <= s[j].created && (j < k ==> s[k].created < s[j].created)
  {
    if s == [] then -1
    else
      var n := |s| - 1;
      var k := NextQueued(s[..n], group);
      if QueuedIn(group)(s[n]) && (k < 0 || s[n].created < s[k].created) then n else k
  }

  /** The position of a session in the list; |s| when unknown. */
  function Position(s: seq<Session>, id: Id): (i: nat)
    ensures i <= |s| && (i < |s| ==> s[i].id == id)
    ensures forall j :: 0 <= j < i ==> s[j].id != id
  {
    if s == [] || s[0].id == id then 0 else 1 + Position(s[1..], id)
  }

  // ---------- the commands ----------

  /** The drain after a session of `group` was killed. */
  function Drained(s: seq<Session>, group: string, max: int, starts: bool): (t: seq<Session>)
    ensures |t| == |s|
  {
    var k := NextQueued(s, group);
    if ShouldQueue(s, group, max) || k < 0 then s
    else if starts then s[k := s[k].(status := Starting, live := true)]
    else s[k := s[k].(status := Error)]
  }

  function Killed(s: seq<Session>, i: nat): seq<Session>
    requires i < |s|
  {
    s[i := s[i].(status := Stopped, live := false)]
  }

  /** A refresh believes tmux: a live session shows what was observed. A session without one is starting
      while it is young, unless recorded as running or idle, and later an error unless it was stopped. */
  function Refreshed(x: Session, observed: SessionStatus, young: bool): Session {
    if x.live then
      if observed == Queued || observed == Stopped then x.(status := Running) else x.(status := observed)
    else if young then
      if x.status == Running || x.status == Idle then x else x.(status := Starting)
    else if x.status == Stopped then x
    else x.(status := Error)
  }

  function Step(s: seq<Session>, cap: Cap, c: Command): seq<Session> {
    match c
    case Launch(id, group, created, starts) =>
      var x := Session(id, group, Idle, created, false);
      if ShouldQueue(s + [x], group, cap(group)) then s + [x.(status := Queued)]
      else if starts then s + [x.(status := Starting, live := true)]
      else s + [x]
    case Start(id, starts) =>
      var i := Position(s, id);
      if i == |s| || s[i].live then s
      else if ShouldQueue(s, s[i].group, cap(s[i].group)) then s[i := s[i].(status := Queued)]
      else if starts then s[i := s[i].(status := Starting, live := true)]
      else s
    case Stop(id, killed, drainStarts) =>
      var i := Position(s, id);
      if i == |s| || !s[i].live || !killed then s
      else Drained(Killed(s, i), s[i].group, cap(s[i].group), drainStarts)
    case Refresh(id, observed, young) =>
      var i := Position(s, id);
      if i == |s| then s else s[i := Refreshed(s[i], observed, young)]
  }

  function RunCommands(s: seq<Session>, cap: Cap, cs: seq<Command>): seq<Session> {
    if cs == [] then s else Step(RunCommands(s, cap, cs[..|cs| - 1]), cap, cs[|cs| - 1])
  }

  // ---------- the commands as the program runs them ----------

  class SessionTable {
    var sessions: seq<Session>
    const cap: Cap

    constructor (cap: Cap)
      ensures this.cap == cap && sessions == []
    {
      this.cap := cap;
      sessions := [];
    }

    method CountRunningInGroup(group: string) returns (n: nat)
      ensures n == Tally(sessions, RunningIn(group))
    {
      n := 0;
      for i := 0 to |sessions|
        invariant n == Tally(sessions[..i], RunningIn(group))
      {
        assert sessions[..i + 1][..i] == sessions[..i];
        if sessions[i].group == group && sessions[i].status == Running {
          n := n + 1;
        }
      }
      assert sessions[..|sessions|] == sessions;
    }

    method FindNextQueued(group: string) returns (oldest: int)
      ensures oldest == NextQueued(sessions, group)
    {
      oldest := -1;
      for i := 0 to |sessions|
        invariant oldest == NextQueued(sessions[..i], group)
      {
        assert sessions[..i + 1][..i] == sessions[..i];
        if sessions[i].group != group || sessions[i].status != Queued {
          continue;
        }
        if oldest < 0 || sessions[i].created < sessions[oldest].created {
          oldest := i;
        }
      }
      assert sessions[..|sessions|] == sessions;
    }

    method Find(id: Id) returns (i: nat)
      ensures i == Position(sessions, id)
    {
      i := 0;
      while i < |sessions| && sessions[i].id != id
        invariant i <= |sessions| && i + Position(sessions[i..], id) == Position(sessions, id)
      {
        assert sessions[i..][1..] == sessions[i + 1..];
        i := i + 1;
      }
    }

    method HandleLaunch(id: Id, group: string, created: int, starts: bool) returns (queued: bool)
      modifies this`sessions
      ensures sessions == Step(old(sessions), cap, Launch(id, group, created, starts))
      ensures queued <==> sessions[|old(sessions)|].status == Queued
    {
      var added := |sessions|;
      sessions := sessions + [Session(id, group, Idle, created, false)];
      var running := CountRunningInGroup(group);
      if IsAtCap(running, cap(group)) {
        sessions := sessions[added := sessions[added].(status := Queued)];
        return true;
      }
      if starts {
        sessions := sessions[added := sessions[added].(status := Starting, live := true)];
      }
      return false;
    }

    method HandleSessionStart(id: Id, starts: bool) returns (ok: bool)
      modifies this`sessions
      ensures sessions == Step(old(sessions), cap, Start(id, starts))
      ensures var was, i := old(sessions), Position(old(sessions), id);
              ok <==> i < |was| && !was[i].live && (starts || ShouldQueue(was, was[i].group, cap(was[i].group)))
    {
      var i := Find(id);
      if i == |sessions| || sessions[i].live {
        return false;
      }
      var running := CountRunningInGroup(sessions[i].group);
      if IsAtCap(running, cap(sessions[i].group)) {
        sessions := sessions[i := sessions[i].(status := Queued)];
        return true;
      }
      if starts {
        sessions := sessions[i := sessions[i].(status := Starting, live := true)];
      }
      return starts;
    }

    method DrainGroupQueue(group: string, starts: bool)
      modifies this`sessions
      ensures sessions == Drained(old(sessions), group, cap(group), starts)
    {
      var running := CountRunningInGroup(group);
      if IsAtCap(running, cap(group)) {
        return;
      }
      var next := FindNextQueued(group);
      if next < 0 {
        return;
      }
      if starts {
        sessions := sessions[next := sessions[next].(status := Starting, live := true)];
      } else {
        sessions := sessions[next := sessions[next].(status := Error)];
      }
    }

    method HandleSessionStop(id: Id, killed: bool, drainStarts: bool) returns (ok: bool)
      modifies this`sessions
      ensures sessions == Step(old(sessions), cap, Stop(id, killed, drainStarts))
      ensures var was, i := old(sessions), Position(old(sessions), id);
              ok <==> i < |was| && was[i].live && killed
    {
      var i := Find(id);
      if i == |sessions| || !sessions[i].live || !killed {
        return false;
      }
      var group := sessions[i].group;
      sessions := sessions[i := sessions[i].(status := Stopped, live := false)];
      DrainGroupQueue(group, drainStarts);
      return true;
    }
  }
}
