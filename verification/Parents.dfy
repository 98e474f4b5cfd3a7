/** Parent links between sessions: `add` and `launch` may link the new session, `set-parent` and
    `unset-parent` change a link, `remove` leaves the links to the removed session dangling. The
    program promises a single level: a sub-session has no sub-sessions. */
module Parents {
  import opened SessionTypes

  /** `parent` is empty when the session is not a sub-session. */
  datatype Member = Member(id: Id, parent: Id)

  datatype Link = NoParent | Explicit(parent: Id) | Auto(candidates: seq<Id>)

  datatype Command =
    | Add(id: Id, link: Link)
    | SetParent(id: Id, parent: Id)
    | UnsetParent(id: Id)
    | Remove(id: Id)

  predicate IsSubSession(m: Member) {
    m.parent != ""
  }

  /** Where a session is in the list; |s| when unknown. */
  function Find(s: seq<Member>, id: Id): (i: nat)
    ensures i <= |s| && (i < |s| ==> s[i].id == id)
    ensures forall j :: 0 <= j < i ==> s[j].id != id
  {
    if s == [] || s[0].id == id then 0 else 1 + Find(s[1..], id)
  }

  predicate HasSubSessions(s: seq<Member>, id: Id) {
    exists i :: 0 <= i < |s| && s[i].parent == id
  }

  /** The first candidate that names a session decides; |s| when none does. */
  function AutoParent(s: seq<Member>, candidates: seq<Id>): (i: nat)
    ensures i <= |s|
  {
    if candidates == [] then |s|
    else if candidates[0] != "" && Find(s, candidates[0]) < |s| then Find(s, candidates[0])
    else AutoParent(s, candidates[1..])
  }

  function Without(s: seq<Member>, id: Id): seq<Member> {
    if s == [] then []
    else Without(s[..|s| - 1], id) + if s[|s| - 1].id != id then [s[|s| - 1]] else []
  }

  /** The checks of `set-parent`, in terms of the list. */
  predicate MayLink(s: seq<Member>, i: nat, p: nat)
    requires i < |s| && p < |s|
  {
    s[i].id != s[p].id && !IsSubSession(s[p]) && !HasSubSessions(s, s[i].id)
  }

  function Step(s: seq<Member>, c: Command): seq<Member> {
    match c
    case Add(id, NoParent) => s + [Member(id, "")]
    case Add(id, Explicit(parent)) =>
      var p := Find(s, parent);
      if p == |s| || IsSubSession(s[p]) then s else s + [Member(id, s[p].id)]
    case Add(id, Auto(candidates)) =>
      var p := AutoParent(s, candidates);
      s + [Member(id, if p == |s| || IsSubSession(s[p]) then "" else s[p].id)]
    case SetParent(id, parent) =>
      var i, p := Find(s, id), Find(s, parent);
      if i < |s| && p < |s| && MayLink(s, i, p) then s[i := s[i].(parent := s[p].id)] else s
    case UnsetParent(id) =>
      var i := Find(s, id);
      if i < |s| && IsSubSession(s[i]) then s[i := s[i].(parent := "")] else s
    case Remove(id) => if Find(s, id) < |s| then Without(s, id) else s
  }

  function Run(s: seq<Member>, cs: seq<Command>): seq<Member> {
    if cs == [] then s else Step(Run(s, cs[..|cs| - 1]), cs[|cs| - 1])
  }

  // ---------- the commands as the program runs them ----------

  class Registry {
    var sessions: seq<Member>

    constructor ()
      ensures sessions == []
    {
      sessions := [];
    }

    method Resolve(id: Id) returns (i: nat)
      ensures i == Find(sessions, id)
    {
      i := 0;
      while i < |sessions| && sessions[i].id != id
        invariant i <= |sessions| && i + Find(sessions[i..], id) == Find(sessions, id)
      {
        assert sessions[i..][1..] == sessions[i + 1..];
        i := i + 1;
      }
    }

    /** Candidates already tried are skipped, which changes nothing. */
    method ResolveAutoParent(candidates: seq<Id>) returns (p: nat)
      ensures p == AutoParent(sessions, candidates)
    {
      var seen: set<Id> := {};
      for k := 0 to |candidates|
        invariant AutoParent(sessions, candidates) == AutoParent(sessions, candidates[k..])
        invariant forall c :: c in seen ==> Find(sessions, c) == |sessions|
      {
        var candidate := candidates[k];
        assert candidates[k..][1..] == candidates[k + 1..];
        if candidate == "" || candidate in seen {
          continue;
        }
        seen := seen + {candidate};
        p := Resolve(candidate);
        if p < |sessions| {
          return;
        }
      }
      return |sessions|;
    }

    method HandleAdd(id: Id, link: Link) returns (ok: bool)
      modifies this`sessions
      ensures sessions == Step(old(sessions), Add(id, link))
      ensures ok <==> |sessions| == |old(sessions)| + 1
    {
      var parent := "";
      match link {
        case NoParent =>
        case Explicit(wanted) =>
          var p := Resolve(wanted);
          if p == |sessions| || IsSubSession(sessions[p]) {
            return false;
          }
          parent := sessions[p].id;
        case Auto(candidates) =>
          var p := ResolveAutoParent(candidates);
          if p < |sessions| && !IsSubSession(sessions[p]) {
            parent := sessions[p].id;
          }
      }
      sessions := sessions + [Member(id, parent)];
      return true;
    }

    method HandleSessionSetParent(id: Id, parent: Id) returns (ok: bool)
      modifies this`sessions
      ensures sessions == Step(old(sessions), SetParent(id, parent))
      ensures var was, i, p := old(sessions), Find(old(sessions), id), Find(old(sessions), parent);
              ok <==> i < |was| && p < |was| && MayLink(was, i, p)
    {
      var i := Resolve(id);
      var p := Resolve(parent);
      if i == |sessions| || p == |sessions| {
        return false;
      }
      if sessions[i].id == sessions[p].id || IsSubSession(sessions[p]) {
        return false;
      }
      for k := 0 to |sessions|
        invariant forall j :: 0 <= j < k ==> sessions[j].parent != sessions[i].id
      {
        if sessions[k].parent == sessions[i].id {
          assert HasSubSessions(sessions, sessions[i].id);
          return false;
        }
      }
      sessions := sessions[i := sessions[i].(parent := sessions[p].id)];
      return true;
    }

    method HandleSessionUnsetParent(id: Id) returns (ok: bool)
      modifies this`sessions
      ensures sessions == Step(old(sessions), UnsetParent(id))
      ensures var was, i := old(sessions), Find(old(sessions), id);
              ok <==> i < |was| && IsSubSession(was[i])
    {
      var i := Resolve(id);
      if i == |sessions| || !IsSubSession(sessions[i]) {
        return false;
      }
      sessions := sessions[i := sessions[i].(parent := "")];
      return true;
    }

    method HandleRemove(id: Id) returns (ok: bool)
      modifies this`sessions
      ensures sessions == Step(old(sessions), Remove(id))
      ensures ok <==> Find(old(sessions), id) < |old(sessions)|
    {
      var i := Resolve(id);
      if i == |sessions| {
        return false;
      }
      var kept: seq<Member> := [];
      for k := 0 to |sessions|
        invariant kept == Without(sessions[..k], id)
      {
        assert sessions[..k + 1][..k] == sessions[..k];
        if sessions[k].id != id {
          kept := kept + [sessions[k]];
        }
      }
      assert sessions[..|sessions|] == sessions;
      sessions := kept;
      return true;
    }
  }

  // ---------- what a command does, and does not do ----------

  lemma {:induction false} WithoutMeans(s: seq<Member>, id: Id)
    ensures forall m :: m in Without(s, id) <==> m in s && m.id != id
  {
    if s != [] {
      var n := |s| - 1;
      WithoutMeans(s[..n], id);
      assert s == s[..n] + [s[n]];
    }
  }

  /** No command changes the link of another session, also not when it removes that session's parent. */
  lemma OthersUntouched(s: seq<Member>, c: Command, m: Member)
    requires m.id != c.id
    ensures m in Step(s, c) <==> m in s
  {
    if c.Remove? {
      WithoutMeans(s, c.id);
    } else {
      var t := Step(s, c);
      forall i | 0 <= i < |s| && s[i].id != c.id
        ensures i < |t| && t[i] == s[i]
      {
      }
      if m in s {
        var i :| 0 <= i < |s| && s[i] == m;
        assert t[i] == m;
      }
    }
  }

  /** The program accepts the command. */
  predicate Accepts(s: seq<Member>, c: Command) {
    match c
    case Add(_, link) =>
      link.Explicit? ==> Find(s, link.parent) < |s| && !IsSubSession(s[Find(s, link.parent)])
    case SetParent(id, parent) =>
      Find(s, id) < |s| && Find(s, parent) < |s| && MayLink(s, Find(s, id), Find(s, parent))
    case UnsetParent(id) => Find(s, id) < |s| && IsSubSession(s[Find(s, id)])
    case Remove(id) => Find(s, id) < |s|
  }

  /** What the user asked for is so. */
  predicate Achieved(t: seq<Member>, c: Command) {
    match c
    case Add(id, link) =>
      if link.Explicit? then Member(id, link.parent) in t else exists m :: m in t && m.id == id
    case SetParent(id, parent) => Member(id, parent) in t
    case UnsetParent(id) => Member(id, "") in t
    case Remove(id) => forall m :: m in t ==> m.id != id
  }

  /** A command achieves what it is for when it is accepted, and changes nothing when it is not. */
  lemma CommandTakesEffect(s: seq<Member>, c: Command)
    ensures Accepts(s, c) ==> Achieved(Step(s, c), c)
    ensures !Accepts(s, c) ==> Step(s, c) == s
  {
    var t := Step(s, c);
    if c.Remove? {
      WithoutMeans(s, c.id);
    } else if Accepts(s, c) {
      assert c.Add? ==> t[|t| - 1] in t;
      assert !c.Add? ==> t[Find(s, c.id)] in t && s[Find(s, c.id)].id == c.id;
    }
  }

  predicate NamesNobody(s: seq<Member>, candidate: Id) {
    candidate == "" || forall m :: m in s ==> m.id != candidate
  }

  /** The automatic parent: the first candidate that names a session decides. */
  lemma {:induction false} AutoParentIs(s: seq<Member>, before: seq<Id>, candidate: Id, after: seq<Id>)
    requires forall c :: c in before ==> NamesNobody(s, c)
    requires !NamesNobody(s, candidate)
    ensures var p := AutoParent(s, before + [candidate] + after); p < |s| && s[p].id == candidate
  {
    var all := before + [candidate] + after;
    if before == [] {
      assert all[0] == candidate;
      var m :| m in s && m.id == candidate;
      var i :| 0 <= i < |s| && s[i] == m;
      assert Find(s, candidate) <= i;
    } else {
      assert before[0] in before && all[0] == before[0] && all[1..] == before[1..] + [candidate] + after;
      assert Find(s, before[0]) < |s| ==> s[Find(s, before[0])] in s;
      AutoParentIs(s, before[1..], candidate, after);
    }
  }

  lemma {:induction false} NoAutoParent(s: seq<Member>, candidates: seq<Id>)
    requires forall c :: c in candidates ==> NamesNobody(s, c)
    ensures AutoParent(s, candidates) == |s|
  {
    if candidates != [] {
      assert Find(s, candidates[0]) < |s| ==> s[Find(s, candidates[0])] in s;
      assert candidates[0] in candidates;
      NoAutoParent(s, candidates[1..]);
    }
  }

  /** What an automatic link comes to: the session of the first candidate that names one, unless that is a
      sub-session itself. */
  lemma AutoAddLinks(s: seq<Member>, id: Id, before: seq<Id>, candidate: Id, after: seq<Id>)
    requires (forall c :: c in before ==> NamesNobody(s, c)) && !NamesNobody(s, candidate)
    ensures var i := AutoParent(s, before + [candidate] + after);
            && i < |s| && s[i].id == candidate
            && Step(s, Add(id, Auto(before + [candidate] + after)))
               == s + [Member(id, if s[i].parent != "" then "" else candidate)]
  {
    AutoParentIs(s, before, candidate, after);
  }

  /** An explicit link is accepted exactly when it names a session that is not a sub-session; and an accepted add
      puts one session at the end. */
  lemma ExplicitAddAdds(s: seq<Member>, id: Id, parent: Id)
    ensures var i := Find(s, parent);
            Step(s, Add(id, Explicit(parent))) == if i < |s| && s[i].parent == "" then s + [Member(id, parent)] else s
    ensures Step(s, Add(id, NoParent)) == s + [Member(id, "")]
  {
  }

  // ---------- the single level ----------

  ghost predicate DistinctIds(s: seq<Member>) {
    && (forall i :: 0 <= i < |s| ==> s[i].id != "")
    && (forall i, j :: 0 <= i < j < |s| ==> s[i].id != s[j].id)
  }

  /** No link leads to the session itself or to a sub-session that exists. */
  ghost predicate SingleLevel(s: seq<Member>) {
    forall i, j :: 0 <= i < |s| && 0 <= j < |s| && s[i].parent == s[j].id ==> i != j && !IsSubSession(s[j])
  }

  ghost predicate Forest(s: seq<Member>) {
    DistinctIds(s) && SingleLevel(s)
  }

  predicate Linked(s: seq<Member>, child: Id, parent: Id) {
    parent != "" && Member(child, parent) in s
  }

  /** Ids each linked to the next; the last may be that of a removed session. */
  predicate Chain(s: seq<Member>, path: seq<Id>) {
    |path| < 2 || (Linked(s, path[0], path[1]) && Chain(s, path[1..]))
  }

  /** What the single level means: however links are followed, also links to removed sessions, one step is
      the end. In particular there is no cycle of any length, and nobody is both parent and child. */
  lemma SingleLevelIffChainsAreShort(s: seq<Member>)
    requires DistinctIds(s)
    ensures SingleLevel(s) <==> forall path :: Chain(s, path) ==> |path| <= 2
  {
    forall path | Chain(s, path)
      ensures SingleLevel(s) ==> |path| <= 2
    {
      if |path| > 2 {
        var rest := path[1..];
        assert Chain(s, rest) && Linked(s, rest[0], rest[1]);
        TwoLinks(s, path[0], path[1], path[2]);
      }
    }
    if !SingleLevel(s) {
      var i: nat, j: nat :|
        i < |s| && j < |s| && s[i].parent == s[j].id && (i == j || IsSubSession(s[j]));
      var path := [s[i].id, s[j].id, s[j].parent];
      assert Member(path[0], path[1]) == s[i] && Member(path[1], path[2]) == s[j];
      assert path[1..] == [s[j].id, s[j].parent];
      assert Linked(s, path[0], path[1]) && Linked(s, path[1..][0], path[1..][1]);
      assert Chain(s, path);
    }
  }

  lemma TwoLinks(s: seq<Member>, a: Id, b: Id, c: Id)
    requires Linked(s, a, b) && Linked(s, b, c)
    ensures !SingleLevel(s)
  {
    var i: nat :| i < |s| && s[i] == Member(a, b);
    var j: nat :| j < |s| && s[j] == Member(b, c);
    assert s[i].parent == s[j].id && IsSubSession(s[j]);
  }

  lemma {:induction false} FindIs(s: seq<Member>, i: nat)
    requires DistinctIds(s) && i < |s|
    ensures Find(s, s[i].id) == i
  {
    var j := Find(s, s[i].id);
    assert j == i || j < i || j > i;
  }

  /** The guards of `set-parent` are exactly right: in a single-level registry the link keeps the single
      level if and only if it passes them. */
  lemma MayLinkIsExact(s: seq<Member>, i: nat, p: nat)
    requires Forest(s) && i < |s| && p < |s|
    ensures Forest(s[i := s[i].(parent := s[p].id)]) <==> MayLink(s, i, p)
  {
    var t := s[i := s[i].(parent := s[p].id)];
    assert t[i].parent == t[p].id;
    if HasSubSessions(s, s[i].id) {
      var k :| 0 <= k < |s| && s[k].parent == s[i].id;
      assert t[k].parent == t[i].id && IsSubSession(t[i]);
    }
    if MayLink(s, i, p) {
      forall a, b | 0 <= a < |t| && 0 <= b < |t| && t[a].parent == t[b].id
        ensures a != b && !IsSubSession(t[b])
      {
        if a == i {
          assert s[b].id == s[p].id;
          assert b == p;
        } else {
          assert s[a].parent == s[b].id;
        }
      }
    }
  }

  /** An id that is new and that no link mentions, not even one to a removed session. */
  ghost predicate Unmentioned(s: seq<Member>, id: Id) {
    id != "" && forall i :: 0 <= i < |s| ==> s[i].id != id && s[i].parent != id
  }

  /** So are the guards of `add` and `launch`: linking the new session to `parent` keeps the single level
      if and only if `parent` is not a sub-session, also when `parent` is already gone. */
  lemma AddLinkIsExact(s: seq<Member>, id: Id, parent: Id)
    requires Forest(s) && Unmentioned(s, id) && parent != id
    ensures Forest(s + [Member(id, parent)]) <==> (Find(s, parent) < |s| ==> !IsSubSession(s[Find(s, parent)]))
  {
    var t, p := s + [Member(id, parent)], Find(s, parent);
    if Forest(t) && p < |s| {
      assert t[|s|].parent == t[p].id;
    }
    if p < |s| ==> !IsSubSession(s[p]) {
      assert DistinctIds(t);
      forall a, b | 0 <= a < |t| && 0 <= b < |t| && t[a].parent == t[b].id
        ensures a != b && !IsSubSession(t[b])
      {
        if a == |s| && b < |s| {
          FindIs(s, b);
        } else if b < |s| {
          assert s[a].parent == s[b].id;
        }
      }
    }
  }

  lemma {:induction false} WithoutKeepsDistinct(s: seq<Member>, id: Id)
    requires DistinctIds(s)
    ensures DistinctIds(Without(s, id))
  {
    if s != [] {
      var n := |s| - 1;
      var rest := Without(s[..n], id);
      WithoutKeepsDistinct(s[..n], id);
      WithoutMeans(s[..n], id);
      forall i | 0 <= i < |rest|
        ensures rest[i].id != s[n].id
      {
        assert rest[i] in s[..n];
      }
    }
  }

  lemma PartKeepsSingleLevel(s: seq<Member>, t: seq<Member>)
    requires Forest(s) && forall m :: m in t ==> m in s
    requires DistinctIds(t)
    ensures SingleLevel(t)
  {
    forall a, b | 0 <= a < |t| && 0 <= b < |t| && t[a].parent == t[b].id
      ensures a != b && !IsSubSession(t[b])
    {
      assert t[a] in s && t[b] in s;
      var i :| 0 <= i < |s| && s[i] == t[a];
      var j :| 0 <= j < |s| && s[j] == t[b];
      assert s[i].parent == s[j].id;
    }
  }

  lemma WithoutKeeps(s: seq<Member>, id: Id)
    requires Forest(s)
    ensures Forest(Without(s, id))
  {
    WithoutMeans(s, id);
    WithoutKeepsDistinct(s, id);
    PartKeepsSingleLevel(s, Without(s, id));
  }

  /** Every command keeps the single level when new ids are new. */
  lemma StepKeepsForest(s: seq<Member>, c: Command)
    requires Forest(s) && (c.Add? ==> Unmentioned(s, c.id))
    ensures Forest(Step(s, c))
  {
    match c
    case Add(id, link) =>
      var p := match link
        case NoParent => |s|
        case Explicit(parent) => Find(s, parent)
        case Auto(candidates) => AutoParent(s, candidates);
      var parent := if p == |s| || IsSubSession(s[p]) then "" else s[p].id;
      if p < |s| { FindIs(s, p); }
      AddLinkIsExact(s, id, parent);
    case SetParent(id, parent) =>
      var i, p := Find(s, id), Find(s, parent);
      if i < |s| && p < |s| {
        MayLinkIsExact(s, i, p);
      }
    case UnsetParent(id) =>
      UnsetKeepsForest(s, Find(s, id));
    case Remove(id) => WithoutKeeps(s, id);
  }

  lemma UnsetKeepsForest(s: seq<Member>, i: nat)
    requires Forest(s)
    ensures i < |s| ==> Forest(s[i := s[i].(parent := "")])
  {
    if i < |s| {
      var t := s[i := s[i].(parent := "")];
      forall a, b | 0 <= a < |t| && 0 <= b < |t| && t[a].parent == t[b].id
        ensures a != b && !IsSubSession(t[b])
      {
        assert a != i && s[a].parent == s[b].id;
      }
    }
  }

  // ---------- whole runs ----------

  ghost function Mentioned(s: seq<Member>): set<Id> {
    (set m | m in s :: m.id) + (set m | m in s :: m.parent)
  }

  ghost function Generated(cs: seq<Command>): set<Id> {
    set c | c in cs && c.Add? :: c.id
  }

  /** No generated id is ever generated twice, or was known at the start. */
  ghost predicate FreshIds(s: seq<Member>, cs: seq<Command>) {
    forall n :: 0 <= n < |cs| && cs[n].Add? ==>
                  cs[n].id != "" && cs[n].id !in Mentioned(s) && cs[n].id !in Generated(cs[..n])
  }

  lemma StepMentions(s: seq<Member>, c: Command)
    ensures Mentioned(Step(s, c)) <= Mentioned(s) + {""} + if c.Add? then {c.id} else {}
  {
    var t := Step(s, c);
    if c.Remove? {
      WithoutMeans(s, c.id);
    }
    forall m | m in t
      ensures (m.id in Mentioned(s) || (c.Add? && m.id == c.id)) && (m.parent in Mentioned(s) || m.parent == "")
    {
      MemberMentions(s, c, m);
    }
  }

  lemma MemberMentions(s: seq<Member>, c: Command, m: Member)
    requires m in Step(s, c) && (c.Remove? ==> m in s || m !in Without(s, c.id))
    ensures m.id in Mentioned(s) || (c.Add? && m.id == c.id)
    ensures m.parent in Mentioned(s) || m.parent == ""
  {
    if m !in s {
      match c
      case Add(id, _) => assert m == Step(s, c)[|s|];
      case SetParent(id, parent) =>
        var i, p := Find(s, id), Find(s, parent);
        assert s[i] in s && s[p] in s;
      case UnsetParent(id) => assert s[Find(s, id)] in s;
      case Remove(_) =>
    }
  }

  lemma NotMentioned(s: seq<Member>, id: Id)
    requires id != "" && id !in Mentioned(s)
    ensures Unmentioned(s, id)
  {
    forall i | 0 <= i < |s|
      ensures s[i].id in Mentioned(s) && s[i].parent in Mentioned(s)
    {
      assert s[i] in s;
    }
  }

  /** Over every run of add, launch, set-parent, unset-parent and remove, with ids that are not reused,
      the registry keeps the single level, links to removed sessions included. */
  lemma {:induction false} RunKeepsForest(s: seq<Member>, cs: seq<Command>)
    requires Forest(s) && FreshIds(s, cs)
    ensures Forest(Run(s, cs)) && Mentioned(Run(s, cs)) <= Mentioned(s) + Generated(cs) + {""}
  {
    if cs != [] {
      var n := |cs| - 1;
      FreshBefore(s, cs);
      RunKeepsForest(s, cs[..n]);
      NextKeepsForest(s, cs, Run(s, cs[..n]));
    }
  }

  lemma FreshBefore(s: seq<Member>, cs: seq<Command>)
    requires cs != [] && FreshIds(s, cs)
    ensures FreshIds(s, cs[..|cs| - 1])
  {
    assert forall k :: 0 <= k < |cs| ==> cs[..|cs| - 1][..k] == cs[..k];
  }

  lemma NextKeepsForest(s: seq<Member>, cs: seq<Command>, mid: seq<Member>)
    requires cs != [] && FreshIds(s, cs)
    requires Forest(mid) && Mentioned(mid) <= Mentioned(s) + Generated(cs[..|cs| - 1]) + {""}
    ensures var t := Step(mid, cs[|cs| - 1]); Forest(t) && Mentioned(t) <= Mentioned(s) + Generated(cs) + {""}
  {
    var c := cs[|cs| - 1];
    if c.Add? {
      NotMentioned(mid, c.id);
    }
    StepKeepsForest(mid, c);
    StepMentions(mid, c);
    assert c in cs;
  }

  // ---------- two processes ----------

  /** A launch settles on its parent in the list it loaded, and inserts into the list as it is by then. */
  function StaleLaunch(loaded: seq<Member>, current: seq<Member>, id: Id, link: Link): seq<Member> {
    current + Step(loaded, Add(id, link))[|loaded|..]
  }

  predicate KnownSubSession(s: seq<Member>, id: Id) {
    Find(s, id) < |s| && IsSubSession(s[Find(s, id)])
  }

  /** The parent an accepted launch settles on; empty when none. */
  function SettledParent(loaded: seq<Member>, link: Link): Id
    requires Accepts(loaded, Add("", link))
  {
    match link
    case NoParent => ""
    case Explicit(parent) => parent
    case Auto(candidates) =>
      var p := AutoParent(loaded, candidates);
      if p == |loaded| || IsSubSession(loaded[p]) then "" else loaded[p].id
  }

  /** The single level survives exactly when the launch is refused by the list it loaded, or the parent it
      settles on has not become a sub-session meanwhile. */
  lemma StaleLaunchIsExact(loaded: seq<Member>, current: seq<Member>, id: Id, link: Link)
    requires Forest(current) && Unmentioned(current, id) && Unmentioned(loaded, id)
    ensures Forest(StaleLaunch(loaded, current, id, link))
            <==> (Accepts(loaded, Add("", link)) ==> !KnownSubSession(current, SettledParent(loaded, link)))
  {
    var t := Step(loaded, Add(id, link));
    if Accepts(loaded, Add("", link)) {
      var parent := SettledParent(loaded, link);
      assert t == loaded + [Member(id, parent)];
      assert t[|loaded|..] == [Member(id, parent)];
      AddLinkIsExact(current, id, parent);
    } else {
      assert t == loaded && StaleLaunch(loaded, current, id, link) == current;
    }
  }

  /** So the promise is one about commands that do not overlap: a launch under `a` overlapping with
      `set-parent a b` ends in a chain of three. */
  lemma OverlappingSetParentBreaksLevel(a: Id, b: Id, id: Id)
    requires a != b && a != id && b != id && a != "" && b != "" && id != ""
    ensures var loaded := [Member(a, ""), Member(b, "")];
            var current := Step(loaded, SetParent(a, b));
            && Forest(loaded) && Forest(current)
            && StaleLaunch(loaded, current, id, Explicit(a)) == current + [Member(id, a)]
            && !Forest(current + [Member(id, a)])
  {
    var loaded := [Member(a, ""), Member(b, "")];
    FindIs(loaded, 0);
    FindIs(loaded, 1);
    assert !HasSubSessions(loaded, a);
    var current := [Member(a, b), Member(b, "")];
    assert current == Step(loaded, SetParent(a, b));
    MayLinkIsExact(loaded, 0, 1);
    FindIs(current, 0);
    assert Step(loaded, Add(id, Explicit(a)))[|loaded|..] == [Member(id, a)];
    StaleLaunchIsExact(loaded, current, id, Explicit(a));
  }
}
