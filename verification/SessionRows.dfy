/** The instances table shared by every process, and the writes made to it.

    Since the snapshot rewrite was found to lose rows, commands write through targeted operations:
    one row is inserted or replaced, one row is deleted, the groups are saved on their own, or the
    status column of some rows is updated. */
module SessionRows {

  import opened SessionTypes

  /** The columns that differ in how writes treat them. */
  datatype Row = Row(
    title: string,
    parent: string,
    group: string,
    status: SessionStatus,
    autoName: bool,
    autoNameDescription: string,
    acknowledged: bool)

  type Rows = map<Id, Row>

  datatype StatusUpdate = StatusUpdate(id: Id, status: SessionStatus)

  /** What a save read of the row it is about to replace. Another process may write between the two. */
  datatype Seen = NotSeen | SeenRow(autoName: bool, autoNameDescription: string)

  datatype Save = Save(id: Id, row: Row, seen: Seen)

  datatype Op =
    | Upsert(save: Save)
    | Delete(id: Id)
    | SaveGroups(groups: seq<string>)
    | SetStatuses(updates: seq<StatusUpdate>)
    | Rewrite(saves: seq<Save>)

  // ---------- what one write does ----------

  function SeenIn(rows: Rows, id: Id): Seen {
    if id in rows then SeenRow(rows[id].autoName, rows[id].autoNameDescription) else NotSeen
  }

  /** The row as stored: an automatic name that was seen cleared does not come back, a description that was
      seen captured is not emptied, and replacing a row clears its acknowledgement. */
  function Stored(save: Save): Row {
    var cleared := save.row.(acknowledged := false);
    match save.seen
    case NotSeen => cleared
    case SeenRow(autoName, description) =>
      cleared.(
        autoName := save.row.autoName && autoName,
        autoNameDescription := if save.row.autoNameDescription == "" then description else save.row.autoNameDescription)
  }

  function Upserted(rows: Rows, save: Save): Rows {
    rows[save.id := Stored(save)]
  }

  function WithStatus(row: Row, status: SessionStatus): Row {
    row.(status := status, acknowledged := if status == Running then false else row.acknowledged)
  }

  function StatusSet(rows: Rows, u: StatusUpdate): Rows {
    if u.id in rows then rows[u.id := WithStatus(rows[u.id], u.status)] else rows
  }

  function StatusesSet(rows: Rows, updates: seq<StatusUpdate>): Rows {
    if updates == [] then rows
    else StatusSet(StatusesSet(rows, updates[..|updates| - 1]), updates[|updates| - 1])
  }

  function UpsertedAll(rows: Rows, saves: seq<Save>): Rows {
    if saves == [] then rows
    else Upserted(UpsertedAll(rows, saves[..|saves| - 1]), saves[|saves| - 1])
  }

  function SavedIds(saves: seq<Save>): set<Id> {
    set s | s in saves :: s.id
  }

  /** The full rewrite: rows outside the payload are swept away, unless the payload is empty and the
      table is not, when the rewrite is refused. */
  function Rewritten(rows: Rows, saves: seq<Save>): Rows {
    if saves == [] then rows
    else UpsertedAll(map id | id in rows && id in SavedIds(saves) :: rows[id], saves)
  }

  function Apply(rows: Rows, op: Op): Rows {
    match op
    case Upsert(save) => Upserted(rows, save)
    case Delete(id) => rows - {id}
    case SaveGroups(_) => rows
    case SetStatuses(updates) => StatusesSet(rows, updates)
    case Rewrite(saves) => Rewritten(rows, saves)
  }

  /** The table after the operations of every process, in the order the database took them. */
  function Run(rows: Rows, ops: seq<Op>): Rows {
    if ops == [] then rows else Apply(Run(rows, ops[..|ops| - 1]), ops[|ops| - 1])
  }

  predicate Targeted(op: Op) {
    !op.Rewrite?
  }

  // ---------- one row through a run ----------

  /** The operation decides whether row `id` exists. */
  predicate Decides(op: Op, id: Id) {
    match op
    case Upsert(save) => save.id == id
    case Delete(d) => d == id
    case _ => false
  }

  /** The operation writes row `id`. */
  predicate Touches(op: Op, id: Id) {
    match op
    case SetStatuses(updates) => exists u :: u in updates && u.id == id
    case Rewrite(_) => true
    case _ => Decides(op, id)
  }

  /** Equal in every column that only a full save of the row writes. */
  predicate SameRecord(r: Row, q: Row) {
    r.title == q.title && r.parent == q.parent && r.group == q.group
  }

  function Cell(rows: Rows, id: Id): seq<Row> {
    if id in rows then [rows[id]] else []
  }

  lemma {:induction false} StatusesSetCell(rows: Rows, updates: seq<StatusUpdate>, id: Id)
    ensures StatusesSet(rows, updates).Keys == rows.Keys
    ensures id in rows ==> SameRecord(StatusesSet(rows, updates)[id], rows[id])
                           && StatusesSet(rows, updates)[id].autoName == rows[id].autoName
                           && StatusesSet(rows, updates)[id].autoNameDescription == rows[id].autoNameDescription
    ensures (forall u :: u in updates ==> u.id != id) ==> Cell(StatusesSet(rows, updates), id) == Cell(rows, id)
  {
    if updates != [] {
      StatusesSetCell(rows, updates[..|updates| - 1], id);
    }
  }

  /** What an update of the status column writes: the status, and no acknowledgement for a session that runs. */
  lemma StatusIsSet(rows: Rows, u: StatusUpdate)
    ensures u.id !in rows ==> StatusSet(rows, u) == rows
    ensures u.id in rows ==>
              var r := StatusSet(rows, u)[u.id];
              && StatusSet(rows, u).Keys == rows.Keys && r.status == u.status
              && r.acknowledged == (rows[u.id].acknowledged && u.status != Running)
              && SameRecord(r, rows[u.id]) && r.autoName == rows[u.id].autoName
              && r.autoNameDescription == rows[u.id].autoNameDescription
  {
  }

  /** Each targeted write leaves every row it does not name exactly as it was. */
  lemma TargetedWritesFrame(rows: Rows, op: Op, id: Id)
    requires Targeted(op) && !Touches(op, id)
    ensures Cell(Apply(rows, op), id) == Cell(rows, id)
  {
    if op.SetStatuses? {
      StatusesSetCell(rows, op.updates, id);
    }
  }

  /** The operations of a run that name row `id`. */
  function About(ops: seq<Op>, id: Id): seq<Op> {
    if ops == [] then []
    else
      var last := ops[|ops| - 1];
      About(ops[..|ops| - 1], id) + if Touches(last, id) then [last] else []
  }

  lemma {:induction false} StatusesSetLocal(rows: Rows, other: Rows, updates: seq<StatusUpdate>, id: Id)
    requires Cell(rows, id) == Cell(other, id)
    ensures Cell(StatusesSet(rows, updates), id) == Cell(StatusesSet(other, updates), id)
  {
    if updates != [] {
      StatusesSetLocal(rows, other, updates[..|updates| - 1], id);
      var a, b := StatusesSet(rows, updates[..|updates| - 1]), StatusesSet(other, updates[..|updates| - 1]);
      assert id in a <==> Cell(a, id) != [];
      assert id in b <==> Cell(b, id) != [];
      assert id in a ==> Cell(a, id)[0] == Cell(b, id)[0];
    }
  }

  lemma ApplyLocal(rows: Rows, other: Rows, op: Op, id: Id)
    requires Targeted(op) && Cell(rows, id) == Cell(other, id)
    ensures Cell(Apply(rows, op), id) == Cell(Apply(other, op), id)
  {
    assert id in rows <==> Cell(rows, id) != [];
    assert id in other <==> Cell(other, id) != [];
    assert id in rows ==> Cell(rows, id)[0] == Cell(other, id)[0];
    if op.SetStatuses? {
      StatusesSetLocal(rows, other, op.updates, id);
    }
  }

  /** Row independence: whatever the other processes do through targeted writes, and however the runs
      interleave, row `id` ends as if only the operations naming it had run. */
  lemma {:induction false} RowsAreIndependent(rows: Rows, ops: seq<Op>, id: Id)
    requires forall op :: op in ops ==> Targeted(op)
    ensures Cell(Run(rows, ops), id) == Cell(Run(rows, About(ops, id)), id)
  {
    if ops != [] {
      var last, before := ops[|ops| - 1], ops[..|ops| - 1];
      RowsAreIndependent(rows, before, id);
      if Touches(last, id) {
        var about := About(before, id);
        assert (about + [last])[..|about|] == about;
        ApplyLocal(Run(rows, before), Run(rows, about), last, id);
      } else {
        assert About(before, id) + [] == About(before, id);
        TargetedWritesFrame(Run(rows, before), last, id);
      }
    }
  }

  /** The last operation that decides whether row `id` exists; -1 when there is none. */
  function LastDecision(ops: seq<Op>, id: Id): (k: int)
    ensures -1 <= k < |ops|
    ensures k >= 0 ==> Decides(ops[k], id)
    ensures forall j :: k < j < |ops| ==> !Decides(ops[j], id)
  {
    if ops == [] then -1
    else if Decides(ops[|ops| - 1], id) then |ops| - 1
    else LastDecision(ops[..|ops| - 1], id)
  }

  lemma UndecidedKeepsRecord(rows: Rows, op: Op, id: Id)
    requires Targeted(op) && !Decides(op, id)
    ensures id in Apply(rows, op) <==> id in rows
    ensures id in rows ==> SameRecord(Apply(rows, op)[id], rows[id])
  {
    if op.SetStatuses? {
      StatusesSetCell(rows, op.updates, id);
    }
  }

  /** A row is missing at the end exactly when the last operation to decide about it was an explicit
      delete, or none was and it was missing at the start. A row present at the end holds what its last
      save wrote, whatever statuses were updated since. */
  lemma {:induction false} LastDecisionCounts(rows: Rows, ops: seq<Op>, id: Id)
    requires forall op :: op in ops ==> Targeted(op)
    ensures var k := LastDecision(ops, id);
            var end := Run(rows, ops);
            && (id in end <==> if k >= 0 then ops[k].Upsert? else id in rows)
            && (id in end ==> SameRecord(end[id], if k >= 0 then ops[k].save.row else rows[id]))
  {
    if ops != [] {
      var last, before := ops[|ops| - 1], ops[..|ops| - 1];
      LastDecisionCounts(rows, before, id);
      if !Decides(last, id) {
        UndecidedKeepsRecord(Run(rows, before), last, id);
      }
    }
  }

  // ---------- whole commands, interleaved ----------

  /** The writes of one command. A launch saves its row at each of its save points; a remove deletes
      its row, again if a check still finds it; a revive updates statuses only. */
  datatype Command =
    | Launch(id: Id, saves: seq<Row>)
    | Remove(id: Id, deletes: nat)
    | Revive(updates: seq<StatusUpdate>)

  predicate OpOf(c: Command, op: Op) {
    op.SaveGroups? ||
    match c
    case Launch(id, saves) => op.Upsert? && op.save.id == id
    case Remove(id, _) => op == Delete(id)
    case Revive(updates) => op == SetStatuses(updates)
  }

  datatype Event = Event(process: nat, op: Op)

  function OpsOf(events: seq<Event>): seq<Op> {
    seq(|events|, i requires 0 <= i < |events| => events[i].op)
  }

  /** An interleaving of the commands: each event is a write of its process's command; what one launch saves,
      it saves in order, all of it; and a remove deletes as often as it says. */
  ghost predicate Interleaves(events: seq<Event>, commands: seq<Command>) {
    && (forall i :: 0 <= i < |events| ==>
          events[i].process < |commands| && OpOf(commands[events[i].process], events[i].op))
    && (forall p :: 0 <= p < |commands| && commands[p].Launch? ==> SavesOf(events, p) == commands[p].saves)
    && (forall p :: 0 <= p < |commands| && commands[p].Remove? ==> DeletesOf(events, p) == commands[p].deletes)
  }

  /** How often process `p` deletes. */
  function DeletesOf(events: seq<Event>, p: nat): nat {
    if events == [] then 0
    else
      var last := events[|events| - 1];
      DeletesOf(events[..|events| - 1], p) + if last.process == p && last.op.Delete? then 1 else 0
  }

  /** The rows process `p` saves, in order. */
  function SavesOf(events: seq<Event>, p: nat): seq<Row> {
    if events == [] then []
    else
      var last := events[|events| - 1];
      SavesOf(events[..|events| - 1], p) + if last.process == p && last.op.Upsert? then [last.op.save.row] else []
  }

  /** No other command launches or removes this id. */
  predicate OnlyLaunchOf(commands: seq<Command>, p: nat, id: Id) {
    && p < |commands| && commands[p].Launch? && commands[p].id == id
    && forall q :: 0 <= q < |commands| && q != p && !commands[q].Revive? ==> commands[q].id != id
  }

  lemma {:induction false} LastSave(events: seq<Event>, p: nat, k: nat)
    requires k < |events| && events[k].process == p && events[k].op.Upsert?
    requires forall j :: k < j < |events| ==> !(events[j].process == p && events[j].op.Upsert?)
    ensures SavesOf(events, p) != [] && SavesOf(events, p)[|SavesOf(events, p)| - 1] == events[k].op.save.row
  {
    if k < |events| - 1 {
      LastSave(events[..|events| - 1], p, k);
    }
  }

  lemma {:induction false} NoSave(events: seq<Event>, p: nat)
    requires forall j :: 0 <= j < |events| ==> !(events[j].process == p && events[j].op.Upsert?)
    ensures SavesOf(events, p) == []
  {
    if events != [] {
      NoSave(events[..|events| - 1], p);
    }
  }

  /** Any number of launches, removes and revives, interleaved in any way: a launched row that nobody
      removes is there at the end, with what its launch saved last. */
  lemma LaunchedRowSurvives(rows: Rows, events: seq<Event>, commands: seq<Command>, p: nat)
    requires Interleaves(events, commands)
    requires p < |commands| && commands[p].Launch? && commands[p].saves != []
    requires OnlyLaunchOf(commands, p, commands[p].id)
    ensures var id, saves, end := commands[p].id, commands[p].saves, Run(rows, OpsOf(events));
            id in end && SameRecord(end[id], saves[|saves| - 1])
  {
    var id, ops := commands[p].id, OpsOf(events);
    forall i | 0 <= i < |ops|
      ensures Targeted(ops[i]) && (Decides(ops[i], id) <==> events[i].process == p && ops[i].Upsert?)
    {
      assert OpOf(commands[events[i].process], events[i].op);
    }
    LastDecisionCounts(rows, ops, id);
    var k := LastDecision(ops, id);
    if k < 0 {
      NoSave(events, p);
    } else {
      LastSave(events, p, k);
    }
  }

  lemma {:induction false} NoDelete(events: seq<Event>, p: nat)
    requires forall j :: 0 <= j < |events| ==> !(events[j].process == p && events[j].op.Delete?)
    ensures DeletesOf(events, p) == 0
  {
    if events != [] {
      NoDelete(events[..|events| - 1], p);
    }
  }

  /** And a removed row that nobody launches meanwhile is gone at the end, whatever revives do to it. */
  lemma RemovedRowIsGone(rows: Rows, events: seq<Event>, commands: seq<Command>, p: nat)
    requires Interleaves(events, commands)
    requires p < |commands| && commands[p].Remove? && commands[p].deletes > 0
    requires forall q :: 0 <= q < |commands| && commands[q].Launch? ==> commands[q].id != commands[p].id
    ensures commands[p].id !in Run(rows, OpsOf(events))
  {
    var id, ops := commands[p].id, OpsOf(events);
    forall i | 0 <= i < |ops|
      ensures Targeted(ops[i]) && (ops[i].Upsert? ==> ops[i].save.id != id)
      ensures events[i].process == p && ops[i].Delete? ==> ops[i].id == id
    {
      assert OpOf(commands[events[i].process], events[i].op);
    }
    LastDecisionCounts(rows, ops, id);
    if LastDecision(ops, id) < 0 {
      NoDelete(events, p);
    }
  }

  // ---------- the rewrite that was replaced ----------

  lemma {:induction false} UpsertedAllKeys(rows: Rows, saves: seq<Save>)
    ensures UpsertedAll(rows, saves).Keys == rows.Keys + SavedIds(saves)
  {
    if saves != [] {
      var before := saves[..|saves| - 1];
      UpsertedAllKeys(rows, before);
      assert saves == before + [saves[|saves| - 1]];
    }
  }

  /** Which rows a snapshot rewrite loses, exactly: every one missing from a non-empty payload. Of what it makes
      of the others this says nothing. */
  lemma RewriteLoses(rows: Rows, saves: seq<Save>, id: Id)
    requires id in rows
    ensures id !in Apply(rows, Rewrite(saves)) <==> saves != [] && id !in SavedIds(saves)
  {
    if saves != [] {
      UpsertedAllKeys(map i | i in rows && i in SavedIds(saves) :: rows[i], saves);
    }
  }

  lemma RewriteKeepsIdsIffCovering(rows: Rows, saves: seq<Save>)
    requires saves != []
    ensures rows.Keys <= Apply(rows, Rewrite(saves)).Keys <==> rows.Keys <= SavedIds(saves)
  {
    forall id | id in rows
      ensures id !in Apply(rows, Rewrite(saves)) <==> id !in SavedIds(saves)
    {
      RewriteLoses(rows, saves, id);
    }
  }

  /** The race: one process loads its snapshot, another launches a session, the first rewrites. */
  lemma SnapshotRewriteLosesLaunch(snapshot: seq<Save>, launched: Save)
    requires snapshot != [] && launched.id !in SavedIds(snapshot)
    ensures launched.id !in Run(UpsertedAll(map[], snapshot), [Upsert(launched), Rewrite(snapshot)])
    ensures launched.id in Run(UpsertedAll(map[], snapshot), [Rewrite(snapshot), Upsert(launched)])
  {
    var rows := UpsertedAll(map[], snapshot);
    var ops := [Upsert(launched), Rewrite(snapshot)];
    assert ops[..1] == [Upsert(launched)] && ops[..1][..0] == [];
    assert Run(rows, ops[..1]) == Apply(rows, Upsert(launched));
    RewriteLoses(Upserted(rows, launched), snapshot, launched.id);
  }
}
