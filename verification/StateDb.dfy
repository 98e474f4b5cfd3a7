/** The state database and the durable writes built on it, with other processes at work between every
    two accesses. */
module StateDb {
  import opened SessionTypes
  import opened SessionRows
  import opened StaleSaves

  /** The groups after the writes of others: what was saved last, if anything was. */
  function GroupsAfter(groups: seq<string>, ops: seq<Op>): seq<string> {
    if ops == [] then groups
    else if ops[|ops| - 1].SaveGroups? then ops[|ops| - 1].groups
    else GroupsAfter(groups, ops[..|ops| - 1])
  }

  class StateDB {
    var rows: Rows
    var groups: seq<string>

    constructor ()
      ensures rows == map[] && groups == []
    {
      rows, groups := map[], [];
    }

    /** The statement `INSERT OR REPLACE`. */
    method Replace(save: Save)
      modifies this`rows
      ensures rows == Apply(old(rows), Upsert(save))
    {
      rows := rows[save.id := Stored(save)];
    }

    /** A read, and then the replacement: `between` is what other processes write in between. */
    method SaveInstance(id: Id, row: Row, between: seq<Op>)
      modifies this
      ensures rows == Apply(Run(old(rows), between), Upsert(Save(id, row, SeenIn(old(rows), id))))
      ensures groups == GroupsAfter(old(groups), between)
    {
      var seen := NotSeen;
      if id in rows {
        seen := SeenRow(rows[id].autoName, rows[id].autoNameDescription);
      }
      Interfere(between);
      Replace(Save(id, row, seen));
    }

    method DeleteInstance(id: Id)
      modifies this`rows
      ensures rows == Apply(old(rows), Delete(id))
    {
      rows := rows - {id};
    }

    method InstanceExists(id: Id) returns (exists_: bool)
      ensures exists_ <==> id in rows
    {
      exists_ := id in rows;
    }

    method ReplaceGroups(gs: seq<string>)
      modifies this`groups
      ensures groups == gs
    {
      groups := gs;
    }

    /** One transaction of single-column updates; ids that are gone match nothing. */
    method PersistInstanceStatusesTx(updates: seq<StatusUpdate>)
      modifies this`rows
      ensures rows == Apply(old(rows), SetStatuses(updates))
    {
      for i := 0 to |updates|
        invariant rows == StatusesSet(old(rows), updates[..i])
      {
        var u := updates[i];
        assert updates[..i + 1][..i] == updates[..i];
        if u.id in rows {
          rows := rows[u.id := WithStatus(rows[u.id], u.status)];
        }
      }
      assert updates[..|updates|] == updates;
    }

    /** The transaction of the full save: sweep, then insert or replace every row of the payload, which carries
        what was read before the transaction. */
    method SaveInstances(saves: seq<Save>) returns (refused: bool)
      modifies this`rows
      ensures rows == Apply(old(rows), Rewrite(saves))
      ensures refused <==> saves == [] && old(rows) != map[]
    {
      if saves == [] {
        return rows != map[];
      }
      ghost var swept: Rows := map id | id in rows && id in SavedIds(saves) :: rows[id];
      rows := map id | id in rows && id in SavedIds(saves) :: rows[id];
      for i := 0 to |saves|
        invariant rows == UpsertedAll(swept, saves[..i])
      {
        assert saves[..i + 1][..i] == saves[..i];
        Replace(saves[i]);
      }
      assert saves[..|saves|] == saves;
      return false;
    }

    /** What other processes write between two accesses of this one. */
    method Interfere(ops: seq<Op>)
      modifies this
      ensures rows == Run(old(rows), ops)
      ensures groups == GroupsAfter(old(groups), ops)
    {
      for i := 0 to |ops|
        invariant rows == Run(old(rows), ops[..i])
        invariant groups == GroupsAfter(old(groups), ops[..i])
      {
        assert ops[..i + 1][..i] == ops[..i];
        match ops[i] {
          case Upsert(save) => Replace(save);
          case Delete(id) => DeleteInstance(id);
          case SaveGroups(gs) => ReplaceGroups(gs);
          case SetStatuses(updates) => PersistInstanceStatusesTx(updates);
          case Rewrite(saves) => var _ := SaveInstances(saves);
        }
      }
      assert ops[..|ops|] == ops;
    }
  }

  const VERIFY_ATTEMPTS := 6

  /** Targeted writes that leave the existence of `id` to others. */
  predicate Harmless(ops: seq<Op>, id: Id) {
    forall op :: op in ops ==> Targeted(op) && !Decides(op, id)
  }

  lemma {:induction false} HarmlessKeeps(rows: Rows, ops: seq<Op>, id: Id)
    requires Harmless(ops, id)
    ensures id in Run(rows, ops) <==> id in rows
    ensures id in rows ==> SameRecord(Run(rows, ops)[id], rows[id])
  {
    LastDecisionCounts(rows, ops, id);
  }

  /** The others neither save row `id` nor update its status; they may delete it or sweep it away. */
  predicate KeepsContent(ops: seq<Op>, id: Id) {
    forall op :: op in ops ==> LastIn(PayloadOf(op), id) < 0 && (op.SetStatuses? ==> forall u :: u in op.updates ==> u.id != id)
  }

  lemma OpKeepsContent(rows: Rows, op: Op, id: Id)
    requires KeepsContent([op], id) && id in Apply(rows, op)
    ensures id in rows && Apply(rows, op)[id] == rows[id]
  {
    assert op in [op];
    var end := Apply(rows, op);
    assert Cell(end, id) == [end[id]];
    match op
    case Rewrite(saves) =>
      if saves != [] {
        RewrittenCell(rows, saves, id);
      }
    case SetStatuses(updates) =>
      StatusesSetCell(rows, updates, id);
      assert id in rows;
      assert Cell(rows, id) == [rows[id]];
    case _ =>
  }

  lemma {:induction false} ContentKept(rows: Rows, ops: seq<Op>, id: Id)
    requires KeepsContent(ops, id) && id in Run(rows, ops)
    ensures id in rows && Run(rows, ops)[id] == rows[id]
  {
    if ops != [] {
      var n := |ops| - 1;
      OpKeepsContent(Run(rows, ops[..n]), ops[n], id);
      ContentKept(rows, ops[..n], id);
    }
  }

  /** The row is there as it was to be saved; of the automatic name and its description, what the save takes over
      from the row it replaced is left open. */
  predicate SavedAs(r: Row, row: Row) {
    && SameRecord(r, row) && r.status == row.status && !r.acknowledged
    && (r.autoName ==> row.autoName)
    && (row.autoNameDescription != "" ==> r.autoNameDescription == row.autoNameDescription)
  }

  lemma StoredIsSaved(save: Save)
    ensures SavedAs(Stored(save), save.row)
  {
  }

  predicate HoldsSaved(rows: Rows, id: Id, row: Row) {
    id in rows ==> SavedAs(rows[id], row)
  }

  /** The writes of the others up to an access, in order. */
  function OthersUpTo(others: nat -> seq<Op>, n: nat): seq<Op> {
    if n == 0 then [] else OthersUpTo(others, n - 1) + others(n - 1)
  }

  /** Every other row is as the others alone would have left it. */
  ghost predicate OthersAlone(rows: Rows, was: Rows, ops: seq<Op>, id: Id) {
    forall o :: o != id ==> Cell(rows, o) == Cell(Run(was, ops), o)
  }

  lemma ApplyAnyLocal(rows: Rows, other: Rows, op: Op, id: Id)
    requires Cell(rows, id) == Cell(other, id)
    ensures Cell(Apply(rows, op), id) == Cell(Apply(other, op), id)
  {
    if op.Rewrite? {
      if op.saves != [] {
        RewrittenCell(rows, op.saves, id);
        RewrittenCell(other, op.saves, id);
      }
    } else {
      ApplyLocal(rows, other, op, id);
    }
  }

  lemma {:induction false} RunLocal(rows: Rows, other: Rows, ops: seq<Op>, id: Id)
    requires Cell(rows, id) == Cell(other, id)
    ensures Cell(Run(rows, ops), id) == Cell(Run(other, ops), id)
  {
    if ops != [] {
      var n := |ops| - 1;
      RunLocal(rows, other, ops[..n], id);
      ApplyAnyLocal(Run(rows, ops[..n]), Run(other, ops[..n]), ops[n], id);
    }
  }

  lemma OthersGoOn(rows: Rows, was: Rows, others: nat -> seq<Op>, n: nat, id: Id)
    requires OthersAlone(rows, was, OthersUpTo(others, n), id)
    ensures OthersAlone(Run(rows, others(n)), was, OthersUpTo(others, n + 1), id)
  {
    RunConcat(was, OthersUpTo(others, n), others(n));
    forall o | o != id
      ensures Cell(Run(rows, others(n)), o) == Cell(Run(was, OthersUpTo(others, n + 1)), o)
    {
      RunLocal(rows, Run(was, OthersUpTo(others, n)), others(n), o);
    }
  }

  lemma OwnWriteLeavesOthers(rows: Rows, was: Rows, ops: seq<Op>, op: Op, id: Id)
    requires OthersAlone(rows, was, ops, id) && (op == Delete(id) || (op.Upsert? && op.save.id == id))
    ensures OthersAlone(Apply(rows, op), was, ops, id)
  {
  }

  predicate SaveNoGroups(ops: seq<Op>) {
    forall op :: op in ops ==> !op.SaveGroups?
  }

  lemma {:induction false} GroupsStay(groups: seq<string>, ops: seq<Op>)
    requires SaveNoGroups(ops)
    ensures GroupsAfter(groups, ops) == groups
  {
    if ops != [] {
      GroupsStay(groups, ops[..|ops| - 1]);
    }
  }

  /** What the others do, as the results of a durable insert or removal depend on it. */
  datatype Conduct = Conduct(harmless: bool, keepsContent: bool, savesNoGroups: bool)

  ghost function ConductOf(others: nat -> seq<Op>, id: Id): Conduct {
    Conduct(forall k :: Harmless(others(k), id), forall k :: KeepsContent(others(k), id), forall k :: SaveNoGroups(others(k)))
  }

  /** Where a durable insert stands after `access` accesses and their interference. */
  ghost predicate Inserting(db: StateDB, was: Rows, id: Id, row: Row, others: nat -> seq<Op>, access: nat)
    reads db
  {
    && OthersAlone(db.rows, was, OthersUpTo(others, access), id)
    && (ConductOf(others, id).keepsContent ==> HoldsSaved(db.rows, id, row))
    && (ConductOf(others, id).harmless ==> id in db.rows && SameRecord(db.rows[id], row))
  }

  /** Others write. */
  method LetOthers(db: StateDB, ghost was: Rows, id: Id, row: Row, others: nat -> seq<Op>, access: nat)
    requires Inserting(db, was, id, row, others, access)
    modifies db
    ensures Inserting(db, was, id, row, others, access + 1)
    ensures db.groups == GroupsAfter(old(db.groups), others(access))
  {
    if ConductOf(others, id).harmless { HarmlessKeeps(db.rows, others(access), id); }
    if ConductOf(others, id).keepsContent && id in Run(db.rows, others(access)) { ContentKept(db.rows, others(access), id); }
    OthersGoOn(db.rows, was, others, access, id);
    db.Interfere(others(access));
  }

  /** One targeted save of the row, with what the others write while it reads. */
  method SaveSingleInstance(db: StateDB, ghost was: Rows, id: Id, row: Row, others: nat -> seq<Op>, access: nat)
    requires OthersAlone(db.rows, was, OthersUpTo(others, access), id)
    modifies db
    ensures Inserting(db, was, id, row, others, access + 1)
    ensures db.groups == GroupsAfter(old(db.groups), others(access))
  {
    ghost var save := Save(id, row, SeenIn(db.rows, id));
    StoredIsSaved(save);
    OthersGoOn(db.rows, was, others, access, id);
    OwnWriteLeavesOthers(Run(db.rows, others(access)), was, OthersUpTo(others, access + 1), Upsert(save), id);
    db.SaveInstance(id, row, others(access));
  }

  /** The durable insert, with `others(k)` written by other processes after its k-th access. Success
      means the row is there; failure means it was dropped after every one of the seven inserts; and
      when the others write only through targeted operations on other rows, one insert is enough. However often
      the row was dropped, it is there as it was to be saved unless another process saved it or its status; the
      groups are saved; and every other row is as the others alone would have left it. */
  method InsertSessionAndVerify(db: StateDB, id: Id, row: Row, groups: seq<string>, others: nat -> seq<Op>)
    returns (ok: bool, inserts: nat, ghost accesses: nat)
    modifies db
    ensures ok <==> id in db.rows
    ensures 1 <= inserts <= 7 && (!ok ==> inserts == 7)
    ensures (forall k :: Harmless(others(k), id)) ==> ok && inserts == 1 && SameRecord(db.rows[id], row)
    ensures (forall k :: KeepsContent(others(k), id)) && ok ==> SavedAs(db.rows[id], row)
    ensures (forall k :: SaveNoGroups(others(k))) ==> db.groups == groups
    ensures forall o :: o != id ==> Cell(db.rows, o) == Cell(Run(old(db.rows), OthersUpTo(others, accesses)), o)
  {
    ghost var was := db.rows;
    ghost var conduct := ConductOf(others, id);
    SaveSingleInstance(db, was, id, row, others, 0);
    inserts := 1;
    LetOthers(db, was, id, row, others, 1);
    db.ReplaceGroups(groups);
    GroupsStayWhen(conduct.savesNoGroups, groups, others, id, 2);
    LetOthers(db, was, id, row, others, 2);
    var access := 3;
    for attempt := 0 to VERIFY_ATTEMPTS
      invariant inserts == attempt + 1 && (conduct.harmless ==> attempt == 0)
      invariant Inserting(db, was, id, row, others, access)
      invariant conduct.savesNoGroups ==> db.groups == groups
    {
      var found := db.InstanceExists(id);
      if found {
        return true, inserts, access;
      }
      GroupsStayWhen(conduct.savesNoGroups, groups, others, id, access);
      GroupsStayWhen(conduct.savesNoGroups, groups, others, id, access + 1);
      GroupsStayWhen(conduct.savesNoGroups, groups, others, id, access + 2);
      LetOthers(db, was, id, row, others, access);
      SaveSingleInstance(db, was, id, row, others, access + 1);
      inserts := inserts + 1;
      LetOthers(db, was, id, row, others, access + 2);
      access := access + 3;
    }
    ok := db.InstanceExists(id);
    accesses := access;
  }

  lemma GroupsStayWhen(savesNoGroups: bool, groups: seq<string>, others: nat -> seq<Op>, id: Id, k: nat)
    requires savesNoGroups == ConductOf(others, id).savesNoGroups
    ensures savesNoGroups ==> GroupsAfter(groups, others(k)) == groups
  {
    if savesNoGroups { GroupsStay(groups, others(k)); }
  }

  /** Where a durable removal stands. */
  ghost predicate Removing(db: StateDB, was: Rows, id: Id, others: nat -> seq<Op>, access: nat)
    reads db
  {
    && OthersAlone(db.rows, was, OthersUpTo(others, access), id)
    && (ConductOf(others, id).harmless ==> id !in db.rows)
  }

  method LetOthersGoOn(db: StateDB, ghost was: Rows, id: Id, others: nat -> seq<Op>, access: nat)
    requires Removing(db, was, id, others, access)
    modifies db
    ensures Removing(db, was, id, others, access + 1)
    ensures db.groups == GroupsAfter(old(db.groups), others(access))
  {
    if ConductOf(others, id).harmless { HarmlessKeeps(db.rows, others(access), id); }
    OthersGoOn(db.rows, was, others, access, id);
    db.Interfere(others(access));
  }

  method DeleteOnce(db: StateDB, ghost was: Rows, id: Id, others: nat -> seq<Op>, access: nat)
    requires OthersAlone(db.rows, was, OthersUpTo(others, access), id)
    modifies db
    ensures Removing(db, was, id, others, access) && db.groups == old(db.groups)
  {
    OwnWriteLeavesOthers(db.rows, was, OthersUpTo(others, access), Delete(id), id);
    db.DeleteInstance(id);
  }

  /** The durable removal, the mirror image: success means the row is gone, failure that someone put it
      back after every one of the seven deletes. */
  method RemoveSessionAndVerify(db: StateDB, id: Id, groups: seq<string>, others: nat -> seq<Op>)
    returns (ok: bool, deletes: nat, ghost accesses: nat)
    modifies db
    ensures ok <==> id !in db.rows
    ensures 1 <= deletes <= 7 && (!ok ==> deletes == 7)
    ensures (forall k :: Harmless(others(k), id)) ==> ok && deletes == 1
    ensures (forall k :: SaveNoGroups(others(k))) ==> db.groups == groups
    ensures forall o :: o != id ==> Cell(db.rows, o) == Cell(Run(old(db.rows), OthersUpTo(others, accesses)), o)
  {
    ghost var was := db.rows;
    ghost var conduct := ConductOf(others, id);
    DeleteOnce(db, was, id, others, 0);
    deletes := 1;
    LetOthersGoOn(db, was, id, others, 0);
    db.ReplaceGroups(groups);
    GroupsStayWhen(conduct.savesNoGroups, groups, others, id, 1);
    LetOthersGoOn(db, was, id, others, 1);
    var access := 2;
    for attempt := 0 to VERIFY_ATTEMPTS
      invariant deletes == attempt + 1 && (conduct.harmless ==> attempt == 0)
      invariant Removing(db, was, id, others, access)
      invariant conduct.savesNoGroups ==> db.groups == groups
    {
      var found := db.InstanceExists(id);
      if !found {
        return true, deletes, access;
      }
      GroupsStayWhen(conduct.savesNoGroups, groups, others, id, access);
      GroupsStayWhen(conduct.savesNoGroups, groups, others, id, access + 1);
      LetOthersGoOn(db, was, id, others, access);
      DeleteOnce(db, was, id, others, access + 1);
      deletes := deletes + 1;
      LetOthersGoOn(db, was, id, others, access + 1);
      access := access + 2;
    }
    var found := db.InstanceExists(id);
    ok := !found;
    accesses := access;
  }

  // ---------- revive ----------

  datatype Class = ClassAlive | ClassDead | ClassErrored

  datatype ReviveOutcome = ReviveOutcome(id: Id, class_: Class, revived: bool)

  datatype ReviveSummary = ReviveSummary(revived: nat, errored: nat, alive: nat, dead: nat)

  datatype Instance = Instance(id: Id, status: SessionStatus)

  function CountClass(outcomes: seq<ReviveOutcome>, c: Class): nat {
    if outcomes == [] then 0
    else CountClass(outcomes[..|outcomes| - 1], c) + if outcomes[|outcomes| - 1].class_ == c then 1 else 0
  }

  /** The outcomes that healed a session, in order. */
  function Healed(outcomes: seq<ReviveOutcome>): seq<ReviveOutcome> {
    if outcomes == [] then []
    else
      var last := outcomes[|outcomes| - 1];
      Healed(outcomes[..|outcomes| - 1]) + if last.class_ == ClassErrored && last.revived then [last] else []
  }

  /** The updates to persist: the healed sessions that the loaded snapshot holds, with their new status. */
  function Updates(healed: seq<ReviveOutcome>, byId: map<Id, Instance>): seq<StatusUpdate> {
    if healed == [] then []
    else
      var last := healed[|healed| - 1];
      Updates(healed[..|healed| - 1], byId)
      + if last.id in byId then [StatusUpdate(last.id, byId[last.id].status)] else []
  }

  function ById(instances: seq<Instance>): map<Id, Instance> {
    if instances == [] then map[]
    else ById(instances[..|instances| - 1])[instances[|instances| - 1].id := instances[|instances| - 1]]
  }

  method IndexById(instances: seq<Instance>) returns (byId: map<Id, Instance>)
    ensures byId == ById(instances)
  {
    byId := map[];
    for i := 0 to |instances|
      invariant byId == ById(instances[..i])
    {
      assert instances[..i + 1][..i] == instances[..i];
      byId := byId[instances[i].id := instances[i]];
    }
    assert instances[..|instances|] == instances;
  }

  /** What one more outcome adds to the counts and to the updates. */
  lemma OutcomeStep(outcomes: seq<ReviveOutcome>, i: nat, byId: map<Id, Instance>)
    requires i < |outcomes|
    ensures var o, before, now := outcomes[i], outcomes[..i], outcomes[..i + 1];
            var heals := o.class_ == ClassErrored && o.revived;
            && (forall c :: CountClass(now, c) == CountClass(before, c) + if o.class_ == c then 1 else 0)
            && Healed(now) == Healed(before) + (if heals then [o] else [])
            && Updates(Healed(now), byId)
               == Updates(Healed(before), byId)
                  + if heals && o.id in byId then [StatusUpdate(o.id, byId[o.id].status)] else []
  {
    var o, before, now := outcomes[i], outcomes[..i], outcomes[..i + 1];
    assert now[..i] == before;
    var healed := Healed(before);
    assert (healed + [o])[..|healed|] == healed && healed + [] == healed;
    assert Updates(healed, byId) + [] == Updates(healed, byId);
  }

  method RunReviveAll(instances: seq<Instance>, outcomes: seq<ReviveOutcome>)
    returns (summary: ReviveSummary, revived: seq<StatusUpdate>)
    ensures summary.alive == CountClass(outcomes, ClassAlive) && summary.dead == CountClass(outcomes, ClassDead)
    ensures summary.errored == CountClass(outcomes, ClassErrored) && summary.revived == |Healed(outcomes)|
    ensures revived == Updates(Healed(outcomes), ById(instances))
  {
    var byId := IndexById(instances);
    summary := ReviveSummary(0, 0, 0, 0);
    revived := [];
    for i := 0 to |outcomes|
      invariant summary.alive == CountClass(outcomes[..i], ClassAlive)
      invariant summary.dead == CountClass(outcomes[..i], ClassDead)
      invariant summary.errored == CountClass(outcomes[..i], ClassErrored)
      invariant summary.revived == |Healed(outcomes[..i])|
      invariant revived == Updates(Healed(outcomes[..i]), byId)
    {
      var o := outcomes[i];
      OutcomeStep(outcomes, i, byId);
      match o.class_ {
        case ClassAlive => summary := summary.(alive := summary.alive + 1);
        case ClassDead => summary := summary.(dead := summary.dead + 1);
        case ClassErrored =>
          summary := summary.(errored := summary.errored + 1);
          if o.revived {
            summary := summary.(revived := summary.revived + 1);
            if o.id in byId {
              revived := revived + [StatusUpdate(o.id, byId[o.id].status)];
            }
          }
      }
    }
    assert outcomes[..|outcomes|] == outcomes;
  }

  /** Revive writes the status of the rows it healed and nothing else: no row appears or disappears, no
      other row changes, and in a healed row every other column keeps what the database holds now, not
      what the snapshot held. */
  method ReviveAndPersist(db: StateDB, instances: seq<Instance>, outcomes: seq<ReviveOutcome>)
    returns (summary: ReviveSummary)
    modifies db`rows
    ensures db.rows == Apply(old(db.rows), SetStatuses(Updates(Healed(outcomes), ById(instances))))
    ensures db.rows.Keys == old(db.rows).Keys
    ensures forall o :: o in Healed(outcomes) && o.id in db.rows && o.id in ById(instances) ==>
                          db.rows[o.id].status == ById(instances)[o.id].status
    ensures forall id :: id in db.rows ==> SameRecord(db.rows[id], old(db.rows)[id])
    ensures forall id :: id in db.rows && (forall o :: o in Healed(outcomes) ==> o.id != id) ==>
                           db.rows[id] == old(db.rows)[id]
  {
    var revived;
    summary, revived := RunReviveAll(instances, outcomes);
    UpdatesNameHealed(Healed(outcomes), ById(instances));
    forall id: Id
      ensures StatusesSet(db.rows, revived).Keys == db.rows.Keys
      ensures id in db.rows ==> SameRecord(StatusesSet(db.rows, revived)[id], db.rows[id])
      ensures id in db.rows && (forall o :: o in Healed(outcomes) ==> o.id != id) ==>
                StatusesSet(db.rows, revived)[id] == db.rows[id]
    {
      StatusesSetCell(db.rows, revived, id);
      if id in db.rows && forall o :: o in Healed(outcomes) ==> o.id != id {
        assert Cell(StatusesSet(db.rows, revived), id)[0] == Cell(db.rows, id)[0];
      }
    }
    forall o | o in Healed(outcomes) && o.id in db.rows && o.id in ById(instances)
      ensures StatusesSet(db.rows, revived)[o.id].status == ById(instances)[o.id].status
    {
      HealedStatusSet(db.rows, Healed(outcomes), ById(instances), o.id);
    }
    if |revived| > 0 {
      db.PersistInstanceStatusesTx(revived);
    }
  }

  lemma StatusesSetLast(rows: Rows, before: seq<StatusUpdate>, u: StatusUpdate)
    ensures StatusesSet(rows, before + [u]) == StatusSet(StatusesSet(rows, before), u)
  {
    assert (before + [u])[..|before|] == before;
  }

  /** A healed session of the snapshot gets the snapshot's status. */
  lemma {:induction false} HealedStatusSet(rows: Rows, healed: seq<ReviveOutcome>, byId: map<Id, Instance>, id: Id)
    requires id in rows && id in byId && exists o :: o in healed && o.id == id
    ensures var end := StatusesSet(rows, Updates(healed, byId));
            id in end && end[id].status == byId[id].status
  {
    var n := |healed| - 1;
    var before, last := Updates(healed[..n], byId), healed[n];
    StatusesSetCell(rows, before, id);
    if last.id in byId {
      StatusesSetLast(rows, before, StatusUpdate(last.id, byId[last.id].status));
    } else {
      assert before + [] == before;
    }
    if last.id != id {
      assert healed == healed[..n] + [last];
      HealedStatusSet(rows, healed[..n], byId, id);
    }
  }

  lemma {:induction false} UpdatesNameHealed(healed: seq<ReviveOutcome>, byId: map<Id, Instance>)
    ensures forall u :: u in Updates(healed, byId) ==> exists o :: o in healed && o.id == u.id
  {
    if healed != [] {
      UpdatesNameHealed(healed[..|healed| - 1], byId);
    }
  }

  // ---------- what an outcome counts for ----------

  /** Every outcome is counted once, in the class it has. */
  lemma {:induction false} ClassesCounted(outcomes: seq<ReviveOutcome>)
    ensures CountClass(outcomes, ClassAlive) + CountClass(outcomes, ClassDead) + CountClass(outcomes, ClassErrored) == |outcomes|
    ensures |Healed(outcomes)| <= CountClass(outcomes, ClassErrored)
    ensures forall c :: CountClass(outcomes, c) == 0 <==> forall o :: o in outcomes ==> o.class_ != c
  {
    if outcomes != [] {
      var n := |outcomes| - 1;
      ClassesCounted(outcomes[..n]);
      assert outcomes == outcomes[..n] + [outcomes[n]];
    }
  }

  /** The healed outcomes are the errored ones that were revived, in order. */
  lemma {:induction false} HealedConcat(a: seq<ReviveOutcome>, b: seq<ReviveOutcome>)
    ensures Healed(a + b) == Healed(a) + Healed(b)
  {
    if b == [] {
      assert a + b == a && Healed(a) + [] == Healed(a);
    } else {
      var n := |b| - 1;
      assert (a + b)[..|a + b| - 1] == a + b[..n];
      HealedConcat(a, b[..n]);
    }
  }

  lemma HealedOne(o: ReviveOutcome)
    ensures Healed([o]) == if o.class_ == ClassErrored && o.revived then [o] else []
  {
    assert [o][..0] == [];
  }

  /** Every healed session that the snapshot holds gets the status it has there, and no other. */
  lemma {:induction false} UpdatesAre(healed: seq<ReviveOutcome>, byId: map<Id, Instance>)
    ensures forall o :: o in healed && o.id in byId ==> StatusUpdate(o.id, byId[o.id].status) in Updates(healed, byId)
    ensures forall u :: u in Updates(healed, byId) ==> u.id in byId && u.status == byId[u.id].status
    ensures |Updates(healed, byId)| <= |healed|
  {
    if healed != [] {
      var n := |healed| - 1;
      UpdatesAre(healed[..n], byId);
      assert healed == healed[..n] + [healed[n]];
    }
  }

  lemma {:induction false} ByIdMeans(instances: seq<Instance>)
    ensures forall x :: x in instances ==> x.id in ById(instances)
    ensures forall id :: id in ById(instances) ==> ById(instances)[id] in instances && ById(instances)[id].id == id
  {
    if instances != [] {
      var n := |instances| - 1;
      ByIdMeans(instances[..n]);
      assert instances == instances[..n] + [instances[n]];
    }
  }

  // ---------- removal, in place ----------

  function Without(s: seq<Instance>, id: Id): seq<Instance> {
    if s == [] then []
    else Without(s[..|s| - 1], id) + if s[|s| - 1].id != id then [s[|s| - 1]] else []
  }

  function NotErrored(s: seq<Instance>): seq<Instance> {
    if s == [] then []
    else NotErrored(s[..|s| - 1]) + if s[|s| - 1].status != Error then [s[|s| - 1]] else []
  }

  function ErroredIds(s: seq<Instance>): seq<Id> {
    if s == [] then []
    else ErroredIds(s[..|s| - 1]) + if s[|s| - 1].status == Error then [s[|s| - 1].id] else []
  }

  /** What stays and what goes, each in order: two lists after each other are sorted one after the other, and each
      session by its own status or id. */
  lemma {:induction false} NotErroredConcat(a: seq<Instance>, b: seq<Instance>)
    ensures NotErrored(a + b) == NotErrored(a) + NotErrored(b)
  {
    if b == [] {
      assert a + b == a && NotErrored(a) + [] == NotErrored(a);
    } else {
      var n := |b| - 1;
      assert (a + b)[..|a + b| - 1] == a + b[..n];
      NotErroredConcat(a, b[..n]);
    }
  }

  lemma {:induction false} ErroredIdsConcat(a: seq<Instance>, b: seq<Instance>)
    ensures ErroredIds(a + b) == ErroredIds(a) + ErroredIds(b)
  {
    if b == [] {
      assert a + b == a && ErroredIds(a) + [] == ErroredIds(a);
    } else {
      var n := |b| - 1;
      assert (a + b)[..|a + b| - 1] == a + b[..n];
      ErroredIdsConcat(a, b[..n]);
    }
  }

  lemma {:induction false} WithoutConcat(a: seq<Instance>, b: seq<Instance>, id: Id)
    ensures Without(a + b, id) == Without(a, id) + Without(b, id)
  {
    if b == [] {
      assert a + b == a && Without(a, id) + [] == Without(a, id);
    } else {
      var n := |b| - 1;
      assert (a + b)[..|a + b| - 1] == a + b[..n];
      WithoutConcat(a, b[..n], id);
    }
  }

  lemma SortedOne(x: Instance, id: Id)
    ensures NotErrored([x]) == if x.status == Error then [] else [x]
    ensures ErroredIds([x]) == if x.status == Error then [x.id] else []
    ensures Without([x], id) == if x.id == id then [] else [x]
  {
    assert [x][..0] == [];
  }

  /** The kept instances are packed at the front of the same array, which the reads are always ahead
      of the writes. */
  method DropInstance(instances: array<Instance>, id: Id) returns (n: nat)
    modifies instances
    ensures n <= instances.Length && instances[..n] == Without(old(instances[..]), id)
  {
    n := 0;
    for i := 0 to instances.Length
      invariant n <= i && instances[..n] == Without(old(instances[..])[..i], id)
      invariant instances[i..] == old(instances[..])[i..]
    {
      ghost var was := old(instances[..]);
      assert was[..i + 1][..i] == was[..i];
      var inst := instances[i];
      assert inst == instances[i..][0] == was[i];
      assert instances[i..][1..] == was[i..][1..];
      if inst.id != id {
        instances[n] := inst;
        n := n + 1;
      }
    }
    assert old(instances[..])[..instances.Length] == old(instances[..]);
  }

  /** What other processes write while errored sessions are removed: after the delete of session `k`, after the
      groups are saved, and during and after the final check of the `k`-th removed session. */
  datatype Meanwhile = Meanwhile(
    afterDelete: nat -> seq<Op>,
    afterGroups: seq<Op>,
    duringCheck: nat -> seq<Op>,
    afterCheck: nat -> seq<Op>)

  lemma {:induction false} RunConcat(rows: Rows, a: seq<Op>, b: seq<Op>)
    ensures Run(rows, a + b) == Run(Run(rows, a), b)
  {
    if b == [] {
      assert a + b == a;
    } else {
      var n := |b| - 1;
      assert (a + b)[..|a + b| - 1] == a + b[..n];
      RunConcat(rows, a, b[..n]);
    }
  }

  lemma RunOne(rows: Rows, op: Op)
    ensures Run(rows, [op]) == Apply(rows, op)
  {
    assert [op][..0] == [];
  }

  /** All writes of the first pass, of this process and the others, in order. */
  function DeleteLog(s: seq<Instance>, others: Meanwhile): seq<Op> {
    if s == [] then []
    else
      var n := |s| - 1;
      DeleteLog(s[..n], others) + if s[n].status == Error then [Delete(s[n].id)] + others.afterDelete(n) else []
  }

  /** All writes of the final checks: a session found again is deleted again. */
  function CheckLog(rows: Rows, ids: seq<Id>, n: nat, others: Meanwhile): seq<Op>
    requires n <= |ids|
  {
    if n == 0 then []
    else
      var before := CheckLog(rows, ids, n - 1, others);
      before + CheckWrites(Run(rows, before), ids[n - 1], n - 1, others)
  }

  function CheckWrites(rows: Rows, id: Id, k: nat, others: Meanwhile): seq<Op> {
    others.duringCheck(k) + (if id in rows then [Delete(id)] else []) + others.afterCheck(k)
  }

  /** All writes from the first delete to the last check. */
  function RemovalLog(rows: Rows, s: seq<Instance>, groups: seq<string>, others: Meanwhile): seq<Op> {
    var before := DeleteLog(s, others) + [SaveGroups(groups)] + others.afterGroups;
    before + CheckLog(Run(rows, before), ErroredIds(s), |ErroredIds(s)|, others)
  }

  ghost predicate ChecksSaveNoGroups(others: Meanwhile) {
    forall k :: SaveNoGroups(others.duringCheck(k)) && SaveNoGroups(others.afterCheck(k))
  }

  method CheckRemoved(db: StateDB, id: Id, k: nat, others: Meanwhile)
    modifies db
    ensures db.rows == Run(old(db.rows), CheckWrites(old(db.rows), id, k, others))
    ensures ChecksSaveNoGroups(others) ==> db.groups == old(db.groups)
  {
    ghost var was := db.rows;
    ghost var own := if id in db.rows then [Delete(id)] else [];
    RunConcat(was, others.duringCheck(k), own);
    RunConcat(was, others.duringCheck(k) + own, others.afterCheck(k));
    RunOne(Run(was, others.duringCheck(k)), Delete(id));
    if ChecksSaveNoGroups(others) {
      GroupsStay(db.groups, others.duringCheck(k));
      GroupsStay(db.groups, others.afterCheck(k));
    }
    var found := db.InstanceExists(id);
    db.Interfere(others.duringCheck(k));
    if found {
      db.DeleteInstance(id);
    }
    db.Interfere(others.afterCheck(k));
  }

  /** The final check of each removed session, in turn: one that was put back meanwhile is deleted again. */
  method CheckAllRemoved(db: StateDB, ids: seq<Id>, others: Meanwhile)
    modifies db
    ensures db.rows == Run(old(db.rows), CheckLog(old(db.rows), ids, |ids|, others))
    ensures ChecksSaveNoGroups(others) ==> db.groups == old(db.groups)
  {
    for i := 0 to |ids|
      invariant ChecksSaveNoGroups(others) ==> db.groups == old(db.groups)
      invariant db.rows == Run(old(db.rows), CheckLog(old(db.rows), ids, i, others))
    {
      RunConcat(old(db.rows), CheckLog(old(db.rows), ids, i, others), CheckWrites(db.rows, ids[i], i, others));
      CheckRemoved(db, ids[i], i, others);
    }
  }

  lemma DeleteLogStep(rows: Rows, s: seq<Instance>, i: nat, others: Meanwhile)
    requires i < |s|
    ensures Run(rows, DeleteLog(s[..i + 1], others))
            == if s[i].status == Error then Run(Apply(Run(rows, DeleteLog(s[..i], others)), Delete(s[i].id)), others.afterDelete(i))
               else Run(rows, DeleteLog(s[..i], others))
  {
    assert s[..i + 1][..i] == s[..i];
    var before := DeleteLog(s[..i], others);
    if s[i].status == Error {
      RunConcat(rows, before, [Delete(s[i].id)] + others.afterDelete(i));
      RunConcat(Run(rows, before), [Delete(s[i].id)], others.afterDelete(i));
      RunOne(Run(rows, before), Delete(s[i].id));
    } else {
      assert before + [] == before;
    }
  }

  /** The `n` instances kept of the first `i` stand in front, and the rest of the array is as it was. */
  ghost predicate Packed(instances: array<Instance>, was: seq<Instance>, i: nat, n: nat)
    reads instances
  {
    && |was| == instances.Length && n <= i <= instances.Length
    && instances[..n] == NotErrored(was[..i])
    && forall k :: i <= k < instances.Length ==> instances[k] == was[k]
  }

  method Pack(instances: array<Instance>, i: nat, n: nat, ghost was: seq<Instance>)
    requires i < instances.Length && Packed(instances, was, i, n) && was[i].status != Error
    modifies instances
    ensures Packed(instances, was, i + 1, n + 1)
  {
    instances[n] := instances[i];
    assert was[..i + 1][..i] == was[..i];
    assert instances[..n + 1] == old(instances[..n]) + [was[i]];
  }

  lemma ErroredLeavesPacked(instances: array<Instance>, i: nat, n: nat, was: seq<Instance>)
    requires i < instances.Length && Packed(instances, was, i, n) && was[i].status == Error
    ensures Packed(instances, was, i + 1, n)
  {
    assert was[..i + 1][..i] == was[..i];
    assert NotErrored(was[..i]) + [] == NotErrored(was[..i]);
  }

  lemma ErroredIdsStep(s: seq<Instance>, i: nat)
    requires i < |s|
    ensures ErroredIds(s[..i + 1]) == ErroredIds(s[..i]) + if s[i].status == Error then [s[i].id] else []
  {
    assert s[..i + 1][..i] == s[..i];
  }

  /** One pass over the snapshot: errored sessions are deleted, the others packed in place. */
  method DeleteErrored(db: StateDB, instances: array<Instance>, others: Meanwhile)
    returns (remaining: nat, removed: seq<Id>)
    modifies db, instances
    ensures removed == ErroredIds(old(instances[..]))
    ensures remaining <= instances.Length && instances[..remaining] == NotErrored(old(instances[..]))
    ensures db.rows == Run(old(db.rows), DeleteLog(old(instances[..]), others))
  {
    remaining, removed := 0, [];
    ghost var was := instances[..];
    for i := 0 to instances.Length
      invariant Packed(instances, was, i, remaining)
      invariant removed == ErroredIds(was[..i])
      invariant db.rows == Run(old(db.rows), DeleteLog(was[..i], others))
    {
      DeleteLogStep(old(db.rows), was, i, others);
      ErroredIdsStep(was, i);
      var inst := instances[i];
      if inst.status == Error {
        db.DeleteInstance(inst.id);
        db.Interfere(others.afterDelete(i));
        removed := removed + [inst.id];
        ErroredLeavesPacked(instances, i, remaining, was);
      } else {
        Pack(instances, i, remaining, was);
        remaining := remaining + 1;
      }
    }
    assert was[..instances.Length] == was;
  }

  /** The bulk removal, with other processes at work after every access. The table ends as all writes, in
      order, leave it; the rest of the snapshot is packed in place. */
  method RemoveAllErrored(db: StateDB, instances: array<Instance>, groups: seq<string>, others: Meanwhile)
    returns (remaining: nat, removed: seq<Id>)
    modifies db, instances
    ensures removed == ErroredIds(old(instances[..]))
    ensures remaining <= instances.Length && instances[..remaining] == NotErrored(old(instances[..]))
    ensures db.rows == Run(old(db.rows), RemovalLog(old(db.rows), old(instances[..]), groups, others))
    ensures ChecksSaveNoGroups(others) && SaveNoGroups(others.afterGroups) ==> db.groups == groups
  {
    if SaveNoGroups(others.afterGroups) { GroupsStay(groups, others.afterGroups); }
    ghost var rows, s := db.rows, instances[..];
    ghost var deletes := DeleteLog(s, others);
    ghost var before := deletes + [SaveGroups(groups)] + others.afterGroups;
    RunConcat(rows, deletes, [SaveGroups(groups)]);
    RunConcat(rows, deletes + [SaveGroups(groups)], others.afterGroups);
    RunOne(Run(rows, deletes), SaveGroups(groups));
    RunConcat(rows, before, CheckLog(Run(rows, before), ErroredIds(s), |ErroredIds(s)|, others));
    remaining, removed := DeleteErrored(db, instances, others);
    db.ReplaceGroups(groups);
    db.Interfere(others.afterGroups);
    CheckAllRemoved(db, removed, others);
  }

  // ---------- what the bulk removal achieves ----------

  predicate AllTargeted(ops: seq<Op>) {
    forall op :: op in ops ==> Targeted(op)
  }

  /** The other processes write through targeted operations only. */
  ghost predicate TargetedMeanwhile(others: Meanwhile) {
    && AllTargeted(others.afterGroups)
    && forall k :: AllTargeted(others.afterDelete(k)) && AllTargeted(others.duringCheck(k)) && AllTargeted(others.afterCheck(k))
  }

  /** The last operation about `id` saves it. */
  predicate PutBack(ops: seq<Op>, id: Id) {
    LastDecision(ops, id) >= 0 && ops[LastDecision(ops, id)].Upsert?
  }

  lemma TargetedConcat(a: seq<Op>, b: seq<Op>)
    requires AllTargeted(a) && AllTargeted(b)
    ensures AllTargeted(a + b)
  {
  }

  lemma CheckWritesTargeted(rows: Rows, id: Id, k: nat, others: Meanwhile)
    requires TargetedMeanwhile(others)
    ensures AllTargeted(CheckWrites(rows, id, k, others))
  {
    var own := if id in rows then [Delete(id)] else [];
    assert AllTargeted(others.duringCheck(k)) && AllTargeted(others.afterCheck(k)) && AllTargeted(own);
    TargetedConcat(others.duringCheck(k), own);
    TargetedConcat(others.duringCheck(k) + own, others.afterCheck(k));
  }

  lemma CheckLogStepTargeted(rows: Rows, ids: seq<Id>, n: nat, others: Meanwhile)
    requires 0 < n <= |ids| && TargetedMeanwhile(others) && AllTargeted(CheckLog(rows, ids, n - 1, others))
    ensures AllTargeted(CheckLog(rows, ids, n, others))
  {
    var before := CheckLog(rows, ids, n - 1, others);
    var writes := CheckWrites(Run(rows, before), ids[n - 1], n - 1, others);
    CheckWritesTargeted(Run(rows, before), ids[n - 1], n - 1, others);
    TargetedConcat(before, writes);
    assert CheckLog(rows, ids, n, others) == before + writes;
  }

  lemma {:induction false} CheckLogTargeted(rows: Rows, ids: seq<Id>, n: nat, others: Meanwhile)
    requires n <= |ids| && TargetedMeanwhile(others)
    ensures AllTargeted(CheckLog(rows, ids, n, others))
  {
    if n > 0 {
      CheckLogTargeted(rows, ids, n - 1, others);
      CheckLogStepTargeted(rows, ids, n, others);
    }
  }

  lemma {:induction false} DeleteLogTargeted(s: seq<Instance>, others: Meanwhile)
    requires TargetedMeanwhile(others)
    ensures AllTargeted(DeleteLog(s, others))
  {
    if s != [] {
      var n := |s| - 1;
      DeleteLogTargeted(s[..n], others);
      assert AllTargeted(others.afterDelete(n));
      if s[n].status == Error {
        TargetedConcat([Delete(s[n].id)], others.afterDelete(n));
        TargetedConcat(DeleteLog(s[..n], others), [Delete(s[n].id)] + others.afterDelete(n));
      } else {
        assert DeleteLog(s[..n], others) + [] == DeleteLog(s[..n], others);
      }
    }
  }

  lemma {:induction false} CheckLogGrows(rows: Rows, ids: seq<Id>, m: nat, n: nat, others: Meanwhile)
    requires m <= n <= |ids|
    ensures |CheckLog(rows, ids, m, others)| <= |CheckLog(rows, ids, n, others)|
    ensures CheckLog(rows, ids, n, others)[..|CheckLog(rows, ids, m, others)|] == CheckLog(rows, ids, m, others)
  {
    if m < n {
      CheckLogGrows(rows, ids, m, n - 1, others);
    }
  }

  /** The writes from the final check of the `k`-th removed session on. */
  function SinceCheck(rows: Rows, ids: seq<Id>, k: nat, others: Meanwhile): seq<Op>
    requires k < |ids|
  {
    CheckLogGrows(rows, ids, k, |ids|, others);
    CheckLog(rows, ids, |ids|, others)[|CheckLog(rows, ids, k, others)|..]
  }

  lemma {:induction false} LastDecisionExists(ops: seq<Op>, id: Id, j: nat)
    requires j < |ops| && Decides(ops[j], id)
    ensures LastDecision(ops, id) >= j
  {
  }

  /** If the check finds the session again, its own delete is among the writes since. */
  lemma FoundIsDeleted(rows: Rows, ids: seq<Id>, k: nat, others: Meanwhile)
    requires k < |ids| && ids[k] in Run(rows, CheckLog(rows, ids, k, others))
    ensures LastDecision(SinceCheck(rows, ids, k, others), ids[k]) >= 0
  {
    var before := CheckLog(rows, ids, k, others);
    var writes := CheckWrites(Run(rows, before), ids[k], k, others);
    CheckLogGrows(rows, ids, k, |ids|, others);
    CheckLogGrows(rows, ids, k + 1, |ids|, others);
    var since, at := SinceCheck(rows, ids, k, others), |others.duringCheck(k)|;
    var log := CheckLog(rows, ids, |ids|, others);
    assert log[..|before + writes|] == before + writes;
    assert since[at] == log[|before| + at] == (before + writes)[|before| + at] == writes[at] == Delete(ids[k]);
    LastDecisionExists(since, ids[k], at);
  }

  /** When a removed session is gone, exactly: unless another process put it back after its own final check
      and nobody deleted it since. A check that comes early leaves room for that. */
  lemma GoneUnlessPutBack(rows: Rows, ids: seq<Id>, k: nat, others: Meanwhile)
    requires k < |ids| && TargetedMeanwhile(others)
    ensures ids[k] !in Run(rows, CheckLog(rows, ids, |ids|, others)) <==> !PutBack(SinceCheck(rows, ids, k, others), ids[k])
  {
    var before, log := CheckLog(rows, ids, k, others), CheckLog(rows, ids, |ids|, others);
    CheckLogGrows(rows, ids, k, |ids|, others);
    CheckLogTargeted(rows, ids, |ids|, others);
    var since := SinceCheck(rows, ids, k, others);
    assert log == before + since;
    RunConcat(rows, before, since);
    LastDecisionCounts(Run(rows, before), since, ids[k]);
    if ids[k] in Run(rows, before) {
      FoundIsDeleted(rows, ids, k, others);
    }
  }

  /** The others leave the existence of `id` alone while the checks run. */
  ghost predicate HarmlessChecks(others: Meanwhile, id: Id) {
    forall k :: Harmless(others.duringCheck(k), id) && Harmless(others.afterCheck(k), id)
  }

  lemma {:induction false} NoUpsertInChecks(rows: Rows, ids: seq<Id>, n: nat, others: Meanwhile, id: Id)
    requires n <= |ids| && HarmlessChecks(others, id)
    ensures forall op :: op in CheckLog(rows, ids, n, others) ==> Decides(op, id) ==> op == Delete(id)
  {
    if n > 0 {
      NoUpsertInChecks(rows, ids, n - 1, others, id);
    }
  }

  /** In particular every removed session that the others leave alone during the checks is gone, also one that
      was put back before. */
  lemma GoneWhenLeftAlone(rows: Rows, ids: seq<Id>, k: nat, others: Meanwhile)
    requires k < |ids| && TargetedMeanwhile(others) && HarmlessChecks(others, ids[k])
    ensures ids[k] !in Run(rows, CheckLog(rows, ids, |ids|, others))
  {
    GoneUnlessPutBack(rows, ids, k, others);
    NoUpsertInChecks(rows, ids, |ids|, others, ids[k]);
    CheckLogGrows(rows, ids, k, |ids|, others);
    var since, log := SinceCheck(rows, ids, k, others), CheckLog(rows, ids, |ids|, others);
    assert forall op :: op in since ==> op in log;
  }

  /** So for the whole removal: every session that the snapshot shows errored is gone at the end, unless another
      process put it back after its own final check and nobody deleted it since. */
  lemma ErroredGoneUnlessPutBack(rows: Rows, s: seq<Instance>, groups: seq<string>, others: Meanwhile, k: nat)
    requires k < |ErroredIds(s)| && TargetedMeanwhile(others)
    ensures var checked := Run(rows, DeleteLog(s, others) + [SaveGroups(groups)] + others.afterGroups);
            ErroredIds(s)[k] !in Run(rows, RemovalLog(rows, s, groups, others))
            <==> !PutBack(SinceCheck(checked, ErroredIds(s), k, others), ErroredIds(s)[k])
  {
    var ids := ErroredIds(s);
    var before := DeleteLog(s, others) + [SaveGroups(groups)] + others.afterGroups;
    var checked := Run(rows, before);
    GoneUnlessPutBack(checked, ids, k, others);
    RunConcat(rows, before, CheckLog(checked, ids, |ids|, others));
  }

  /** Checking every session once is not enough: one put back while a later one is being checked stays. */
  lemma PutBackAfterOwnCheck(rows: Rows, a: Save, b: Id, others: Meanwhile)
    requires a.id !in rows && b !in rows && a.id != b
    requires others.duringCheck(0) == [] && others.afterCheck(0) == [Upsert(a)]
    requires others.duringCheck(1) == [] && others.afterCheck(1) == []
    ensures a.id in Run(rows, CheckLog(rows, [a.id, b], 2, others))
  {
    var ids := [a.id, b];
    assert CheckWrites(rows, a.id, 0, others) == [Upsert(a)];
    assert CheckLog(rows, ids, 0, others) == [] && Run(rows, []) == rows;
    assert CheckLog(rows, ids, 1, others) == [] + [Upsert(a)] == [Upsert(a)];
    RunOne(rows, Upsert(a));
    assert CheckWrites(Run(rows, [Upsert(a)]), b, 1, others) == [];
    assert CheckLog(rows, ids, 2, others) == [Upsert(a)] + [] == [Upsert(a)];
  }

  /** The writes of the others alone, in order. */
  function OthersDelete(s: seq<Instance>, others: Meanwhile): seq<Op> {
    if s == [] then []
    else OthersDelete(s[..|s| - 1], others) + if s[|s| - 1].status == Error then others.afterDelete(|s| - 1) else []
  }

  function OthersCheck(n: nat, others: Meanwhile): seq<Op> {
    if n == 0 then [] else OthersCheck(n - 1, others) + (others.duringCheck(n - 1) + others.afterCheck(n - 1))
  }

  lemma {:induction false} AboutConcat(a: seq<Op>, b: seq<Op>, id: Id)
    ensures About(a + b, id) == About(a, id) + About(b, id)
  {
    if b == [] {
      assert a + b == a && About(a, id) + [] == About(a, id);
    } else {
      var n := |b| - 1;
      assert (a + b)[..|a + b| - 1] == a + b[..n];
      AboutConcat(a, b[..n], id);
      var last := if Touches(b[n], id) then [b[n]] else [];
      assert About(a, id) + (About(b[..n], id) + last) == (About(a, id) + About(b[..n], id)) + last;
    }
  }

  lemma OwnIsNotAbout(op: Op, id: Id)
    requires op.SaveGroups? || (op.Delete? && op.id != id)
    ensures About([op], id) == []
  {
    assert [op][..0] == [];
  }

  lemma {:induction false} DeletesAbout(s: seq<Instance>, others: Meanwhile, id: Id)
    requires id !in ErroredIds(s)
    ensures About(DeleteLog(s, others), id) == About(OthersDelete(s, others), id)
  {
    if s != [] {
      var n := |s| - 1;
      assert forall x :: x in ErroredIds(s[..n]) ==> x in ErroredIds(s);
      DeletesAbout(s[..n], others, id);
      if s[n].status == Error {
        assert s[n].id == ErroredIds(s)[|ErroredIds(s)| - 1];
        OwnIsNotAbout(Delete(s[n].id), id);
        AboutConcat([Delete(s[n].id)], others.afterDelete(n), id);
        AboutConcat(DeleteLog(s[..n], others), [Delete(s[n].id)] + others.afterDelete(n), id);
        AboutConcat(OthersDelete(s[..n], others), others.afterDelete(n), id);
        assert [] + About(others.afterDelete(n), id) == About(others.afterDelete(n), id);
      } else {
        assert DeleteLog(s[..n], others) + [] == DeleteLog(s[..n], others);
        assert OthersDelete(s[..n], others) + [] == OthersDelete(s[..n], others);
      }
    }
  }

  lemma CheckAbout(rows: Rows, checked: Id, k: nat, others: Meanwhile, id: Id)
    requires id != checked
    ensures About(CheckWrites(rows, checked, k, others), id) == About(others.duringCheck(k) + others.afterCheck(k), id)
  {
    var own := if checked in rows then [Delete(checked)] else [];
    if checked in rows {
      OwnIsNotAbout(Delete(checked), id);
    }
    AboutConcat(others.duringCheck(k), own, id);
    AboutConcat(others.duringCheck(k) + own, others.afterCheck(k), id);
    AboutConcat(others.duringCheck(k), others.afterCheck(k), id);
    assert About(others.duringCheck(k), id) + [] == About(others.duringCheck(k), id);
  }

  lemma {:induction false} ChecksAbout(rows: Rows, ids: seq<Id>, n: nat, others: Meanwhile, id: Id)
    requires n <= |ids| && id !in ids
    ensures About(CheckLog(rows, ids, n, others), id) == About(OthersCheck(n, others), id)
  {
    if n > 0 {
      var before := CheckLog(rows, ids, n - 1, others);
      ChecksAbout(rows, ids, n - 1, others, id);
      CheckAbout(Run(rows, before), ids[n - 1], n - 1, others, id);
      AboutConcat(before, CheckWrites(Run(rows, before), ids[n - 1], n - 1, others), id);
      AboutConcat(OthersCheck(n - 1, others), others.duringCheck(n - 1) + others.afterCheck(n - 1), id);
    }
  }

  function OthersLog(s: seq<Instance>, others: Meanwhile): seq<Op> {
    OthersDelete(s, others) + others.afterGroups + OthersCheck(|ErroredIds(s)|, others)
  }

  lemma RemovalAbout(rows: Rows, s: seq<Instance>, groups: seq<string>, others: Meanwhile, id: Id)
    requires id !in ErroredIds(s)
    ensures About(RemovalLog(rows, s, groups, others), id) == About(OthersLog(s, others), id)
  {
    var deletes, n := DeleteLog(s, others), |ErroredIds(s)|;
    var before := deletes + [SaveGroups(groups)] + others.afterGroups;
    DeletesAbout(s, others, id);
    OwnIsNotAbout(SaveGroups(groups), id);
    ChecksAbout(Run(rows, before), ErroredIds(s), n, others, id);
    AboutConcat(deletes, [SaveGroups(groups)], id);
    AboutConcat(deletes + [SaveGroups(groups)], others.afterGroups, id);
    AboutConcat(before, CheckLog(Run(rows, before), ErroredIds(s), n, others), id);
    AboutConcat(OthersDelete(s, others), others.afterGroups, id);
    AboutConcat(OthersDelete(s, others) + others.afterGroups, OthersCheck(n, others), id);
    assert About(deletes, id) + [] == About(deletes, id);
  }

  lemma {:induction false} OthersCheckTargeted(n: nat, others: Meanwhile)
    requires TargetedMeanwhile(others)
    ensures AllTargeted(OthersCheck(n, others))
  {
    if n > 0 {
      OthersCheckTargeted(n - 1, others);
      assert AllTargeted(others.duringCheck(n - 1)) && AllTargeted(others.afterCheck(n - 1));
      TargetedConcat(others.duringCheck(n - 1), others.afterCheck(n - 1));
      TargetedConcat(OthersCheck(n - 1, others), others.duringCheck(n - 1) + others.afterCheck(n - 1));
    }
  }

  lemma {:induction false} OthersDeleteTargeted(s: seq<Instance>, others: Meanwhile)
    requires TargetedMeanwhile(others)
    ensures AllTargeted(OthersDelete(s, others))
  {
    if s != [] {
      OthersDeleteTargeted(s[..|s| - 1], others);
      assert AllTargeted(others.afterDelete(|s| - 1));
      TargetedConcat(OthersDelete(s[..|s| - 1], others), others.afterDelete(|s| - 1));
      assert OthersDelete(s[..|s| - 1], others) + [] == OthersDelete(s[..|s| - 1], others);
    }
  }

  lemma LogsTargeted(rows: Rows, s: seq<Instance>, groups: seq<string>, others: Meanwhile)
    requires TargetedMeanwhile(others)
    ensures AllTargeted(RemovalLog(rows, s, groups, others)) && AllTargeted(OthersLog(s, others))
  {
    var deletes := DeleteLog(s, others);
    var before := deletes + [SaveGroups(groups)] + others.afterGroups;
    DeleteLogTargeted(s, others);
    CheckLogTargeted(Run(rows, before), ErroredIds(s), |ErroredIds(s)|, others);
    TargetedConcat(deletes, [SaveGroups(groups)]);
    TargetedConcat(deletes + [SaveGroups(groups)], others.afterGroups);
    TargetedConcat(before, CheckLog(Run(rows, before), ErroredIds(s), |ErroredIds(s)|, others));
    OthersDeleteTargeted(s, others);
    OthersCheckTargeted(|ErroredIds(s)|, others);
    TargetedConcat(OthersDelete(s, others), others.afterGroups);
    TargetedConcat(OthersDelete(s, others) + others.afterGroups, OthersCheck(|ErroredIds(s)|, others));
  }

  /** Every other row, also one the snapshot never saw, ends as the other processes alone would have left it. */
  lemma RemovalTouchesOnlyErrored(rows: Rows, s: seq<Instance>, groups: seq<string>, others: Meanwhile, id: Id)
    requires TargetedMeanwhile(others) && id !in ErroredIds(s)
    ensures Cell(Run(rows, RemovalLog(rows, s, groups, others)), id) == Cell(Run(rows, OthersLog(s, others)), id)
  {
    LogsTargeted(rows, s, groups, others);
    RowsAreIndependent(rows, RemovalLog(rows, s, groups, others), id);
    RowsAreIndependent(rows, OthersLog(s, others), id);
    RemovalAbout(rows, s, groups, others, id);
  }
}
