/** What a save made from an old view of the table undoes. A save of one row reads that row and replaces it
    in a second statement; the full rewrite reads its rows before its transaction, and its payload is the
    snapshot its process loaded. Other processes write in between. */
module StaleSaves {
  import opened SessionTypes
  import opened SessionRows

  // ---------- the rewrite, row by row ----------

  /** The place of the last save of `id` in a payload; -1 when there is none. */
  function LastIn(saves: seq<Save>, id: Id): (k: int)
    ensures -1 <= k < |saves|
    ensures k >= 0 ==> saves[k].id == id
    ensures forall j :: k < j < |saves| ==> saves[j].id != id
  {
    if saves == [] then -1
    else if saves[|saves| - 1].id == id then |saves| - 1
    else LastIn(saves[..|saves| - 1], id)
  }

  lemma LastInMeans(saves: seq<Save>, id: Id)
    ensures LastIn(saves, id) >= 0 <==> id in SavedIds(saves)
  {
    var k := LastIn(saves, id);
    assert k >= 0 ==> saves[k] in saves;
  }

  /** What the payload makes of row `id`. */
  function PayloadCell(saves: seq<Save>, id: Id): seq<Row> {
    if LastIn(saves, id) >= 0 then [Stored(saves[LastIn(saves, id)])] else []
  }

  lemma {:induction false} UpsertedAllCell(rows: Rows, saves: seq<Save>, id: Id)
    ensures Cell(UpsertedAll(rows, saves), id) ==
            if LastIn(saves, id) >= 0 then PayloadCell(saves, id) else Cell(rows, id)
  {
    if saves != [] {
      UpsertedAllCell(rows, saves[..|saves| - 1], id);
    }
  }

  lemma RewrittenCell(rows: Rows, saves: seq<Save>, id: Id)
    requires saves != []
    ensures Cell(Rewritten(rows, saves), id) == PayloadCell(saves, id)
  {
    LastInMeans(saves, id);
    UpsertedAllCell(map i | i in rows && i in SavedIds(saves) :: rows[i], saves, id);
  }

  /** What a rewrite keeps, exactly: a row survives unchanged only when the payload has it just as the table
      does. A row the payload lacks is lost, and one it has in an older state is put back into that state. */
  lemma RewriteKeepsRowIff(rows: Rows, saves: seq<Save>, id: Id)
    requires id in rows
    ensures var end := Apply(rows, Rewrite(saves));
            id in end && end[id] == rows[id] <==>
            saves == [] || (id in SavedIds(saves) && Stored(saves[LastIn(saves, id)]) == rows[id])
  {
    LastInMeans(saves, id);
    if saves != [] {
      RewrittenCell(rows, saves, id);
      var end := Apply(rows, Rewrite(saves));
      assert id in end <==> Cell(end, id) != [];
      assert id in end ==> Cell(end, id)[0] == end[id];
    }
  }

  /** A rewrite leaves the other processes' rows alone. */
  ghost predicate TouchesOnly(rows: Rows, saves: seq<Save>, own: Id) {
    forall id :: id != own ==> Cell(Apply(rows, Rewrite(saves)), id) == Cell(rows, id)
  }

  /** When that is so: no other row is missing from the payload, none is in an older state there, and none
      is there that others have removed. */
  lemma RewriteTouchesOnlyIff(rows: Rows, saves: seq<Save>, own: Id)
    requires saves != []
    ensures TouchesOnly(rows, saves, own) <==> forall id :: id != own ==> PayloadCell(saves, id) == Cell(rows, id)
  {
    forall id: Id
      ensures Cell(Apply(rows, Rewrite(saves)), id) == PayloadCell(saves, id)
    {
      RewrittenCell(rows, saves, id);
    }
  }

  /** The payload of a command that loaded `loaded` and changes session `own`, when its rewrite reads `rows`. */
  ghost predicate SnapshotPayload(saves: seq<Save>, loaded: Rows, rows: Rows, own: Id) {
    && SavedIds(saves) == loaded.Keys && own in loaded
    && forall s :: s in saves ==> s.seen == SeenIn(rows, s.id) && (s.id != own ==> s.row == loaded[s.id])
  }

  /** Writing `was` back leaves the row as it is now. A save clears the acknowledgement, so an acknowledged
      row is never left as it is. */
  predicate StillCurrent(was: Row, now: Row) {
    && SameRecord(was, now) && was.status == now.status && !now.acknowledged
    && (now.autoName ==> was.autoName)
    && (was.autoNameDescription == "" || was.autoNameDescription == now.autoNameDescription)
  }

  lemma StoredIsCurrentIff(id: Id, was: Row, now: Row)
    ensures Stored(Save(id, was, SeenRow(now.autoName, now.autoNameDescription))) == now <==> StillCurrent(was, now)
  {
  }

  lemma SnapshotCell(saves: seq<Save>, loaded: Rows, rows: Rows, own: Id, id: Id)
    requires SnapshotPayload(saves, loaded, rows, own) && id != own
    ensures PayloadCell(saves, id) == Cell(rows, id) <==>
            (id in loaded <==> id in rows) && (id in loaded && id in rows ==> StillCurrent(loaded[id], rows[id]))
  {
    LastInMeans(saves, id);
    var k := LastIn(saves, id);
    if k >= 0 {
      assert saves[k] in saves;
      if id in rows {
        assert saves[k] == Save(id, loaded[id], SeenRow(rows[id].autoName, rows[id].autoNameDescription));
        StoredIsCurrentIff(id, loaded[id], rows[id]);
        assert PayloadCell(saves, id) == Cell(rows, id) <==> Stored(saves[k]) == rows[id];
      }
    }
  }

  /** The snapshot rewrite of a command leaves every other session alone if and only if, since it loaded its
      snapshot, none appeared, none disappeared, and none was renamed, linked, moved, given another status,
      acknowledged, or given a name that the snapshot would take away. */
  lemma SnapshotRewriteSafeIff(saves: seq<Save>, loaded: Rows, rows: Rows, own: Id)
    requires SnapshotPayload(saves, loaded, rows, own)
    ensures TouchesOnly(rows, saves, own) <==>
            forall id :: id != own ==>
              (id in loaded <==> id in rows) && (id in loaded && id in rows ==> StillCurrent(loaded[id], rows[id]))
  {
    assert saves != [] by {
      assert own in SavedIds(saves);
    }
    RewriteTouchesOnlyIff(rows, saves, own);
    forall id | id != own
      ensures PayloadCell(saves, id) == Cell(rows, id) <==>
              (id in loaded <==> id in rows) && (id in loaded && id in rows ==> StillCurrent(loaded[id], rows[id]))
    {
      SnapshotCell(saves, loaded, rows, own, id);
    }
  }

  lemma RunTwo(rows: Rows, a: Op, b: Op)
    ensures Run(rows, [a, b]) == Apply(Apply(rows, a), b)
  {
    assert [a, b][..1] == [a] && [a][..0] == [];
    assert Run(rows, [a]) == Apply(rows, a);
  }

  lemma PairRewritten(rows: Rows, first: Save, second: Save)
    requires first.id != second.id
    ensures var end := Rewritten(rows, [first, second]);
            && first.id in end && end[first.id] == Stored(first)
            && second.id in end && end[second.id] == Stored(second)
  {
    var saves := [first, second];
    assert LastIn(saves[..1], first.id) == 0 && LastIn(saves, second.id) == 1;
    RewrittenCell(rows, saves, first.id);
    RewrittenCell(rows, saves, second.id);
    CellHolds(Rewritten(rows, saves), first.id, Stored(first));
    CellHolds(Rewritten(rows, saves), second.id, Stored(second));
  }

  lemma CellHolds(rows: Rows, id: Id, row: Row)
    requires Cell(rows, id) == [row]
    ensures id in rows && rows[id] == row
  {
    assert id in rows <==> Cell(rows, id) != [];
    assert id in rows ==> Cell(rows, id)[0] == rows[id];
  }

  /** Two processes load the same two sessions; one links `a` under `b`, the other renames `b`. Whichever
      rewrite comes last undoes the change of the other. */
  lemma SetParentUndoesRename(a: Id, b: Id, rowA: Row, rowB: Row, title: string, seen: Id -> Seen)
    requires a != b && title != rowB.title && rowA.parent != b
    ensures var rows: Rows := map[a := rowA, b := rowB];
            var linking := Rewrite([Save(a, rowA.(parent := b), seen(a)), Save(b, rowB, seen(b))]);
            var renaming := Rewrite([Save(a, rowA, seen(a)), Save(b, rowB.(title := title), seen(b))]);
            var renamedFirst, linkedFirst := Run(rows, [renaming, linking]), Run(rows, [linking, renaming]);
            && a in renamedFirst && renamedFirst[a].parent == b && b in renamedFirst && renamedFirst[b].title == rowB.title
            && a in linkedFirst && linkedFirst[a].parent == rowA.parent && b in linkedFirst && linkedFirst[b].title == title
  {
    var rows: Rows := map[a := rowA, b := rowB];
    var linked, same := Save(a, rowA.(parent := b), seen(a)), Save(b, rowB, seen(b));
    var still, renamed := Save(a, rowA, seen(a)), Save(b, rowB.(title := title), seen(b));
    var linking, renaming := Rewrite([linked, same]), Rewrite([still, renamed]);
    RunTwo(rows, renaming, linking);
    RunTwo(rows, linking, renaming);
    PairRewritten(Apply(rows, renaming), linked, same);
    PairRewritten(Apply(rows, linking), still, renamed);
  }

  // ---------- automatic names ----------

  predicate HasName(rows: Rows, id: Id) {
    id in rows && rows[id].autoName
  }

  predicate NameCleared(rows: Rows, id: Id) {
    id in rows && !rows[id].autoName
  }

  /** One save of a row, with what others write between its read and its replacement: a name that is cleared by
      then comes back exactly when the row to save has one and the read did not see it cleared. */
  lemma SaveBringsNameBackIff(rows: Rows, between: seq<Op>, id: Id, row: Row)
    requires NameCleared(Run(rows, between), id)
    ensures HasName(Apply(Run(rows, between), Upsert(Save(id, row, SeenIn(rows, id)))), id)
            <==> row.autoName && !NameCleared(rows, id)
  {
  }

  /** The rows a write saves. */
  function PayloadOf(op: Op): seq<Save> {
    match op
    case Upsert(save) => [save]
    case Rewrite(saves) => saves
    case _ => []
  }

  /** The write saves row `id`, and with a name. */
  predicate SavesName(op: Op, id: Id) {
    var k := LastIn(PayloadOf(op), id);
    k >= 0 && PayloadOf(op)[k].row.autoName
  }

  /** The table after the first `n` writes. */
  function StateAt(rows: Rows, ops: seq<Op>, n: nat): Rows
    requires n <= |ops|
  {
    if n == 0 then rows else Apply(StateAt(rows, ops, n - 1), ops[n - 1])
  }

  lemma {:induction false} StateAtIsRun(rows: Rows, ops: seq<Op>, n: nat)
    requires n <= |ops|
    ensures StateAt(rows, ops, n) == Run(rows, ops[..n])
  {
    if n > 0 {
      StateAtIsRun(rows, ops, n - 1);
      assert ops[..n][..n - 1] == ops[..n - 1];
    }
  }

  /** The write at place i read the table as it was after the first `readAt[i]` writes. */
  predicate ReadBefore(rows: Rows, ops: seq<Op>, readAt: seq<nat>, i: nat)
    requires i < |ops| == |readAt|
  {
    readAt[i] <= i && HasRead(StateAt(rows, ops, readAt[i]), ops[i])
  }

  /** An interleaving of the first `n` writes with the reads before them. */
  predicate Interleaved(rows: Rows, ops: seq<Op>, readAt: seq<nat>, n: nat)
    requires n <= |ops| == |readAt|
  {
    n == 0 || (Interleaved(rows, ops, readAt, n - 1) && ReadBefore(rows, ops, readAt, n - 1))
  }

  lemma {:induction false} ReadBeforeAt(rows: Rows, ops: seq<Op>, readAt: seq<nat>, n: nat, i: nat)
    requires i < n <= |ops| == |readAt| && Interleaved(rows, ops, readAt, n)
    ensures ReadBefore(rows, ops, readAt, i)
  {
    if i < n - 1 {
      ReadBeforeAt(rows, ops, readAt, n - 1, i);
    }
  }

  predicate HasRead(rows: Rows, op: Op) {
    forall s :: s in PayloadOf(op) ==> s.seen == SeenIn(rows, s.id)
  }

  /** The write at place i saves row `id` with a name, and when it read the row, the name was not cleared. */
  predicate BringsName(rows: Rows, ops: seq<Op>, readAt: seq<nat>, id: Id, i: nat)
    requires i < |ops| == |readAt|
  {
    SavesName(ops[i], id) && readAt[i] <= i && !NameCleared(StateAt(rows, ops, readAt[i]), id)
  }

  lemma {:induction false} InterleavedPrefix(rows: Rows, ops: seq<Op>, readAt: seq<nat>, m: nat, n: nat)
    requires n <= m <= |ops| == |readAt| && Interleaved(rows, ops, readAt, m)
    ensures Interleaved(rows, ops, readAt, n)
  {
    if n < m {
      InterleavedPrefix(rows, ops, readAt, m - 1, n);
    }
  }

  lemma SaveStoresName(rows: Rows, op: Op, read: Rows, id: Id)
    requires HasRead(read, op) && LastIn(PayloadOf(op), id) >= 0
    ensures HasName(Apply(rows, op), id) <==> SavesName(op, id) && !NameCleared(read, id)
  {
    var saves, k := PayloadOf(op), LastIn(PayloadOf(op), id);
    assert saves[k] in saves;
    var end := Apply(rows, op);
    if op.Rewrite? {
      RewrittenCell(rows, saves, id);
    }
    assert Cell(end, id) == [Stored(saves[k])];
    assert id in end <==> Cell(end, id) != [];
  }

  lemma OtherWritesAddNoName(rows: Rows, op: Op, id: Id)
    requires LastIn(PayloadOf(op), id) < 0 && !HasName(rows, id)
    ensures !HasName(Apply(rows, op), id)
  {
    var end := Apply(rows, op);
    match op
    case Rewrite(saves) =>
      if saves != [] {
        RewrittenCell(rows, saves, id);
        assert id in end <==> Cell(end, id) != [];
      }
    case SetStatuses(updates) => StatusesSetCell(rows, updates, id);
    case _ =>
  }

  lemma NameStep(rows: Rows, ops: seq<Op>, readAt: seq<nat>, id: Id, i: nat)
    requires i < |ops| == |readAt| && ReadBefore(rows, ops, readAt, i) && !HasName(StateAt(rows, ops, i), id)
    ensures HasName(StateAt(rows, ops, i + 1), id) <==> BringsName(rows, ops, readAt, id, i)
  {
    if LastIn(PayloadOf(ops[i]), id) >= 0 {
      SaveStoresName(StateAt(rows, ops, i), ops[i], StateAt(rows, ops, readAt[i]), id);
    } else {
      OtherWritesAddNoName(StateAt(rows, ops, i), ops[i], id);
    }
  }

  /** From the first `c` writes on, row `id` never has a name. */
  ghost predicate NamelessFrom(rows: Rows, ops: seq<Op>, id: Id, c: nat) {
    forall n :: c <= n <= |ops| ==> !HasName(StateAt(rows, ops, n), id)
  }

  lemma {:induction false} NamelessUpTo(rows: Rows, ops: seq<Op>, readAt: seq<nat>, id: Id, c: nat, n: nat)
    requires c <= n <= |ops| == |readAt| && Interleaved(rows, ops, readAt, n) && !HasName(StateAt(rows, ops, c), id)
    requires forall i :: c <= i < n ==> !BringsName(rows, ops, readAt, id, i)
    ensures !HasName(StateAt(rows, ops, n), id)
  {
    if c < n {
      NamelessUpTo(rows, ops, readAt, id, c, n - 1);
      NameStep(rows, ops, readAt, id, n - 1);
    }
  }

  /** Over every interleaving of saves, rewrites and other writes with the reads before them: a row without an
      automatic name stays without one if and only if no write since saves it with a name after a read that
      did not see the name cleared. */
  lemma NamelessIff(rows: Rows, ops: seq<Op>, readAt: seq<nat>, id: Id, c: nat)
    requires c <= |ops| == |readAt| && Interleaved(rows, ops, readAt, |ops|) && !HasName(StateAt(rows, ops, c), id)
    ensures NamelessFrom(rows, ops, id, c) <==> forall i :: c <= i < |ops| ==> !BringsName(rows, ops, readAt, id, i)
  {
    if forall i :: c <= i < |ops| ==> !BringsName(rows, ops, readAt, id, i) {
      forall n | c <= n <= |ops|
        ensures !HasName(StateAt(rows, ops, n), id)
      {
        InterleavedPrefix(rows, ops, readAt, |ops|, n);
        NamelessUpTo(rows, ops, readAt, id, c, n);
      }
    }
    if NamelessFrom(rows, ops, id, c) {
      forall i | c <= i < |ops|
        ensures !BringsName(rows, ops, readAt, id, i)
      {
        ReadBeforeAt(rows, ops, readAt, |ops|, i);
        NameStep(rows, ops, readAt, id, i);
      }
    }
  }

  /** The write takes row `id` out of the table. */
  predicate Removes(op: Op, id: Id) {
    op == Delete(id) || (op.Rewrite? && op.saves != [] && LastIn(op.saves, id) < 0)
  }

  lemma StaysPresent(rows: Rows, op: Op, id: Id)
    requires id in rows && !Removes(op, id)
    ensures id in Apply(rows, op)
  {
    match op
    case Rewrite(saves) =>
      if saves != [] {
        RewrittenCell(rows, saves, id);
      }
    case SetStatuses(updates) => StatusesSetCell(rows, updates, id);
    case _ =>
  }

  predicate KeepsRow(ops: seq<Op>, id: Id, i: nat)
    requires i < |ops|
  {
    !Removes(ops[i], id)
  }

  predicate NeverRemoved(ops: seq<Op>, id: Id, c: nat) {
    forall i :: c <= i < |ops| ==> KeepsRow(ops, id, i)
  }

  /** The name of row `id` is cleared by the write before place `c`, and was not before. */
  ghost predicate ClearedAt(rows: Rows, ops: seq<Op>, id: Id, c: nat) {
    && c <= |ops| && NameCleared(StateAt(rows, ops, c), id)
    && (forall n :: 0 <= n < c ==> !NameCleared(StateAt(rows, ops, n), id))
  }

  /** The name is cleared after the first `c` writes, and stays so up to the first `n`. */
  predicate ClearedThrough(rows: Rows, ops: seq<Op>, id: Id, c: nat, n: nat)
    requires c <= n <= |ops|
    decreases n
  {
    NameCleared(StateAt(rows, ops, n), id) && (c < n ==> ClearedThrough(rows, ops, id, c, n - 1))
  }

  lemma {:induction false} ClearedThroughMeans(rows: Rows, ops: seq<Op>, id: Id, c: nat, n: nat, m: nat)
    requires c <= m <= n <= |ops| && ClearedThrough(rows, ops, id, c, n)
    ensures NameCleared(StateAt(rows, ops, m), id)
  {
    if m < n {
      ClearedThroughMeans(rows, ops, id, c, n - 1, m);
    }
  }

  lemma ClearedNext(rows: Rows, ops: seq<Op>, readAt: seq<nat>, id: Id, c: nat, n: nat)
    requires c <= n < |ops| == |readAt| && ReadBefore(rows, ops, readAt, n)
    requires ClearedThrough(rows, ops, id, c, n) && KeepsRow(ops, id, n)
    requires ReadSince(ops, readAt, id, c, n)
    ensures NameCleared(StateAt(rows, ops, n + 1), id)
  {
    ClearedThroughMeans(rows, ops, id, c, n, n);
    if readAt[n] >= c {
      ClearedThroughMeans(rows, ops, id, c, n, readAt[n]);
    }
    NameStep(rows, ops, readAt, id, n);
    StaysPresent(StateAt(rows, ops, n), ops[n], id);
  }

  /** Every write from place `c` on that saves row `id` with a name has read it after the first `c` writes. */
  predicate NamesReadSince(ops: seq<Op>, readAt: seq<nat>, id: Id, c: nat)
    requires |ops| == |readAt|
  {
    forall i :: c <= i < |ops| ==> ReadSince(ops, readAt, id, c, i)
  }

  predicate ReadSince(ops: seq<Op>, readAt: seq<nat>, id: Id, c: nat, i: nat)
    requires i < |ops| == |readAt|
  {
    SavesName(ops[i], id) ==> readAt[i] >= c
  }

  lemma {:induction false} ClearedUpTo(rows: Rows, ops: seq<Op>, readAt: seq<nat>, id: Id, c: nat, n: nat)
    requires c <= n <= |ops| == |readAt| && Interleaved(rows, ops, readAt, n)
    requires NameCleared(StateAt(rows, ops, c), id) && NeverRemoved(ops, id, c)
    requires NamesReadSince(ops, readAt, id, c)
    ensures ClearedThrough(rows, ops, id, c, n)
  {
    if c < n {
      ClearedUpTo(rows, ops, readAt, id, c, n - 1);
      ClearedNext(rows, ops, readAt, id, c, n - 1);
    }
  }

  /** So the cleared name of a row that is not removed stays cleared if and only if every later write that saves
      the row with a name has read it after the clearing: old rows do no harm, old reads do. */
  lemma NameStaysClearedIff(rows: Rows, ops: seq<Op>, readAt: seq<nat>, id: Id, c: nat)
    requires |readAt| == |ops| && Interleaved(rows, ops, readAt, |ops|)
    requires ClearedAt(rows, ops, id, c) && NeverRemoved(ops, id, c)
    ensures ClearedThrough(rows, ops, id, c, |ops|)
            <==> NamesReadSince(ops, readAt, id, c)
  {
    if NamesReadSince(ops, readAt, id, c) {
      ClearedUpTo(rows, ops, readAt, id, c, |ops|);
    }
    if ClearedThrough(rows, ops, id, c, |ops|) {
      forall n | c <= n <= |ops|
        ensures !HasName(StateAt(rows, ops, n), id)
      {
        ClearedThroughMeans(rows, ops, id, c, |ops|, n);
      }
      NamelessIff(rows, ops, readAt, id, c);
      forall i | c <= i < |ops|
        ensures ReadSince(ops, readAt, id, c, i)
      {
        ReadBeforeAt(rows, ops, readAt, |ops|, i);
        assert !BringsName(rows, ops, readAt, id, i);
      }
    }
  }

  /** The run: two processes read a row with an automatic name; one clears it, and the other, saving what it
      has, brings it back. */
  lemma ClearedNameComesBack(id: Id, row: Row)
    requires row.autoName
    ensures var rows: Rows := map[id := row];
            var ops := [Upsert(Save(id, row.(autoName := false), SeenIn(rows, id))), Upsert(Save(id, row, SeenIn(rows, id)))];
            && Interleaved(rows, ops, [0, 0], 2)
            && ClearedAt(rows, ops, id, 1) && NeverRemoved(ops, id, 1)
            && HasName(StateAt(rows, ops, 2), id)
  {
    var rows: Rows := map[id := row];
    var clearing, stale := Upsert(Save(id, row.(autoName := false), SeenIn(rows, id))), Upsert(Save(id, row, SeenIn(rows, id)));
    var ops := [clearing, stale];
    assert StateAt(rows, ops, 0) == rows && StateAt(rows, ops, 1) == Apply(rows, clearing);
    assert ReadBefore(rows, ops, [0, 0], 0) && ReadBefore(rows, ops, [0, 0], 1);
    assert Interleaved(rows, ops, [0, 0], 1);
  }
}
