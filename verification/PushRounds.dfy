/** One push round on the client's state, and why the rounds come to an end. */
module PushRounds {
  import opened Seqs
  import opened Records
  import opened ItemSync
  import opened PlanLaws
  import opened PushReplies

  // ---------------------------------------------------------------------------
  // Settling an accepted reply
  // ---------------------------------------------------------------------------

  /** One receipt. An accepted one is about a planned id, which has a pending entry. */
  function SettleReceipt(st: SyncState, r: Receipt): SyncState {
    match r.operation
    case OnDelete =>
      st.(revisions := st.revisions.Drop(r.itemId), timestamps := st.timestamps.Drop(r.itemId),
          pending := st.pending.Drop(r.itemId))
    case OnUpsert =>
      st.(revisions := st.revisions.Put(r.itemId, r.appliedItemRevision),
          timestamps := if st.pending.Has(r.itemId)
                        then st.timestamps.Put(r.itemId, st.pending.at[r.itemId].itemUpdatedAt) else st.timestamps,
          pending := st.pending.Drop(r.itemId))
  }

  function SettleReceipts(st: SyncState, receipts: seq<Receipt>): SyncState {
    if receipts == [] then st
    else SettleReceipt(SettleReceipts(st, receipts[..|receipts| - 1]), receipts[|receipts| - 1])
  }

  function AddConflicts(ids: seq<string>, conflicts: seq<Conflict>): seq<string> {
    if conflicts == [] then ids
    else
      var more, id := AddConflicts(ids, conflicts[..|conflicts| - 1]), conflicts[|conflicts| - 1].itemId;
      if id in more then more else more + [id]
  }

  function Settle(st: SyncState, reply: PushReply): SyncState {
    SettleReceipts(st, reply.receipts)
      .(serverRevision := reply.serverRevision, conflicts := AddConflicts(st.conflicts, reply.conflicts))
  }

  lemma {:induction false} AddConflictsIn(ids: seq<string>, conflicts: seq<Conflict>)
    ensures forall k :: k in AddConflicts(ids, conflicts) <==> k in ids || k in ConflictIds(conflicts)
  {
    if conflicts != [] {
      var n := |conflicts| - 1;
      AddConflictsIn(ids, conflicts[..n]);
      assert ConflictIds(conflicts) == ConflictIds(conflicts[..n]) + [conflicts[n].itemId];
    }
  }

  ghost predicate SameAt(s: SyncState, st: SyncState, k: string) {
    && s.revisions.Get(k) == st.revisions.Get(k)
    && s.timestamps.Get(k) == st.timestamps.Get(k)
    && s.pending.Get(k) == st.pending.Get(k)
  }

  lemma SettleKeepsWellFormed(s: SyncState, r: Receipt)
    requires WellFormed(s)
    ensures WellFormed(SettleReceipt(s, r))
  {
    DropValid(s.pending, r.itemId);
    if r.operation == OnDelete {
      DropValid(s.revisions, r.itemId);
      DropValid(s.timestamps, r.itemId);
    } else {
      PutValid(s.revisions, r.itemId, r.appliedItemRevision);
      if s.pending.Has(r.itemId) { PutValid(s.timestamps, r.itemId, s.pending.at[r.itemId].itemUpdatedAt); }
    }
  }

  lemma SettleTouchesOne(s: SyncState, r: Receipt, k: string)
    requires k != r.itemId
    ensures SameAt(SettleReceipt(s, r), s, k)
  {}

  lemma {:induction false} SettleFrame(st: SyncState, receipts: seq<Receipt>)
    requires WellFormed(st)
    ensures var s := SettleReceipts(st, receipts);
            && WellFormed(s)
            && s.cursor == st.cursor && s.conflicts == st.conflicts
            && forall k :: k !in ReceiptIds(receipts) ==> SameAt(s, st, k)
  {
    if receipts != [] {
      var n := |receipts| - 1;
      SettleFrame(st, receipts[..n]);
      var s, r := SettleReceipts(st, receipts[..n]), receipts[n];
      assert ReceiptIds(receipts) == ReceiptIds(receipts[..n]) + [r.itemId];
      SettleKeepsWellFormed(s, r);
      forall k | k !in ReceiptIds(receipts) ensures SameAt(SettleReceipts(st, receipts), st, k) {
        SettleTouchesOne(s, r, k);
      }
    }
  }

  /** The state of one settled id, given what was pending for it. */
  ghost predicate SettledAs(s: SyncState, r: Receipt, entry: Option<Pending>) {
    && !s.pending.Has(r.itemId)
    && match r.operation
       case OnDelete => !s.revisions.Has(r.itemId) && !s.timestamps.Has(r.itemId)
       case OnUpsert =>
         && s.revisions.Get(r.itemId) == Some(r.appliedItemRevision)
         && (entry.Some? ==> s.timestamps.Get(r.itemId) == Some(entry.value.itemUpdatedAt))
  }

  lemma SettleSelf(s: SyncState, r: Receipt)
    ensures SettledAs(SettleReceipt(s, r), r, s.pending.Get(r.itemId))
  {}

  /** Settling another id leaves a settled one settled. */
  lemma SettleOther(s: SyncState, last: Receipt, r: Receipt, entry: Option<Pending>)
    requires r.itemId != last.itemId && SettledAs(s, r, entry)
    ensures SettledAs(SettleReceipt(s, last), r, entry)
  {}

  lemma {:induction false} SettleEffect(st: SyncState, receipts: seq<Receipt>, j: nat)
    requires WellFormed(st) && NoDup(ReceiptIds(receipts)) && j < |receipts|
    ensures SettledAs(SettleReceipts(st, receipts), receipts[j], st.pending.Get(receipts[j].itemId))
  {
    var n := |receipts| - 1;
    var before := SettleReceipts(st, receipts[..n]);
    assert ReceiptIds(receipts[..n]) == ReceiptIds(receipts)[..n];
    if j < n {
      SettleEffect(st, receipts[..n], j);
      assert ReceiptIds(receipts)[j] != ReceiptIds(receipts)[n];
      SettleOther(before, receipts[n], receipts[j], st.pending.Get(receipts[j].itemId));
    } else {
      SettleFrame(st, receipts[..n]);
      forall i | 0 <= i < n ensures ReceiptIds(receipts[..n])[i] != receipts[n].itemId {
        assert ReceiptIds(receipts)[i] != ReceiptIds(receipts)[n];
      }
      assert SameAt(before, st, receipts[n].itemId);
      SettleSelf(before, receipts[n]);
    }
  }

  lemma {:induction false} SettleKeysKept(st: SyncState, receipts: seq<Receipt>, keep: string -> bool)
    requires forall r :: r in receipts ==> !keep(r.itemId)
    ensures var s := SettleReceipts(st, receipts);
            && Filter(s.revisions.keys, keep) == Filter(st.revisions.keys, keep)
            && Filter(s.pending.keys, keep) == Filter(st.pending.keys, keep)
  {
    if receipts != [] {
      var n := |receipts| - 1;
      SettleKeysKept(st, receipts[..n], keep);
      var s, r := SettleReceipts(st, receipts[..n]), receipts[n];
      PutDropKeys(s.revisions, r.itemId, r.appliedItemRevision, keep);
      if s.pending.Has(r.itemId) {
        PutDropKeys(s.pending, r.itemId, s.pending.at[r.itemId], keep);
      } else {
        FilterTwice(s.pending.keys, k => k != r.itemId, keep, keep);
      }
    }
  }

  // ---------------------------------------------------------------------------
  // What one round leaves to do
  // ---------------------------------------------------------------------------

  function AfterReply(st: SyncState, b: Built, reply: PushReply): SyncState {
    Settle(st.(pending := b.pending), reply)
  }

  ghost predicate TaskSettled(t: Task, after: SyncState) {
    && !after.pending.Has(t.Id())
    && match t
       case PutItem(item) => after.timestamps.Get(item.id) == Some(item.updatedAt)
       case DropId(k) => !after.revisions.Has(k) && !after.timestamps.Has(k)
  }

  /** What a settled round does to the ids it planned and to all others. */
  ghost predicate RoundEffect(st: SyncState, tasks: seq<Task>, after: SyncState) {
    && WellFormed(after)
    && (forall k :: k !in TaskIds(tasks) ==> SameAt(after, st, k) && (k in after.conflicts <==> k in st.conflicts))
    && forall t :: t in tasks && t.Id() !in after.conflicts ==> TaskSettled(t, after)
  }

  lemma PlannedIds(st: SyncState, userId: string, items: seq<Item>, rng: Entropy, pos: nat)
    requires StateOk(st, rng, pos) && UniqueIds(items)
    ensures var tasks := Take(WorkList(st, items), MAX_SYNC_MUTATIONS);
            var b := BuildPlan(st, userId, items, rng, pos);
            && OpIds(b.ops) == TaskIds(tasks)
            && MeetsSchema(b.ops)
            && forall i :: 0 <= i < |tasks| ==> Made(st, userId, tasks[i], b.ops[i], b.pending)
  {
    var tasks := Take(WorkList(st, items), MAX_SYNC_MUTATIONS);
    TasksDistinct(st, items);
    BuildPendingOk(st, userId, tasks, rng, pos);
    BuildEntries(st, userId, tasks, rng, pos);
    PlanMeetsSchema(st, userId, items, rng, pos);
  }

  lemma RoundHasEffect(st: SyncState, userId: string, items: seq<Item>, rng: Entropy, pos: nat, reply: PushReply)
    requires StateOk(st, rng, pos) && UniqueIds(items)
    requires ReplyFault(BuildPlan(st, userId, items, rng, pos).ops, st.serverRevision, reply).None?
    ensures RoundEffect(st, Take(WorkList(st, items), MAX_SYNC_MUTATIONS),
                        AfterReply(st, BuildPlan(st, userId, items, rng, pos), reply))
  {
    var tasks := Take(WorkList(st, items), MAX_SYNC_MUTATIONS);
    var after := AfterReply(st, BuildPlan(st, userId, items, rng, pos), reply);
    OthersUntouched(st, userId, items, rng, pos, reply);
    forall t | t in tasks && t.Id() !in after.conflicts ensures TaskSettled(t, after) {
      var i :| 0 <= i < |tasks| && tasks[i] == t;
      TaskAnswered(st, userId, items, rng, pos, reply, i);
    }
  }

  /** A round touches no id it did not plan. */
  lemma OthersUntouched(st: SyncState, userId: string, items: seq<Item>, rng: Entropy, pos: nat, reply: PushReply)
    requires StateOk(st, rng, pos) && UniqueIds(items)
    requires ReplyFault(BuildPlan(st, userId, items, rng, pos).ops, st.serverRevision, reply).None?
    ensures var after := AfterReply(st, BuildPlan(st, userId, items, rng, pos), reply);
            && WellFormed(after)
            && forall k :: k !in TaskIds(Take(WorkList(st, items), MAX_SYNC_MUTATIONS)) ==>
                 SameAt(after, st, k) && (k in after.conflicts <==> k in st.conflicts)
  {
    var tasks := Take(WorkList(st, items), MAX_SYNC_MUTATIONS);
    var b := BuildPlan(st, userId, items, rng, pos);
    var sent, r, c := st.(pending := b.pending), ReceiptIds(reply.receipts), ConflictIds(reply.conflicts);
    PlannedIds(st, userId, items, rng, pos);
    PlanMeetsSchema(st, userId, items, rng, pos);
    AnswersCover(b.ops, st.serverRevision, reply);
    SettleFrame(sent, reply.receipts);
    AddConflictsIn(st.conflicts, reply.conflicts);
    BuildShape(st, userId, tasks, rng, pos);
    forall k | k !in TaskIds(tasks) ensures k !in r && k !in c {
      assert k !in Elements(r) + Elements(c);
    }
    forall k | k !in TaskIds(tasks) ensures SameAt(AfterReply(st, b, reply), st, k) {
      assert SameAt(SettleReceipts(sent, reply.receipts), sent, k);
    }
  }

  lemma TaskAnswered(st: SyncState, userId: string, items: seq<Item>, rng: Entropy, pos: nat, reply: PushReply, i: nat)
    requires StateOk(st, rng, pos) && UniqueIds(items)
    requires ReplyFault(BuildPlan(st, userId, items, rng, pos).ops, st.serverRevision, reply).None?
    requires i < |Take(WorkList(st, items), MAX_SYNC_MUTATIONS)|
    ensures var t := Take(WorkList(st, items), MAX_SYNC_MUTATIONS)[i];
            var after := AfterReply(st, BuildPlan(st, userId, items, rng, pos), reply);
            t.Id() in after.conflicts || TaskSettled(t, after)
  {
    var tasks := Take(WorkList(st, items), MAX_SYNC_MUTATIONS);
    var b := BuildPlan(st, userId, items, rng, pos);
    var after := AfterReply(st, b, reply);
    PlannedIds(st, userId, items, rng, pos);
    PlanMeetsSchema(st, userId, items, rng, pos);
    AnswersCover(b.ops, st.serverRevision, reply);
    AddConflictsIn(st.conflicts, reply.conflicts);
    var r, c := ReceiptIds(reply.receipts), ConflictIds(reply.conflicts);
    assert TaskIds(tasks)[i] == tasks[i].Id() == OpIds(b.ops)[i] && tasks[i].Id() in Elements(r) + Elements(c);
    if tasks[i].Id() in r {
      var j :| 0 <= j < |r| && r[j] == tasks[i].Id();
      var receipt := reply.receipts[j];
      SettleEffect(st.(pending := b.pending), reply.receipts, j);
      assert SettledAs(after, receipt, b.pending.Get(receipt.itemId));
      ReceiptSettlesTask(st, userId, tasks[i], b.ops, i, b.pending, reply, receipt, after);
    }
  }

  lemma ReceiptSettlesTask(st: SyncState, userId: string, t: Task, ops: seq<Op>, i: nat, pending: Record<Pending>,
                           reply: PushReply, receipt: Receipt, after: SyncState)
    requires MeetsSchema(ops) && i < |ops| && Made(st, userId, t, ops[i], pending) && ops[i].id == t.Id()
    requires ReceiptsOk(ops, reply.receipts, reply.serverRevision) && receipt in reply.receipts
    requires receipt.itemId == t.Id() && SettledAs(after, receipt, pending.Get(t.Id()))
    ensures TaskSettled(t, after)
  {
    var op :| op in ops && ReceiptFits(receipt, op, reply.serverRevision);
    SameOpById(ops, op, ops[i]);
  }

  /** Work that a round planned is gone, and the rest keeps its order. */
  lemma EffectOnWork(st: SyncState, items: seq<Item>, tasks: seq<Task>, after: SyncState)
    requires WellFormed(st) && UniqueIds(items) && tasks == Take(WorkList(st, items), MAX_SYNC_MUTATIONS)
    requires RoundEffect(st, tasks, after)
    requires var keep := (k: string) => k !in ItemIds(items) && k !in st.conflicts && k !in TaskIds(tasks);
             var late := (k: string) => keep(k) && !st.revisions.Has(k);
             && Filter(after.revisions.keys, keep) == Filter(st.revisions.keys, keep)
             && Filter(after.pending.keys, late) == Filter(st.pending.keys, late)
    ensures WorkList(after, items) == WorkList(st, items)[|tasks|..]
  {
    var d, g := DirtyItems(st, items), GoneIds(st, items);
    TasksDistinct(st, items);
    DirtyAfter(st, items, tasks, after);
    GoneAfter(st, items, tasks, after);
    var a, z := if |tasks| <= |d| then |tasks| else |d|, if |tasks| <= |d| then 0 else |tasks| - |d|;
    PlannedPrefix(st, items, tasks, a, z);
    FilterSuffix(d, a, (x: Item) => x.id !in TaskIds(tasks));
    FilterSuffix(g, z, k => k !in TaskIds(tasks));
    WorkSuffix(d, g, a, z);
  }

  lemma WorkSuffix(d: seq<Item>, g: seq<string>, a: nat, z: nat)
    requires a <= |d| && z <= |g| && (z > 0 ==> a == |d|)
    ensures PutTasks(d[a..]) + DropTasks(g[z..]) == (PutTasks(d) + DropTasks(g))[a + z..]
  {}

  lemma PlannedPrefix(st: SyncState, items: seq<Item>, tasks: seq<Task>, a: nat, z: nat)
    requires WellFormed(st) && UniqueIds(items) && tasks == Take(WorkList(st, items), MAX_SYNC_MUTATIONS)
    requires var d := |DirtyItems(st, items)|;
             if |tasks| <= d then a == |tasks| && z == 0 else a == d && z == |tasks| - d
    ensures var d, g := DirtyItems(st, items), GoneIds(st, items);
            && a <= |d| && z <= |g|
            && (forall i :: 0 <= i < |d| ==> ((d[i].id in TaskIds(tasks)) <==> i < a))
            && (forall i :: 0 <= i < |g| ==> ((g[i] in TaskIds(tasks)) <==> i < z))
  {
    var d, g := DirtyItems(st, items), GoneIds(st, items);
    var all := TaskIds(WorkList(st, items));
    WorkListDistinct(st, items);
    assert TaskIds(tasks) == all[..|tasks|];
    forall i | 0 <= i < |d| ensures all[i] == d[i].id {}
    forall i | 0 <= i < |g| ensures all[|d| + i] == g[i] {}
    forall i | 0 <= i < |all| ensures (all[i] in TaskIds(tasks)) <==> i < |tasks| {
      if i < |tasks| { assert TaskIds(tasks)[i] == all[i]; }
    }
  }

  lemma DirtyAfter(st: SyncState, items: seq<Item>, tasks: seq<Task>, after: SyncState)
    requires WellFormed(st) && UniqueIds(items) && RoundEffect(st, tasks, after)
    requires forall t :: t in tasks ==> t in WorkList(st, items)
    ensures DirtyItems(after, items) == Filter(DirtyItems(st, items), (x: Item) => x.id !in TaskIds(tasks))
  {
    var ids := TaskIds(tasks);
    var both := (x: Item) => Dirty(st, x) && x.id !in ids;
    WorkListMembers(st, items);
    forall x | x in items ensures Dirty(after, x) == both(x) {
      if x.id in ids {
        var i :| 0 <= i < |tasks| && tasks[i].Id() == x.id;
        assert tasks[i] in tasks;
        ItemIdsHas(items, x);
        assert tasks[i].PutItem? && tasks[i].item == x;
      }
    }
    FilterAgree(items, (x: Item) => Dirty(after, x), both);
    FilterTwice(items, (x: Item) => Dirty(st, x), (x: Item) => x.id !in ids, both);
  }

  /** A planned id that is settled is not known any more, unless the vault holds it. */
  lemma PlannedIdForgotten(st: SyncState, items: seq<Item>, tasks: seq<Task>, after: SyncState, k: string)
    requires WellFormed(st) && UniqueIds(items) && RoundEffect(st, tasks, after)
    requires forall t :: t in tasks ==> t in WorkList(st, items)
    requires k !in ItemIds(items) && k in TaskIds(tasks) && k !in after.conflicts
    ensures !after.pending.Has(k) && !after.revisions.Has(k)
  {
    WorkListMembers(st, items);
    var i :| 0 <= i < |tasks| && tasks[i].Id() == k;
    assert tasks[i] in tasks;
    if tasks[i].PutItem? { ItemIdsHas(items, tasks[i].item); }
  }

  lemma GoneAfter(st: SyncState, items: seq<Item>, tasks: seq<Task>, after: SyncState)
    requires WellFormed(st) && UniqueIds(items) && RoundEffect(st, tasks, after)
    requires forall t :: t in tasks ==> t in WorkList(st, items)
    requires var keep := (k: string) => k !in ItemIds(items) && k !in st.conflicts && k !in TaskIds(tasks);
             var late := (k: string) => keep(k) && !st.revisions.Has(k);
             && Filter(after.revisions.keys, keep) == Filter(st.revisions.keys, keep)
             && Filter(after.pending.keys, late) == Filter(st.pending.keys, late)
    ensures GoneIds(after, items) == Filter(GoneIds(st, items), k => k !in TaskIds(tasks))
  {
    var ids := TaskIds(tasks);
    var keep := (k: string) => k !in ItemIds(items) && k !in st.conflicts && k !in ids;
    var late := (k: string) => keep(k) && !st.revisions.Has(k);
    forall k | k !in ItemIds(items) && k in ids && k !in after.conflicts
      ensures !after.pending.Has(k) && !after.revisions.Has(k)
    {
      PlannedIdForgotten(st, items, tasks, after, k);
    }
    GoneNow(after, items, st, ids, keep, late);
    GoneBefore(st, items, ids, keep, late);
  }

  /** The ids gone after the round, by where they are known. */
  lemma GoneNow(after: SyncState, items: seq<Item>, st: SyncState, ids: seq<string>, keep: string -> bool, late: string -> bool)
    requires WellFormed(after) && WellFormed(st)
    requires forall k :: keep(k) <==> k !in ItemIds(items) && k !in st.conflicts && k !in ids
    requires forall k :: late(k) <==> keep(k) && !st.revisions.Has(k)
    requires forall k :: k !in ids ==> SameAt(after, st, k) && (k in after.conflicts <==> k in st.conflicts)
    requires forall k :: k !in ItemIds(items) && k in ids && k !in after.conflicts ==>
               !after.pending.Has(k) && !after.revisions.Has(k)
    ensures GoneIds(after, items) == Filter(after.revisions.keys, keep) + Filter(after.pending.keys, late)
  {
    var gone := (k: string) => k !in ItemIds(items) && k !in after.conflicts;
    var isNew := (k: string) => !after.revisions.Has(k);
    var both := (k: string) => isNew(k) && gone(k);
    FilterConcat(after.revisions.keys, Filter(after.pending.keys, isNew), gone);
    forall k | k in after.revisions.keys ensures gone(k) == keep(k) {
      if k !in ids { assert SameAt(after, st, k); }
    }
    FilterAgree(after.revisions.keys, gone, keep);
    FilterTwice(after.pending.keys, isNew, gone, both);
    forall k | k in after.pending.keys ensures both(k) == late(k) {
      if k !in ids { assert SameAt(after, st, k); }
    }
    FilterAgree(after.pending.keys, both, late);
  }

  /** The ids that were gone before it and not planned, likewise. */
  lemma GoneBefore(st: SyncState, items: seq<Item>, ids: seq<string>, keep: string -> bool, late: string -> bool)
    requires forall k :: keep(k) <==> k !in ItemIds(items) && k !in st.conflicts && k !in ids
    requires forall k :: late(k) <==> keep(k) && !st.revisions.Has(k)
    ensures Filter(GoneIds(st, items), k => k !in ids) == Filter(st.revisions.keys, keep) + Filter(st.pending.keys, late)
  {
    var gone := (k: string) => k !in ItemIds(items) && k !in st.conflicts;
    var isNew := (k: string) => !st.revisions.Has(k);
    FilterTwice(KnownIds(st), gone, k => k !in ids, keep);
    FilterConcat(st.revisions.keys, Filter(st.pending.keys, isNew), keep);
    FilterTwice(st.pending.keys, isNew, keep, late);
  }

  /** Neither planning nor settling touches the keys of ids that were not planned. */
  lemma RoundKeysKept(st: SyncState, userId: string, items: seq<Item>, rng: Entropy, pos: nat, reply: PushReply)
    requires StateOk(st, rng, pos) && UniqueIds(items)
    requires ReplyFault(BuildPlan(st, userId, items, rng, pos).ops, st.serverRevision, reply).None?
    ensures var tasks := Take(WorkList(st, items), MAX_SYNC_MUTATIONS);
            var after := AfterReply(st, BuildPlan(st, userId, items, rng, pos), reply);
            var keep := (k: string) => k !in ItemIds(items) && k !in st.conflicts && k !in TaskIds(tasks);
            var late := (k: string) => keep(k) && !st.revisions.Has(k);
            && Filter(after.revisions.keys, keep) == Filter(st.revisions.keys, keep)
            && Filter(after.pending.keys, late) == Filter(st.pending.keys, late)
  {
    var tasks := Take(WorkList(st, items), MAX_SYNC_MUTATIONS);
    var b := BuildPlan(st, userId, items, rng, pos);
    var keep := (k: string) => k !in ItemIds(items) && k !in st.conflicts && k !in TaskIds(tasks);
    var late := (k: string) => keep(k) && !st.revisions.Has(k);
    PlannedIds(st, userId, items, rng, pos);
    AnswersCover(b.ops, st.serverRevision, reply);
    forall r | r in reply.receipts ensures r.itemId in TaskIds(tasks) {
      var i :| 0 <= i < |reply.receipts| && reply.receipts[i] == r;
      assert ReceiptIds(reply.receipts)[i] == r.itemId && r.itemId in Elements(OpIds(b.ops));
    }
    SettleKeysKept(st.(pending := b.pending), reply.receipts, keep);
    SettleKeysKept(st.(pending := b.pending), reply.receipts, late);
    forall i | 0 <= i < |tasks| ensures !late(tasks[i].Id()) { assert TaskIds(tasks)[i] == tasks[i].Id(); }
    PendingKeysKept(st, userId, tasks, rng, pos, late);
  }

  /**
   * A round whose reply is accepted removes exactly the planned prefix of the work list: what is
   * left is the old list without its first |plan| entries, in the same order. The state it leaves
   * is reachable again.
   */
  lemma RoundDrains(st: SyncState, userId: string, items: seq<Item>, rng: Entropy, pos: nat, reply: PushReply)
    requires StateOk(st, rng, pos) && UniqueIds(items)
    requires ReplyFault(BuildPlan(st, userId, items, rng, pos).ops, st.serverRevision, reply).None?
    ensures var b := BuildPlan(st, userId, items, rng, pos);
            && WorkList(AfterReply(st, b, reply), items) == WorkList(st, items)[|b.ops|..]
            && StateOk(AfterReply(st, b, reply), rng, b.pos)
  {
    var tasks := Take(WorkList(st, items), MAX_SYNC_MUTATIONS);
    var b := BuildPlan(st, userId, items, rng, pos);
    var after := AfterReply(st, b, reply);
    PlannedIds(st, userId, items, rng, pos);
    RoundHasEffect(st, userId, items, rng, pos, reply);
    AnswersCover(b.ops, st.serverRevision, reply);
    RoundKeysKept(st, userId, items, rng, pos, reply);
    EffectOnWork(st, items, tasks, after);
    PlanMeetsSchema(st, userId, items, rng, pos);
    SettleStateOk(st.(pending := b.pending), reply.receipts, rng, b.pos);
  }

  lemma {:induction false} SettleStateOk(st: SyncState, receipts: seq<Receipt>, rng: Entropy, pos: nat)
    requires StateOk(st, rng, pos)
    requires forall r :: r in receipts ==> 0 <= r.appliedItemRevision
    ensures StateOk(SettleReceipts(st, receipts), rng, pos)
  {
    SettleFrame(st, receipts);
    if receipts != [] {
      SettleStateOk(st, receipts[..|receipts| - 1], rng, pos);
    }
  }
}
