/** Plans and accepted rounds, field by field: what is sent for an item, what is remembered of it, and what a reply leaves. */
module PlanFields {
  import opened Seqs
  import opened Records
  import opened ItemSync
  import opened PlanLaws
  import opened PushReplies
  import opened PushRounds

  // ---------------------------------------------------------------------------
  // What is sent for an item
  // ---------------------------------------------------------------------------

  /** The pending entry of an item, if it was stored for this very version, with a sealed upsert. */
  function StoredFor(st: SyncState, x: Item): (r: Option<Pending>)
    ensures r.Some? ==> r.value.upsert.Some?
  {
    var entry := st.pending.Get(x.id);
    if entry.Some? && entry.value.itemUpdatedAt == x.updatedAt && entry.value.upsert.Some? then entry else None
  }

  /** The revision an upsert of this version is made against: the stored one of the same version, or the last known one. */
  function UpsertBase(st: SyncState, x: Item): int {
    var known := if st.revisions.Has(x.id) then st.revisions.at[x.id] else 0;
    var stored := StoredFor(st, x);
    if stored.Some? && stored.value.baseItemRevision.Some? then stored.value.baseItemRevision.value else known
  }

  /** The revision a delete is made against: the last known one, or the stored one of an id without a revision. */
  function DeleteBase(st: SyncState, id: string): int {
    if st.revisions.Has(id) then st.revisions.at[id]
    else if st.pending.Has(id) && st.pending.at[id].baseItemRevision.Some? then st.pending.at[id].baseItemRevision.value
    else 0
  }

  /** The stored upsert is sent again: same version, same account, and of a format that recorded its base. */
  predicate Resends(st: SyncState, userId: string, x: Item) {
    var stored := StoredFor(st, x);
    stored.Some? && stored.value.baseItemRevision.Some? && stored.value.upsert.value.ownerUserId == userId
  }

  predicate ResendsDelete(st: SyncState, userId: string, id: string) {
    && st.pending.Has(id) && st.pending.at[id].delete.Some?
    && st.pending.at[id].delete.value.ownerUserId == userId
    && st.pending.at[id].delete.value.baseItemRevision == DeleteBase(st, id)
  }

  /** The operation for an item, written out. */
  ghost predicate UpsertOf(st: SyncState, userId: string, x: Item, op: Op, rng: Entropy, pos: nat) {
    if Resends(st, userId, x) then op == st.pending.at[x.id].upsert.value
    else
      && op.Upsert? && op.id == x.id && op.ownerUserId == userId
      && op.createdAt == x.createdAt && op.updatedAt == x.updatedAt
      && op.revision == UpsertBase(st, x) && op.baseItemRevision == UpsertBase(st, x)
      && exists n: nat :: pos <= n && op.clientMutationId == rng(n).uuid && op.envelope == Sealed(x, rng(n).nonce)
  }

  ghost predicate DeleteOf(st: SyncState, userId: string, id: string, op: Op, rng: Entropy, pos: nat) {
    if ResendsDelete(st, userId, id) then op == st.pending.at[id].delete.value
    else
      && op.Delete? && op.id == id && op.ownerUserId == userId && op.baseItemRevision == DeleteBase(st, id)
      && exists n: nat :: pos <= n && op.clientMutationId == rng(n).uuid && op.deletedAt == rng(n).now
  }

  /** The pending entry that goes with an operation. */
  ghost predicate EntryOf(st: SyncState, t: Task, op: Op, entry: Pending) {
    && entry.clientMutationId == op.clientMutationId
    && match t
       case PutItem(x) =>
         && op.Upsert? && entry.itemUpdatedAt == x.updatedAt && entry.baseItemRevision == Some(UpsertBase(st, x))
         && entry.upsert == Some(op) && entry.delete == None
       case DropId(id) =>
         && op.Delete? && entry.itemUpdatedAt == op.deletedAt && entry.baseItemRevision == Some(DeleteBase(st, id))
         && entry.delete == Some(op) && entry.upsert == None
  }

  ghost predicate OpFor(st: SyncState, userId: string, t: Task, op: Op, rng: Entropy, pos: nat) {
    match t
    case PutItem(x) => UpsertOf(st, userId, x, op, rng, pos)
    case DropId(id) => DeleteOf(st, userId, id, op, rng, pos)
  }

  lemma OpForTask(st: SyncState, userId: string, t: Task, rng: Entropy, pos: nat, n: nat)
    requires StateOk(st, rng, pos) && pos <= n
    ensures var op := Replayable(st, userId, t).Or(NewOp(st, userId, t, rng(n)));
            OpFor(st, userId, t, op, rng, pos) && op.id == t.Id() && EntryOf(st, t, op, EntryFor(st, t, op))
  {
    if st.pending.Has(t.Id()) { assert EntryOk(t.Id(), st.pending.at[t.Id()]); }
    BaseOf(st, t);
  }

  lemma BaseOf(st: SyncState, t: Task)
    ensures ExpectedBase(st, t) == match t case PutItem(x) => UpsertBase(st, x) case DropId(id) => DeleteBase(st, id)
  {}

  lemma {:induction false} BuildOps(st: SyncState, userId: string, tasks: seq<Task>, rng: Entropy, pos: nat, i: nat)
    requires StateOk(st, rng, pos) && NoDup(TaskIds(tasks)) && i < |tasks|
    ensures var b := Build(st, userId, tasks, rng, pos);
            && pos <= b.pos && OpFor(st, userId, tasks[i], b.ops[i], rng, pos) && b.ops[i].id == tasks[i].Id()
            && b.pending.Has(tasks[i].Id()) && EntryOf(st, tasks[i], b.ops[i], b.pending.at[tasks[i].Id()])
  {
    var n := |tasks| - 1;
    var b := Build(st, userId, tasks[..n], rng, pos);
    assert TaskIds(tasks[..n]) == TaskIds(tasks)[..n];
    if i < n {
      BuildOps(st, userId, tasks[..n], rng, pos, i);
      assert TaskIds(tasks)[i] != TaskIds(tasks)[n];
      assert tasks[i].Id() != tasks[n].Id();
    } else {
      DrawsOnlyGrow(st, userId, tasks[..n], rng, pos);
      OpForTask(st, userId, tasks[n], rng, pos, b.pos);
    }
  }

  lemma {:induction false} DrawsOnlyGrow(st: SyncState, userId: string, tasks: seq<Task>, rng: Entropy, pos: nat)
    ensures pos <= Build(st, userId, tasks, rng, pos).pos
  {
    if tasks != [] { DrawsOnlyGrow(st, userId, tasks[..|tasks| - 1], rng, pos); }
  }

  /**
   * Every operation of every plan, and the entry stored for it. For an item that is not settled: its stored upsert
   * again, if that was sealed for this very version under this account, and otherwise a new one with the fields of the
   * item, its content sealed under a fresh nonce and a fresh mutation id, and as revision and base the last one known
   * of the item, or the stored one of the same version. For an id that is gone: likewise a delete.
   */
  lemma PlannedFields(st: SyncState, userId: string, items: seq<Item>, rng: Entropy, pos: nat, i: nat)
    requires StateOk(st, rng, pos) && UniqueIds(items)
    requires i < |BuildPlan(st, userId, items, rng, pos).ops|
    ensures var b, t := BuildPlan(st, userId, items, rng, pos), WorkList(st, items)[i];
            && |b.ops| <= |WorkList(st, items)|
            && OpFor(st, userId, t, b.ops[i], rng, pos) && b.ops[i].id == t.Id()
            && b.pending.Has(t.Id()) && EntryOf(st, t, b.ops[i], b.pending.at[t.Id()])
            && (forall k :: k !in OpIds(b.ops) ==> b.pending.Get(k) == st.pending.Get(k))
  {
    var tasks := Take(WorkList(st, items), MAX_SYNC_MUTATIONS);
    TasksDistinct(st, items);
    BuildOps(st, userId, tasks, rng, pos, i);
    PlannedIds(st, userId, items, rng, pos);
    BuildShape(st, userId, tasks, rng, pos);
  }

  /** An item edited again over a push that never arrived goes out against the revision last known of it. */
  lemma EditedAgain(st: SyncState, userId: string, items: seq<Item>, rng: Entropy, pos: nat, i: nat, x: Item)
    requires StateOk(st, rng, pos) && UniqueIds(items)
    requires i < |BuildPlan(st, userId, items, rng, pos).ops| && x in items
    requires BuildPlan(st, userId, items, rng, pos).ops[i].id == x.id
    requires st.pending.Has(x.id) && st.pending.at[x.id].itemUpdatedAt != x.updatedAt
    ensures var op := BuildPlan(st, userId, items, rng, pos).ops[i];
            && op.Upsert? && op.baseItemRevision == st.revisions.Get(x.id).Or(0) && op.revision == op.baseItemRevision
            && op.updatedAt == x.updatedAt && Decrypt(op.envelope, x.id) == Some(x)
  {
    PlannedFields(st, userId, items, rng, pos, i);
    var t := WorkList(st, items)[i];
    WorkListMembers(st, items);
    ItemIdsHas(items, x);
    assert t in WorkList(st, items);
    assert t.PutItem? && t.item == x;
  }

  /** A plan is as large as it may be: all the work there is, or a hundred operations. */
  lemma PlanSize(st: SyncState, userId: string, items: seq<Item>, rng: Entropy, pos: nat)
    ensures var w := |WorkList(st, items)|;
            |BuildPlan(st, userId, items, rng, pos).ops| == if w < 100 then w else 100
  {}

  // ---------------------------------------------------------------------------
  // In which order
  // ---------------------------------------------------------------------------

  lemma {:induction false} FilterAt<T>(s: seq<T>, keep: T -> bool, i: nat) returns (a: nat)
    requires i < |Filter(s, keep)|
    ensures a < |s| && s[a] == Filter(s, keep)[i]
  {
    a := |s| - 1;
    if i < |Filter(s[..a], keep)| { a := FilterAt(s[..a], keep, i); }
  }

  lemma {:induction false} FilterInOrder<T>(s: seq<T>, keep: T -> bool, i: nat, j: nat) returns (a: nat, b: nat)
    requires i < j < |Filter(s, keep)|
    ensures a < b < |s| && s[a] == Filter(s, keep)[i] && s[b] == Filter(s, keep)[j]
  {
    var n := |s| - 1;
    if j < |Filter(s[..n], keep)| {
      a, b := FilterInOrder(s[..n], keep, i, j);
    } else {
      a := FilterAt(s[..n], keep, i);
      b := n;
    }
  }

  /** Where a task stands among all that could be: items in vault order, then ids in the order they became known. */
  ghost predicate StandsAt(st: SyncState, items: seq<Item>, t: Task, a: nat) {
    match t
    case PutItem(x) => a < |items| && items[a] == x
    case DropId(k) =>
      var known := st.revisions.keys + st.pending.keys;
      |items| <= a < |items| + |known| && known[a - |items|] == k && k !in known[..a - |items|]
  }

  /** The work list keeps that order. */
  lemma WorkInOrder(st: SyncState, items: seq<Item>, i: nat, j: nat) returns (a: nat, b: nat)
    requires WellFormed(st) && i < j < |WorkList(st, items)|
    ensures a < b && StandsAt(st, items, WorkList(st, items)[i], a) && StandsAt(st, items, WorkList(st, items)[j], b)
  {
    var d, g := DirtyItems(st, items), GoneIds(st, items);
    if j < |d| {
      a, b := FilterInOrder(items, (x: Item) => Dirty(st, x), i, j);
    } else {
      b := KnownAt(st, items, j - |d|);
      if i < |d| {
        a := FilterAt(items, (x: Item) => Dirty(st, x), i);
      } else {
        a, b := KnownInOrder(st, items, i - |d|, j - |d|);
      }
    }
  }

  lemma KnownAt(st: SyncState, items: seq<Item>, i: nat) returns (a: nat)
    requires WellFormed(st) && i < |GoneIds(st, items)|
    ensures StandsAt(st, items, DropId(GoneIds(st, items)[i]), a)
  {
    var c := FilterAt(KnownIds(st), k => k !in ItemIds(items) && k !in st.conflicts, i);
    a := KnownStands(st, items, c);
  }

  /** Where the known ids stand; an id with a revision stands where its revision does. */
  lemma KnownStands(st: SyncState, items: seq<Item>, c: nat) returns (a: nat)
    requires WellFormed(st) && c < |KnownIds(st)|
    ensures StandsAt(st, items, DropId(KnownIds(st)[c]), a)
    ensures c < |st.revisions.keys| ==> a == |items| + c
    ensures c >= |st.revisions.keys| ==> a >= |items| + |st.revisions.keys|
  {
    var r, p := st.revisions.keys, st.pending.keys;
    var novel, known := (k: string) => !st.revisions.Has(k), r + p;
    var k := KnownIds(st)[c];
    if c < |r| {
      a := |items| + c;
      assert known[..c] == r[..c];
    } else {
      FilterIn(p, novel);
      assert k == Filter(p, novel)[c - |r|] && k in Filter(p, novel);
      var e :| 0 <= e < |p| && p[e] == k;
      a := |items| + |r| + e;
      assert known[..|r| + e] == r + p[..e];
      assert k !in r && k !in p[..e];
    }
  }

  lemma KnownInOrder(st: SyncState, items: seq<Item>, i: nat, j: nat) returns (a: nat, b: nat)
    requires WellFormed(st) && i < j < |GoneIds(st, items)|
    ensures a < b && StandsAt(st, items, DropId(GoneIds(st, items)[i]), a) && StandsAt(st, items, DropId(GoneIds(st, items)[j]), b)
  {
    var r, p := st.revisions.keys, st.pending.keys;
    var c, e := FilterInOrder(KnownIds(st), k => k !in ItemIds(items) && k !in st.conflicts, i, j);
    a := KnownStands(st, items, c);
    b := KnownStands(st, items, e);
    if c >= |r| {
      var novel := (k: string) => !st.revisions.Has(k);
      var f, h := FilterInOrder(p, novel, c - |r|, e - |r|);
      assert (r + p)[|r| + f] == p[f] && (r + p)[|r| + h] == p[h];
      SamePlace(p, f, a - |items| - |r|);
      SamePlace(p, h, b - |items| - |r|);
    }
  }

  lemma SamePlace(p: seq<string>, f: nat, e: nat)
    requires NoDup(p) && f < |p| && e < |p| && p[f] == p[e]
    ensures f == e
  {}

  // ---------------------------------------------------------------------------
  // What an accepted reply leaves
  // ---------------------------------------------------------------------------

  lemma {:induction false} AddNewConflicts(ids: seq<string>, conflicts: seq<Conflict>)
    requires NoDup(ConflictIds(conflicts)) && forall k :: k in ConflictIds(conflicts) ==> k !in ids
    ensures AddConflicts(ids, conflicts) == ids + ConflictIds(conflicts)
  {
    if conflicts == [] {
      assert ids + ConflictIds(conflicts) == ids;
    } else {
      var n := |conflicts| - 1;
      var before, last := ConflictIds(conflicts[..n]), conflicts[n].itemId;
      assert before == ConflictIds(conflicts)[..n] && ConflictIds(conflicts)[n] == last;
      assert ConflictIds(conflicts) == before + [last];
      AddNewConflicts(ids, conflicts[..n]);
      AppendLast(ids, before, last);
      assert last in ConflictIds(conflicts) && last !in before;
    }
  }

  /** What is left of an item that got a receipt. */
  ghost predicate Acknowledged(after: SyncState, items: seq<Item>, r: Receipt) {
    && !after.pending.Has(r.itemId)
    && match r.operation
       case OnUpsert =>
         && after.revisions.Get(r.itemId) == Some(r.appliedItemRevision)
         && exists x :: x in items && x.id == r.itemId && after.timestamps.Get(r.itemId) == Some(x.updatedAt)
       case OnDelete => !after.revisions.Has(r.itemId) && !after.timestamps.Has(r.itemId)
  }

  /** ... and of one that came back as a conflict: nothing is settled, and its operation stays stored. */
  ghost predicate Contested(st: SyncState, b: Built, after: SyncState, c: Conflict) {
    && after.revisions.Get(c.itemId) == st.revisions.Get(c.itemId)
    && after.timestamps.Get(c.itemId) == st.timestamps.Get(c.itemId)
    && b.pending.Has(c.itemId) && after.pending.Get(c.itemId) == b.pending.Get(c.itemId)
  }

  /**
   * The state after an accepted reply, whole: the server's revision is taken over, the cursor stays, the conflicts are
   * listed in the order they came, every receipted item is settled at its applied revision and its version, every
   * conflicting one is as it was sent, and no other id is touched.
   */
  lemma RoundLeaves(st: SyncState, userId: string, items: seq<Item>, rng: Entropy, pos: nat, reply: PushReply)
    requires StateOk(st, rng, pos) && UniqueIds(items)
    requires ReplyFault(BuildPlan(st, userId, items, rng, pos).ops, st.serverRevision, reply).None?
    ensures var b := BuildPlan(st, userId, items, rng, pos);
            var after := AfterReply(st, b, reply);
            && after.cursor == st.cursor && after.serverRevision == reply.serverRevision
            && after.conflicts == st.conflicts + ConflictIds(reply.conflicts)
            && (forall r :: r in reply.receipts ==> Acknowledged(after, items, r))
            && (forall c :: c in reply.conflicts ==> Contested(st, b, after, c))
            && (forall k :: k !in OpIds(b.ops) ==> SameAt(after, st, k))
  {
    var b := BuildPlan(st, userId, items, rng, pos);
    ConflictsListed(st, userId, items, rng, pos, reply);
    PlanMeetsSchema(st, userId, items, rng, pos);
    SettleFrame(st.(pending := b.pending), reply.receipts);
    OthersUntouched(st, userId, items, rng, pos, reply);
    PlannedIds(st, userId, items, rng, pos);
    forall c | c in reply.conflicts ensures Contested(st, b, AfterReply(st, b, reply), c) {
      ConflictLeaves(st, userId, items, rng, pos, reply, c);
    }
    forall r | r in reply.receipts ensures Acknowledged(AfterReply(st, b, reply), items, r) {
      ReceiptLeaves(st, userId, items, rng, pos, reply, r);
    }
  }

  lemma ConflictsListed(st: SyncState, userId: string, items: seq<Item>, rng: Entropy, pos: nat, reply: PushReply)
    requires StateOk(st, rng, pos) && UniqueIds(items)
    requires ReplyFault(BuildPlan(st, userId, items, rng, pos).ops, st.serverRevision, reply).None?
    ensures AddConflicts(st.conflicts, reply.conflicts) == st.conflicts + ConflictIds(reply.conflicts)
  {
    PlannedIds(st, userId, items, rng, pos);
    AnswersCover(BuildPlan(st, userId, items, rng, pos).ops, st.serverRevision, reply);
    forall k | k in ConflictIds(reply.conflicts) ensures k !in st.conflicts {
      var i :| 0 <= i < |reply.conflicts| && ConflictIds(reply.conflicts)[i] == k;
      assert reply.conflicts[i] in reply.conflicts;
      ConflictLeaves(st, userId, items, rng, pos, reply, reply.conflicts[i]);
    }
    AddNewConflicts(st.conflicts, reply.conflicts);
  }

  /** The place of a planned id. */
  lemma PlannedAt(st: SyncState, userId: string, items: seq<Item>, rng: Entropy, pos: nat, id: string) returns (i: nat)
    requires StateOk(st, rng, pos) && UniqueIds(items) && id in OpIds(BuildPlan(st, userId, items, rng, pos).ops)
    ensures var b := BuildPlan(st, userId, items, rng, pos);
            && i < |b.ops| <= |WorkList(st, items)| && b.ops[i].id == id == WorkList(st, items)[i].Id()
            && WorkList(st, items)[i] in WorkList(st, items) && id !in st.conflicts
            && b.pending.Has(id) && EntryOf(st, WorkList(st, items)[i], b.ops[i], b.pending.at[id])
  {
    var b := BuildPlan(st, userId, items, rng, pos);
    i :| 0 <= i < |b.ops| && OpIds(b.ops)[i] == id;
    PlannedFields(st, userId, items, rng, pos, i);
    WorkListMembers(st, items);
    assert WorkList(st, items)[i] in WorkList(st, items);
  }

  lemma ConflictLeaves(st: SyncState, userId: string, items: seq<Item>, rng: Entropy, pos: nat, reply: PushReply, c: Conflict)
    requires StateOk(st, rng, pos) && UniqueIds(items) && c in reply.conflicts
    requires ReplyFault(BuildPlan(st, userId, items, rng, pos).ops, st.serverRevision, reply).None?
    ensures var b := BuildPlan(st, userId, items, rng, pos);
            c.itemId !in st.conflicts && Contested(st, b, AfterReply(st, b, reply), c)
  {
    var b := BuildPlan(st, userId, items, rng, pos);
    PlanMeetsSchema(st, userId, items, rng, pos);
    ConflictIsPlanned(b.ops, st.serverRevision, reply, c);
    SettleFrame(st.(pending := b.pending), reply.receipts);
    assert SameAt(SettleReceipts(st.(pending := b.pending), reply.receipts), st.(pending := b.pending), c.itemId);
    var i := PlannedAt(st, userId, items, rng, pos, c.itemId);
  }

  lemma ConflictIsPlanned(ops: seq<Op>, current: int, reply: PushReply, c: Conflict)
    requires MeetsSchema(ops) && ReplyFault(ops, current, reply).None? && c in reply.conflicts
    ensures c.itemId in OpIds(ops) && c.itemId !in ReceiptIds(reply.receipts)
  {
    AnswersCover(ops, current, reply);
    var k :| 0 <= k < |reply.conflicts| && reply.conflicts[k] == c;
    assert ConflictIds(reply.conflicts)[k] == c.itemId;
    assert c.itemId in Elements(ConflictIds(reply.conflicts)) && c.itemId in Elements(OpIds(ops));
    assert c.itemId !in Elements(ReceiptIds(reply.receipts));
  }

  lemma ReceiptLeaves(st: SyncState, userId: string, items: seq<Item>, rng: Entropy, pos: nat, reply: PushReply, r: Receipt)
    requires StateOk(st, rng, pos) && UniqueIds(items) && r in reply.receipts
    requires ReplyFault(BuildPlan(st, userId, items, rng, pos).ops, st.serverRevision, reply).None?
    ensures Acknowledged(AfterReply(st, BuildPlan(st, userId, items, rng, pos), reply), items, r)
  {
    var b := BuildPlan(st, userId, items, rng, pos);
    PlannedIds(st, userId, items, rng, pos);
    AnswersCover(b.ops, st.serverRevision, reply);
    PlanMeetsSchema(st, userId, items, rng, pos);
    var j :| 0 <= j < |reply.receipts| && reply.receipts[j] == r;
    SettleEffect(st.(pending := b.pending), reply.receipts, j);
    var op :| op in b.ops && ReceiptFits(r, op, reply.serverRevision);
    OpIdsHas(b.ops, op);
    var i := PlannedAt(st, userId, items, rng, pos, op.id);
    SameOpById(b.ops, op, b.ops[i]);
    WorkListMembers(st, items);
  }
}
