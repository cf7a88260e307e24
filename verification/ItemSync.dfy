/** Item-level sync plans: what is sent, in which order, and which sealed envelopes are replayed. */
module ItemSync {
  import opened Seqs
  import opened Records

  const MAX_SYNC_MUTATIONS: nat := 100

  datatype Item = Item(id: string, title: string, createdAt: string, updatedAt: string, body: string)

  function ItemIds(items: seq<Item>): seq<string> {
    seq(|items|, i requires 0 <= i < |items| => items[i].id)
  }

  ghost predicate UniqueIds(items: seq<Item>) {
    forall i, j :: 0 <= i < j < |items| ==> items[i].id != items[j].id
  }

  /** A sealed item (key, payload and search tokens), or bytes nobody sealed with this vault key. */
  datatype Envelope = Sealed(item: Item, nonce: string) | Foreign(bytes: seq<int>)

  /** Decryption succeeds only on an item that carries the requested id. */
  function Decrypt(envelope: Envelope, id: string): (r: Option<Item>)
    ensures r.Some? ==> r.value.id == id
  {
    match envelope
    case Sealed(item, _) => if item.id == id then Some(item) else None
    case Foreign(_) => None
  }

  /** One encrypted item operation of a plan. */
  datatype Op =
    | Upsert(id: string, ownerUserId: string, revision: int, createdAt: string, updatedAt: string,
             envelope: Envelope, baseItemRevision: int, clientMutationId: string)
    | Delete(id: string, ownerUserId: string, baseItemRevision: int, deletedAt: string, clientMutationId: string)

  type UpsertOp = op: Op | op.Upsert? witness Upsert("", "", 0, "", "", Foreign([]), 0, "")

  type DeleteOp = op: Op | op.Delete? witness Delete("", "", 0, "", "")

  datatype Pending = Pending(itemUpdatedAt: string, clientMutationId: string, baseItemRevision: Option<int>,
                             upsert: Option<UpsertOp>, delete: Option<DeleteOp>)

  datatype Plan = Plan(baseRevision: int, upserts: seq<UpsertOp>, deletes: seq<DeleteOp>) {
    /** The order in which the reply check enumerates the operations. */
    function Ops(): seq<Op> { upserts + deletes }
  }

  datatype SyncState = SyncState(cursor: int, serverRevision: int, revisions: Record<int>,
                                 timestamps: Record<string>, pending: Record<Pending>, conflicts: seq<string>)

  /** `emptySyncState()`. */
  const EMPTY_SYNC_STATE: SyncState := SyncState(0, 0, Empty(), Empty(), Empty(), [])

  /** One reading of the random source and the clock. */
  datatype Draw = Draw(uuid: string, nonce: string, now: string)

  type Entropy = nat -> Draw

  // ---------------------------------------------------------------------------
  // What has to be pushed
  // ---------------------------------------------------------------------------

  /** One unit of work: an item to upsert, or an id that is gone from the vault. */
  datatype Task = PutItem(item: Item) | DropId(gone: string) {
    function Id(): string { if PutItem? then item.id else gone }

    predicate Fits(op: Op) { PutItem? <==> op.Upsert? }
  }

  predicate Unchanged(st: SyncState, item: Item) {
    st.timestamps.Get(item.id) == Some(item.updatedAt) && !st.pending.Has(item.id)
  }

  predicate Dirty(st: SyncState, item: Item) {
    item.id !in st.conflicts && !Unchanged(st, item)
  }

  function DirtyItems(st: SyncState, items: seq<Item>): seq<Item> {
    Filter(items, (item: Item) => Dirty(st, item))
  }

  /** `new Set([...Object.keys(revisions), ...Object.keys(pending)])` in iteration order. */
  function KnownIds(st: SyncState): seq<string> {
    st.revisions.keys + Filter(st.pending.keys, k => !st.revisions.Has(k))
  }

  function GoneIds(st: SyncState, items: seq<Item>): seq<string> {
    Filter(KnownIds(st), k => k !in ItemIds(items) && k !in st.conflicts)
  }

  function PutTasks(items: seq<Item>): seq<Task> {
    seq(|items|, i requires 0 <= i < |items| => PutItem(items[i]))
  }

  function DropTasks(ids: seq<string>): seq<Task> {
    seq(|ids|, i requires 0 <= i < |ids| => DropId(ids[i]))
  }

  /** Everything a push phase still has to send, in order. */
  function WorkList(st: SyncState, items: seq<Item>): seq<Task> {
    PutTasks(DirtyItems(st, items)) + DropTasks(GoneIds(st, items))
  }

  // ---------------------------------------------------------------------------
  // How one task becomes an operation
  // ---------------------------------------------------------------------------

  /** The base revision an operation is made against; a replayed upsert keeps its old base. */
  function ExpectedBase(st: SyncState, task: Task): int {
    var previous := st.pending.Get(task.Id());
    match task
    case PutItem(item) =>
      if previous.Some? && previous.value.itemUpdatedAt == item.updatedAt && previous.value.upsert.Some?
      then previous.value.baseItemRevision.Or(st.revisions.Get(item.id).Or(0))
      else st.revisions.Get(item.id).Or(0)
    case DropId(id) =>
      st.revisions.Get(id).Or(if previous.Some? then previous.value.baseItemRevision.Or(0) else 0)
  }

  /** The stored operation that may be sent again unchanged, if there is one. */
  function Replayable(st: SyncState, userId: string, task: Task): (r: Option<Op>)
    ensures r.Some? ==> task.Fits(r.value)
  {
    var previous := st.pending.Get(task.Id());
    if previous.None? then None
    else
      var base := ExpectedBase(st, task);
      match task
      case PutItem(item) =>
        if && previous.value.itemUpdatedAt == item.updatedAt
           && previous.value.baseItemRevision == Some(base)
           && previous.value.upsert.Some?
           && previous.value.upsert.value.id == item.id
           && previous.value.upsert.value.ownerUserId == userId
           && previous.value.upsert.value.clientMutationId == previous.value.clientMutationId
        then previous.value.upsert else None
      case DropId(_) =>
        if && previous.value.delete.Some?
           && previous.value.delete.value.ownerUserId == userId
           && previous.value.delete.value.baseItemRevision == base
        then previous.value.delete else None
  }

  function NewOp(st: SyncState, userId: string, task: Task, draw: Draw): (op: Op)
    ensures task.Fits(op)
  {
    var base := ExpectedBase(st, task);
    match task
    case PutItem(item) =>
      Upsert(item.id, userId, base, item.createdAt, item.updatedAt, Sealed(item, draw.nonce), base, draw.uuid)
    case DropId(id) => Delete(id, userId, base, draw.now, draw.uuid)
  }

  function EntryFor(st: SyncState, task: Task, op: Op): Pending
    requires task.Fits(op)
  {
    var base := Some(ExpectedBase(st, task));
    match task
    case PutItem(item) => Pending(item.updatedAt, op.clientMutationId, base, Some(op), None)
    case DropId(_) => Pending(op.deletedAt, op.clientMutationId, base, None, Some(op))
  }

  datatype Built = Built(ops: seq<Op>, pending: Record<Pending>, pos: nat)

  /** The operations and the new pending record for a list of tasks; `pos` counts the draws used. */
  function Build(st: SyncState, userId: string, tasks: seq<Task>, rng: Entropy, pos: nat): (b: Built)
    ensures |b.ops| == |tasks|
  {
    if tasks == [] then Built([], st.pending, pos)
    else
      var b, task := Build(st, userId, tasks[..|tasks| - 1], rng, pos), tasks[|tasks| - 1];
      Next(b, st, userId, task, rng)
  }

  /** The plan of one round: the first hundred units of work. */
  function BuildPlan(st: SyncState, userId: string, items: seq<Item>, rng: Entropy, pos: nat): Built {
    Build(st, userId, Take(WorkList(st, items), MAX_SYNC_MUTATIONS), rng, pos)
  }

  /** The step both planning loops take. */
  function Next(b: Built, st: SyncState, userId: string, task: Task, rng: Entropy): Built {
    var stored := Replayable(st, userId, task);
    var op := stored.Or(NewOp(st, userId, task, rng(b.pos)));
    Built(b.ops + [op], b.pending.Put(task.Id(), EntryFor(st, task, op)),
          if stored.Some? then b.pos else b.pos + 1)
  }

  lemma BuildNext(st: SyncState, userId: string, tasks: seq<Task>, t: Task, rng: Entropy, pos: nat)
    ensures Build(st, userId, tasks + [t], rng, pos) == Next(Build(st, userId, tasks, rng, pos), st, userId, t, rng)
  {
    assert (tasks + [t])[..|tasks|] == tasks;
  }

  lemma UpsertStep(st: SyncState, userId: string, chosen: seq<Item>, item: Item, rng: Entropy, pos: nat)
    ensures Build(st, userId, PutTasks(chosen + [item]), rng, pos) ==
            Next(Build(st, userId, PutTasks(chosen), rng, pos), st, userId, PutItem(item), rng)
  {
    assert PutTasks(chosen + [item]) == PutTasks(chosen) + [PutItem(item)];
    BuildNext(st, userId, PutTasks(chosen), PutItem(item), rng, pos);
  }

  lemma DeleteStep(st: SyncState, userId: string, tasks: seq<Task>, dropped: seq<string>, id: string,
                   rng: Entropy, pos: nat)
    ensures Build(st, userId, tasks + DropTasks(dropped + [id]), rng, pos) ==
            Next(Build(st, userId, tasks + DropTasks(dropped), rng, pos), st, userId, DropId(id), rng)
  {
    assert DropTasks(dropped + [id]) == DropTasks(dropped) + [DropId(id)];
    AppendLast(tasks, DropTasks(dropped), DropId(id));
    BuildNext(st, userId, tasks + DropTasks(dropped), DropId(id), rng, pos);
  }

  function TaskIds(tasks: seq<Task>): seq<string> {
    seq(|tasks|, i requires 0 <= i < |tasks| => tasks[i].Id())
  }

  lemma {:induction false} BuildShape(st: SyncState, userId: string, tasks: seq<Task>, rng: Entropy, pos: nat)
    ensures var b := Build(st, userId, tasks, rng, pos);
            && |b.ops| == |tasks|
            && forall k :: k !in TaskIds(tasks) ==> b.pending.Get(k) == st.pending.Get(k)
  {
    if tasks != [] {
      var init, last := tasks[..|tasks| - 1], tasks[|tasks| - 1];
      BuildShape(st, userId, init, rng, pos);
      assert TaskIds(tasks) == TaskIds(init) + [last.Id()];
    }
  }

  /** `buildItemLevelSyncPlan`: two capped loops that grow the plan and the pending record. */
  method BuildItemLevelSyncPlan(st: SyncState, userId: string, items: seq<Item>, rng: Entropy, pos: nat)
    returns (plan: Plan, pending: Record<Pending>, next: nat)
    requires UniqueIds(items)
    ensures plan.baseRevision == st.serverRevision
    ensures Built(plan.Ops(), pending, next) == BuildPlan(st, userId, items, rng, pos)
  {
    var upserts, afterUpserts, mid;
    upserts, afterUpserts, mid := PlanUpserts(st, userId, items, rng, pos);
    ghost var tasks := PutTasks(Take(DirtyItems(st, items), MAX_SYNC_MUTATIONS));
    var deletes;
    deletes, pending, next := PlanDeletes(st, userId, items, rng, upserts, afterUpserts, mid, tasks, pos);
    PlanIs(st, userId, items, rng, pos, upserts, deletes, pending, next);
    plan := Plan(st.serverRevision, upserts, deletes);
  }

  /** What the two loops come to together. */
  lemma PlanIs(st: SyncState, userId: string, items: seq<Item>, rng: Entropy, pos: nat,
               upserts: seq<UpsertOp>, deletes: seq<DeleteOp>, pending: Record<Pending>, next: nat)
    requires |upserts| == |Take(DirtyItems(st, items), MAX_SYNC_MUTATIONS)|
    requires Built(upserts + deletes, pending, next) ==
             Build(st, userId, PutTasks(Take(DirtyItems(st, items), MAX_SYNC_MUTATIONS)) +
                               DropTasks(Take(GoneIds(st, items), MAX_SYNC_MUTATIONS - |upserts|)), rng, pos)
    ensures Built(Plan(st.serverRevision, upserts, deletes).Ops(), pending, next) == BuildPlan(st, userId, items, rng, pos)
  {
    TakeWork(st, items);
  }

  /** The items the first loop has taken after `i` items of the vault. */
  function Chosen(st: SyncState, items: seq<Item>, i: nat): seq<Item>
    requires i <= |items|
  {
    Take(DirtyItems(st, items[..i]), MAX_SYNC_MUTATIONS)
  }

  lemma NextChosen(st: SyncState, items: seq<Item>, i: nat)
    requires i < |items|
    ensures var chosen := Chosen(st, items, i);
            Chosen(st, items, i + 1) ==
            if Dirty(st, items[i]) && |chosen| < MAX_SYNC_MUTATIONS then chosen + [items[i]] else chosen
  {
    TakeFilterNext(items, i, (item: Item) => Dirty(st, item), MAX_SYNC_MUTATIONS);
  }

  lemma NotYetPlanned(st: SyncState, userId: string, items: seq<Item>, i: nat, rng: Entropy, pos: nat)
    requires UniqueIds(items) && i < |items|
    ensures Build(st, userId, PutTasks(Chosen(st, items, i)), rng, pos).pending.Has(items[i].id) == st.pending.Has(items[i].id)
  {
    var chosen := Chosen(st, items, i);
    var tasks := PutTasks(chosen);
    FilterIn(items[..i], (item: Item) => Dirty(st, item));
    BuildShape(st, userId, tasks, rng, pos);
    forall j | 0 <= j < |tasks| ensures tasks[j].Id() != items[i].id {
      assert chosen[j] in items[..i];
    }
    assert Build(st, userId, tasks, rng, pos).pending.Get(items[i].id) == st.pending.Get(items[i].id);
  }

  /** The first loop, over the items of the vault. */
  method PlanUpserts(st: SyncState, userId: string, items: seq<Item>, rng: Entropy, pos: nat)
    returns (upserts: seq<UpsertOp>, pending: Record<Pending>, next: nat)
    requires UniqueIds(items)
    ensures var tasks := PutTasks(Take(DirtyItems(st, items), MAX_SYNC_MUTATIONS));
            Built(upserts, pending, next) == Build(st, userId, tasks, rng, pos) && |upserts| == |tasks|
  {
    upserts, pending, next := [], st.pending, pos;
    assert items[..0] == [];
    for i := 0 to |items|
      invariant Built(upserts, pending, next) == Build(st, userId, PutTasks(Chosen(st, items, i)), rng, pos)
      invariant |upserts| == |Chosen(st, items, i)|
    {
      var item := items[i];
      NextChosen(st, items, i);
      if item.id in st.conflicts { continue; }
      NotYetPlanned(st, userId, items, i, rng, pos);
      var settled := st.timestamps.Get(item.id) == Some(item.updatedAt) && !pending.Has(item.id);
      if settled || |upserts| >= MAX_SYNC_MUTATIONS { continue; }
      UpsertStep(st, userId, Chosen(st, items, i), item, rng, pos);
      var op: UpsertOp;
      op, pending, next := PlanOne(st, userId, item, rng, pending, next);
      upserts := upserts + [op];
    }
    assert items[..|items|] == items;
  }

  /** One upsert: the stored envelope again, or a new one. */
  method PlanOne(st: SyncState, userId: string, item: Item, rng: Entropy, before: Record<Pending>, pos: nat)
    returns (op: UpsertOp, pending: Record<Pending>, next: nat)
    ensures forall ops :: Built(ops + [op], pending, next) == Next(Built(ops, before, pos), st, userId, PutItem(item), rng)
  {
    var task := PutItem(item);
    var stored := Replayable(st, userId, task);
    op := stored.Or(NewOp(st, userId, task, rng(pos)));
    pending := before.Put(item.id, EntryFor(st, task, op));
    next := if stored.Some? then pos else pos + 1;
  }

  /** A delete more, in the plan and in its operations. */
  lemma NextDelete(st: SyncState, userId: string, tasks: seq<Task>, dropped: seq<string>, id: string, rng: Entropy,
                   pos: nat, built: Built, upserts: seq<Op>, deletes: seq<Op>, op: Op)
    requires built == Build(st, userId, tasks + DropTasks(dropped), rng, pos) && built.ops == upserts + deletes
    requires op == Replayable(st, userId, DropId(id)).Or(NewOp(st, userId, DropId(id), rng(built.pos)))
    ensures var now := Next(built, st, userId, DropId(id), rng);
            && now == Build(st, userId, tasks + DropTasks(dropped + [id]), rng, pos)
            && now.ops == upserts + (deletes + [op])
  {
    DeleteStep(st, userId, tasks, dropped, id, rng, pos);
    AppendLast(upserts, deletes, op);
  }

  /** The second loop, over the ids the client knows but the vault no longer holds. */
  method PlanDeletes(st: SyncState, userId: string, items: seq<Item>, rng: Entropy, upserts: seq<UpsertOp>,
                     afterUpserts: Record<Pending>, mid: nat, ghost tasks: seq<Task>, ghost pos: nat)
    returns (deletes: seq<DeleteOp>, pending: Record<Pending>, next: nat)
    requires |upserts| <= MAX_SYNC_MUTATIONS
    requires Built(upserts, afterUpserts, mid) == Build(st, userId, tasks, rng, pos)
    ensures var more := DropTasks(Take(GoneIds(st, items), MAX_SYNC_MUTATIONS - |upserts|));
            Built(upserts + deletes, pending, next) == Build(st, userId, tasks + more, rng, pos)
  {
    var known := KnownIds(st);
    ghost var gone := (k: string) => k !in ItemIds(items) && k !in st.conflicts;
    ghost var room := MAX_SYNC_MUTATIONS - |upserts|;
    ghost var dropped: seq<string>, built := [], Build(st, userId, tasks, rng, pos);
    deletes, pending, next := [], afterUpserts, mid;
    AppendLast(upserts, [], Delete("", "", 0, "", ""));
    AppendLast(tasks, [], DropId(""));
    var n := 0;
    while n < |known|
      invariant 0 <= n <= |known|
      invariant dropped == Take(Filter(known[..n], gone), room)
      invariant |deletes| == |dropped|
      invariant built == Build(st, userId, tasks + DropTasks(dropped), rng, pos)
      invariant built.ops == upserts + deletes && built.pending == pending && built.pos == next
    {
      var id := known[n];
      TakeFilterNext(known, n, gone, room);
      if id in ItemIds(items) || id in st.conflicts { n := n + 1; continue; }
      if |upserts| + |deletes| >= MAX_SYNC_MUTATIONS { break; }
      var task := DropId(id);
      var stored := Replayable(st, userId, task);
      var op: DeleteOp := stored.Or(NewOp(st, userId, task, rng(next)));
      NextDelete(st, userId, tasks, dropped, id, rng, pos, built, upserts, deletes, op);
      pending := pending.Put(id, EntryFor(st, task, op));
      next := if stored.Some? then next else next + 1;
      deletes := deletes + [op];
      built := Next(built, st, userId, task, rng);
      dropped := dropped + [id];
      n := n + 1;
    }
    TakeFilterFull(known, n, gone, room);
  }

  /** Capping upserts first and deletes with what is left is capping the whole work list. */
  lemma TakeWork(st: SyncState, items: seq<Item>)
    ensures var u := Take(DirtyItems(st, items), MAX_SYNC_MUTATIONS);
            var d := Take(GoneIds(st, items), MAX_SYNC_MUTATIONS - |u|);
            PutTasks(u) + DropTasks(d) == Take(WorkList(st, items), MAX_SYNC_MUTATIONS)
  {
    var u := Take(DirtyItems(st, items), MAX_SYNC_MUTATIONS);
    var d := Take(GoneIds(st, items), MAX_SYNC_MUTATIONS - |u|);
    var w := WorkList(st, items);
    if |DirtyItems(st, items)| > MAX_SYNC_MUTATIONS { assert d == []; }
  }
}
