/**
 * Syncs on storage that is written key by key. A run mixes push attempts and pulled pages in any order; it may crash
 * between any two writes, lose any reply, and start again from whatever the storage holds. The user does not edit the
 * vault meanwhile.
 */
module CrashRuns {
  import opened Seqs
  import opened Records
  import opened ItemSync
  import opened PlanLaws
  import opened PushReplies
  import opened PushRounds
  import opened Pull

  const STORED_KEYS: nat := 6

  /** The storage after the first `k` of the six ordered writes of a commit. */
  function Torn(disk: SyncState, st: SyncState, k: nat): SyncState {
    SyncState(
      if k >= 6 then st.cursor else disk.cursor,
      if k >= 5 then st.serverRevision else disk.serverRevision,
      if k >= 1 then st.revisions else disk.revisions,
      if k >= 2 then st.timestamps else disk.timestamps,
      if k >= 3 then st.pending else disk.pending,
      if k >= 4 then st.conflicts else disk.conflicts)
  }

  /** The six storage keys of the web client. */
  class WebStorage {
    var revisions: Record<int>
    var timestamps: Record<string>
    var pending: Record<Pending>
    var conflicts: seq<string>
    var serverRevision: int
    var cursor: int

    constructor (st: SyncState)
      ensures Load() == st
    {
      cursor, serverRevision, revisions := st.cursor, st.serverRevision, st.revisions;
      timestamps, pending, conflicts := st.timestamps, st.pending, st.conflicts;
    }

    function Load(): SyncState
      reads this
    {
      SyncState(cursor, serverRevision, revisions, timestamps, pending, conflicts)
    }

    /** The commit of a push round; the page dies after `lives` writes if the budget runs out. */
    method Commit(st: SyncState, lives: nat) returns (finished: bool)
      modifies this
      ensures Load() == Torn(old(Load()), st, lives)
      ensures finished <==> lives >= STORED_KEYS
      ensures finished ==> Load() == st
    {
      finished := false;
      if lives < 1 { return; }
      revisions := st.revisions;
      if lives < 2 { return; }
      timestamps := st.timestamps;
      if lives < 3 { return; }
      pending := st.pending;
      if lives < 4 { return; }
      conflicts := st.conflicts;
      if lives < 5 { return; }
      serverRevision := st.serverRevision;
      if lives < 6 { return; }
      cursor := st.cursor;
      finished := true;
    }
  }

  /**
   * A key that was written stands behind all the keys written before it. The cursor comes last, so a torn commit
   * never skips a page.
   */
  lemma KeyOrder(disk: SyncState, st: SyncState, k: nat)
    ensures var t := Torn(disk, st, k);
            && (k == 0 ==> t == disk) && (k == 1 ==> t == disk.(revisions := st.revisions)) && (k >= 6 ==> t == st)
            && (t.cursor != disk.cursor ==> t == st)
            && (t.serverRevision != disk.serverRevision ==> t.conflicts == st.conflicts)
            && (t.conflicts != disk.conflicts ==> t.pending == st.pending)
            && (t.pending != disk.pending ==> t.timestamps == st.timestamps)
            && (t.timestamps != disk.timestamps ==> t.revisions == st.revisions)
  {}

  /** What one attempt at a push round or at a page comes to. */
  datatype Event =
    | DiesPlanning(writes: nat)
    | LosesReply
    | Answered(reply: PushReply, writes: nat)
    | GetsPage(page: PullReply, writes: nat)

  /** The storage and the vault, the draws used, and what the server has executed. */
  datatype World = World(disk: SyncState, items: seq<Item>, pos: nat, executed: seq<Op>)

  /** A server that executes each mutation id once and only repeats its answer afterwards. */
  function Execute(executed: seq<Op>, ops: seq<Op>): seq<Op> {
    if ops == [] then executed
    else
      var done, op := Execute(executed, ops[..|ops| - 1]), ops[|ops| - 1];
      if exists i :: 0 <= i < |done| && done[i].clientMutationId == op.clientMutationId then done else done + [op]
  }

  function Planned(w: World, userId: string, rng: Entropy): Built {
    BuildPlan(w.disk, userId, w.items, rng, w.pos)
  }

  /** The operations an attempt puts on the wire. */
  function Sent(w: World, userId: string, rng: Entropy, e: Event): seq<Op> {
    if e.DiesPlanning? || e.GetsPage? then [] else Planned(w, userId, rng).ops
  }

  ghost predicate Reached(w: World, rng: Entropy) {
    StateOk(w.disk, rng, w.pos) && UniqueIds(w.items)
  }

  /** The page schema admits no negative revision. */
  ghost predicate SchemaPage(page: PullReply) {
    forall c :: c in page.changes ==> 0 <= c.Revision()
  }

  /** An attempt at a push round; `writes` keys of its last commit are written. */
  ghost function Attempt(w: World, userId: string, rng: Entropy, e: Event): World
    requires !e.GetsPage?
  {
    var b := Planned(w, userId, rng);
    var planned := w.disk.(pending := b.pending);
    match e
    case DiesPlanning(writes) => World(Torn(w.disk, planned, writes), w.items, b.pos, w.executed)
    case LosesReply => World(planned, w.items, b.pos, Execute(w.executed, b.ops))
    case Answered(reply, writes) =>
      World(if ReplyFault(b.ops, w.disk.serverRevision, reply).None?
            then Torn(planned, Settle(planned, reply), writes) else planned,
            w.items, b.pos, Execute(w.executed, b.ops))
  }

  /** A page: the pulled vault is stored first, then `writes` of the sync keys. A refused page stores nothing. */
  ghost function Paged(w: World, userId: string, page: PullReply, writes: nat): World
    requires UniqueIds(w.items) && WellFormed(w.disk)
  {
    var p := OnePage(w.disk, userId, w.items, page);
    if !SchemaPage(page) || p.fault.Some? then w
    else w.(disk := Torn(w.disk, p.st, writes), items := p.items)
  }

  ghost function Step(w: World, userId: string, rng: Entropy, e: Event): (w': World)
    requires Reached(w, rng)
    ensures Reached(w', rng)
  {
    if e.GetsPage? then
      PagedStateOk(w, userId, rng, e.page, e.writes);
      Paged(w, userId, e.page, e.writes)
    else
      AttemptStateOk(w, userId, rng, e);
      Attempt(w, userId, rng, e)
  }

  ghost function Run(w: World, userId: string, rng: Entropy, events: seq<Event>): (w': World)
    requires Reached(w, rng)
    ensures Reached(w', rng)
  {
    if events == [] then w
    else Step(Run(w, userId, rng, events[..|events| - 1]), userId, rng, events[|events| - 1])
  }

  /** A torn commit of a planned or settled state is a reachable state again. */
  lemma AttemptStateOk(w: World, userId: string, rng: Entropy, e: Event)
    requires Reached(w, rng) && !e.GetsPage?
    ensures Reached(Attempt(w, userId, rng, e), rng)
  {
    match e
    case DiesPlanning(writes) => PlannedStateOk(w, userId, rng, writes);
    case LosesReply => PlannedStateOk(w, userId, rng, STORED_KEYS);
    case Answered(reply, writes) => AnsweredStateOk(w, userId, rng, reply, writes);
  }

  lemma PlannedStateOk(w: World, userId: string, rng: Entropy, writes: nat)
    requires Reached(w, rng)
    ensures var b := Planned(w, userId, rng);
            StateOk(w.disk.(pending := b.pending), rng, b.pos) &&
            StateOk(Torn(w.disk, w.disk.(pending := b.pending), writes), rng, b.pos)
  {
    var b := Planned(w, userId, rng);
    PlanMeetsSchema(w.disk, userId, w.items, rng, w.pos);
    OlderStateOk(w.disk, userId, Take(WorkList(w.disk, w.items), MAX_SYNC_MUTATIONS), rng, w.pos);
    TornStateOk(w.disk, w.disk.(pending := b.pending), writes, rng, b.pos);
  }

  lemma OlderStateOk(st: SyncState, userId: string, tasks: seq<Task>, rng: Entropy, pos: nat)
    requires StateOk(st, rng, pos)
    ensures StateOk(st, rng, Build(st, userId, tasks, rng, pos).pos)
  {
    DrawsGrow(st, userId, tasks, rng, pos);
  }

  lemma AnsweredStateOk(w: World, userId: string, rng: Entropy, reply: PushReply, writes: nat)
    requires Reached(w, rng)
    ensures var w' := Attempt(w, userId, rng, Answered(reply, writes)); StateOk(w'.disk, rng, w'.pos)
  {
    var b := Planned(w, userId, rng);
    var planned := w.disk.(pending := b.pending);
    PlannedStateOk(w, userId, rng, 0);
    if ReplyFault(b.ops, w.disk.serverRevision, reply).None? {
      RoundDrains(w.disk, userId, w.items, rng, w.pos, reply);
      TornStateOk(planned, Settle(planned, reply), writes, rng, b.pos);
    }
  }

  /** Any mixture of two reachable states that come from ordered writes is reachable. */
  lemma TornStateOk(disk: SyncState, st: SyncState, writes: nat, rng: Entropy, pos: nat)
    requires StateOk(disk, rng, pos) && StateOk(st, rng, pos)
    ensures StateOk(Torn(disk, st, writes), rng, pos)
  {}

  lemma {:induction false} DrawsGrow(st: SyncState, userId: string, tasks: seq<Task>, rng: Entropy, pos: nat)
    ensures pos <= Build(st, userId, tasks, rng, pos).pos
  {
    if tasks != [] { DrawsGrow(st, userId, tasks[..|tasks| - 1], rng, pos); }
  }

  /** So is a pulled page, torn anywhere. */
  lemma PagedStateOk(w: World, userId: string, rng: Entropy, page: PullReply, writes: nat)
    requires Reached(w, rng)
    ensures Reached(Paged(w, userId, page, writes), rng)
  {
    OnePageOk(w.disk, userId, w.items, page);
    FromItemsShape(w.items);
    FoldKeeps(w.disk, userId, ViewOf(w.disk, w.items), page.changes);
  }

  // ---------------------------------------------------------------------------
  // One operation per item
  // ---------------------------------------------------------------------------

  /** The work the vault implies for an id: to hold the item there, or to have it gone. */
  ghost predicate VaultTask(items: seq<Item>, t: Task) {
    match t
    case PutItem(item) => item in items
    case DropId(k) => k !in ItemIds(items)
  }

  /** Nothing is owed for this unit of work. */
  ghost predicate Idle(disk: SyncState, t: Task) {
    match t
    case PutItem(item) => Unchanged(disk, item)
    case DropId(k) => !disk.revisions.Has(k) && !disk.pending.Has(k)
  }

  /** The storage remembers `op` for this unit of work, or regards it as settled. */
  ghost predicate Remembers(disk: SyncState, userId: string, t: Task, op: Op) {
    t.Id() in disk.conflicts || Idle(disk, t) || Replayable(disk, userId, t) == Some(op)
  }

  lemma SameTask(items: seq<Item>, s: Task, t: Task)
    requires UniqueIds(items) && VaultTask(items, s) && VaultTask(items, t) && s.Id() == t.Id()
    ensures s == t
  {
    if s.PutItem? { ItemIdsHas(items, s.item); }
    if t.PutItem? { ItemIdsHas(items, t.item); }
  }

  /** Which task an operation of the plan came from. */
  lemma PlannedTask(st: SyncState, userId: string, items: seq<Item>, rng: Entropy, pos: nat, op: Op) returns (t: Task, i: nat)
    requires StateOk(st, rng, pos) && UniqueIds(items)
    requires op in BuildPlan(st, userId, items, rng, pos).ops
    ensures t in Take(WorkList(st, items), MAX_SYNC_MUTATIONS) && VaultTask(items, t) && t.Id() == op.id
    ensures t.Id() !in st.conflicts && !Idle(st, t)
    ensures Made(st, userId, t, op, BuildPlan(st, userId, items, rng, pos).pending)
    ensures i < |BuildPlan(st, userId, items, rng, pos).ops| && BuildPlan(st, userId, items, rng, pos).ops[i] == op
  {
    var tasks := Take(WorkList(st, items), MAX_SYNC_MUTATIONS);
    var b := BuildPlan(st, userId, items, rng, pos);
    PlannedIds(st, userId, items, rng, pos);
    i :| 0 <= i < |b.ops| && b.ops[i] == op;
    t := tasks[i];
    assert TaskIds(tasks)[i] == OpIds(b.ops)[i];
    TasksDistinct(st, items);
    WorkListMembers(st, items);
  }

  /** Planning keeps what is remembered, and puts nothing else on the wire for a remembered task. */
  lemma PlanRemembers(st: SyncState, userId: string, items: seq<Item>, rng: Entropy, pos: nat, t: Task, op: Op)
    requires StateOk(st, rng, pos) && UniqueIds(items) && VaultTask(items, t)
    requires Remembers(st, userId, t, op)
    ensures var b := BuildPlan(st, userId, items, rng, pos);
            && Remembers(st.(pending := b.pending), userId, t, op)
            && forall o :: o in b.ops && o.id == t.Id() ==> o == op
  {
    var tasks := Take(WorkList(st, items), MAX_SYNC_MUTATIONS);
    var b := BuildPlan(st, userId, items, rng, pos);
    PlannedIds(st, userId, items, rng, pos);
    if t.Id() in TaskIds(tasks) {
      var i :| 0 <= i < |tasks| && tasks[i].Id() == t.Id();
      assert OpIds(b.ops)[i] == b.ops[i].id;
      var s, j := PlannedTask(st, userId, items, rng, pos, b.ops[i]);
      SameTask(items, s, t);
      EntryReplays(st, st.(pending := b.pending), userId, t, b.ops[i]);
      PlanMeetsSchema(st, userId, items, rng, pos);
      forall o | o in b.ops && o.id == t.Id() ensures o == op { SameOpById(b.ops, o, b.ops[i]); }
    } else {
      BuildShape(st, userId, tasks, rng, pos);
      forall o | o in b.ops ensures o.id != t.Id() { OpIdsHas(b.ops, o); }
    }
  }

  /** What has been put on the wire is remembered from then on. */
  lemma SentRemembered(st: SyncState, userId: string, items: seq<Item>, rng: Entropy, pos: nat, t: Task, op: Op)
    requires StateOk(st, rng, pos) && UniqueIds(items) && VaultTask(items, t) && t.Id() == op.id
    requires op in BuildPlan(st, userId, items, rng, pos).ops
    ensures Remembers(st.(pending := BuildPlan(st, userId, items, rng, pos).pending), userId, t, op)
  {
    var s, i := PlannedTask(st, userId, items, rng, pos, op);
    SameTask(items, s, t);
    EntryReplays(st, st.(pending := BuildPlan(st, userId, items, rng, pos).pending), userId, t, op);
  }

  /** The commit after an accepted reply, torn anywhere, forgets nothing that is still owed. */
  lemma SettlingRemembers(st: SyncState, userId: string, items: seq<Item>, rng: Entropy, pos: nat, t: Task, op: Op,
                          reply: PushReply, writes: nat)
    requires StateOk(st, rng, pos) && UniqueIds(items) && VaultTask(items, t)
    requires ReplyFault(BuildPlan(st, userId, items, rng, pos).ops, st.serverRevision, reply).None?
    requires Remembers(st.(pending := BuildPlan(st, userId, items, rng, pos).pending), userId, t, op)
    ensures var planned := st.(pending := BuildPlan(st, userId, items, rng, pos).pending);
            Remembers(Torn(planned, Settle(planned, reply), writes), userId, t, op)
  {
    var b := BuildPlan(st, userId, items, rng, pos);
    var planned := st.(pending := b.pending);
    var settled := Settle(planned, reply);
    PlanMeetsSchema(st, userId, items, rng, pos);
    AddConflictsIn(st.conflicts, reply.conflicts);
    if t.Id() in ReceiptIds(reply.receipts) {
      AnswersCover(b.ops, st.serverRevision, reply);
      NotBoth(t.Id(), reply);
      ReceiptedTask(st, userId, items, rng, pos, t, op, reply);
      SettledTaskIdle(planned, settled, userId, t, op, writes);
    } else {
      SettleFrame(planned, reply.receipts);
      UntouchedRemembers(planned, settled, userId, t, op, writes);
    }
  }

  lemma UntouchedRemembers(planned: SyncState, settled: SyncState, userId: string, t: Task, op: Op, writes: nat)
    requires Remembers(planned, userId, t, op)
    requires settled.revisions.Get(t.Id()) == planned.revisions.Get(t.Id())
    requires settled.timestamps.Get(t.Id()) == planned.timestamps.Get(t.Id())
    requires settled.pending.Get(t.Id()) == planned.pending.Get(t.Id())
    requires t.Id() in planned.conflicts ==> t.Id() in settled.conflicts
    ensures Remembers(Torn(planned, settled, writes), userId, t, op)
  {}

  lemma ReceiptedTask(st: SyncState, userId: string, items: seq<Item>, rng: Entropy, pos: nat, t: Task, op: Op,
                      reply: PushReply)
    requires StateOk(st, rng, pos) && UniqueIds(items) && VaultTask(items, t)
    requires ReplyFault(BuildPlan(st, userId, items, rng, pos).ops, st.serverRevision, reply).None?
    requires Remembers(st.(pending := BuildPlan(st, userId, items, rng, pos).pending), userId, t, op)
    requires t.Id() in ReceiptIds(reply.receipts) && t.Id() !in ConflictIds(reply.conflicts)
    ensures var planned := st.(pending := BuildPlan(st, userId, items, rng, pos).pending);
            && Replayable(planned, userId, t) == Some(op)
            && planned.pending.Has(t.Id())
            && planned.pending.at[t.Id()].baseItemRevision == Some(ExpectedBase(planned, t))
            && TaskSettled(t, Settle(planned, reply))
  {
    var b := BuildPlan(st, userId, items, rng, pos);
    var planned := st.(pending := b.pending);
    PlanMeetsSchema(st, userId, items, rng, pos);
    AnswersCover(b.ops, st.serverRevision, reply);
    assert t.Id() in Elements(OpIds(b.ops));
    var j :| 0 <= j < |b.ops| && OpIds(b.ops)[j] == t.Id();
    var s, i := PlannedTask(st, userId, items, rng, pos, b.ops[j]);
    SameTask(items, s, t);
    EntryReplays(st, planned, userId, t, b.ops[j]);
    RoundHasEffect(st, userId, items, rng, pos, reply);
    AddConflictsIn(st.conflicts, reply.conflicts);
  }

  lemma NotBoth(id: string, reply: PushReply)
    requires Elements(ReceiptIds(reply.receipts)) !! Elements(ConflictIds(reply.conflicts))
    requires id in ReceiptIds(reply.receipts)
    ensures id !in ConflictIds(reply.conflicts)
  {
    assert id in Elements(ReceiptIds(reply.receipts));
  }

  /** Before the pending record is overwritten the operation replays; after it, nothing is owed. */
  lemma SettledTaskIdle(planned: SyncState, settled: SyncState, userId: string, t: Task, op: Op, writes: nat)
    requires Replayable(planned, userId, t) == Some(op) && planned.pending.Has(t.Id())
    requires planned.pending.at[t.Id()].baseItemRevision == Some(ExpectedBase(planned, t))
    requires TaskSettled(t, settled)
    ensures Remembers(Torn(planned, settled, writes), userId, t, op)
  {}

  lemma AttemptRemembers(w: World, userId: string, rng: Entropy, e: Event, t: Task, op: Op)
    requires Reached(w, rng) && !e.GetsPage? && VaultTask(w.items, t)
    requires Remembers(w.disk, userId, t, op) || (op in Sent(w, userId, rng, e) && t.Id() == op.id)
    ensures Remembers(Attempt(w, userId, rng, e).disk, userId, t, op)
  {
    if op in Sent(w, userId, rng, e) && t.Id() == op.id {
      SentRemembered(w.disk, userId, w.items, rng, w.pos, t, op);
    } else {
      PlanRemembers(w.disk, userId, w.items, rng, w.pos, t, op);
    }
    if e.Answered? && ReplyFault(Planned(w, userId, rng).ops, w.disk.serverRevision, e.reply).None? {
      SettlingRemembers(w.disk, userId, w.items, rng, w.pos, t, op, e.reply, e.writes);
    }
  }

  /** Work for an id nobody has edited is owed again, because its timestamp, or its revision, was not yet written. */
  ghost predicate BackOnList(st: SyncState, p: Page, writes: nat, k: string) {
    && !Protected(st, k)
    && (|| (writes < 2 && exists x :: x in p.items && x.id == k && st.timestamps.Get(k) != Some(x.updatedAt))
        || (writes < 1 && k !in ItemIds(p.items) && st.revisions.Has(k)))
  }

  /** A stored page, torn after `writes` sync keys, that brings the id back on the work list. */
  ghost predicate Respends(w: World, userId: string, page: PullReply, writes: nat, k: string)
    requires UniqueIds(w.items) && WellFormed(w.disk)
  {
    var p := OnePage(w.disk, userId, w.items, page);
    SchemaPage(page) && p.fault.None? && BackOnList(w.disk, p, writes, k)
  }

  /** The event brings no executed item back. */
  ghost predicate Harmless(w: World, userId: string, e: Event)
    requires UniqueIds(w.items) && WellFormed(w.disk)
  {
    e.GetsPage? ==> forall o :: o in w.executed ==> !Respends(w, userId, e.page, e.writes, o.id)
  }

  /** The work an id implies after a page is what it implied before, or nothing is owed for it. */
  lemma PagedRemembers(w: World, userId: string, rng: Entropy, page: PullReply, writes: nat, t: Task, op: Op)
    requires Reached(w, rng) && !Respends(w, userId, page, writes, t.Id())
    requires VaultTask(Paged(w, userId, page, writes).items, t)
    requires VaultTask(w.items, t) ==> Remembers(w.disk, userId, t, op)
    ensures Remembers(Paged(w, userId, page, writes).disk, userId, t, op)
  {
    var p := OnePage(w.disk, userId, w.items, page);
    if SchemaPage(page) && p.fault.None? {
      OnePageOk(w.disk, userId, w.items, page);
      FromItemsShape(w.items);
      FromItemsShape(p.items);
      FoldFeeds(w.disk, userId, ViewOf(w.disk, w.items), page.changes, t.Id());
      FedRemembers(w.disk, w.items, p, userId, writes, t, op);
    }
  }

  lemma FedRemembers(st: SyncState, items: seq<Item>, p: Page, userId: string, writes: nat, t: Task, op: Op)
    requires p.st.pending == st.pending && p.st.conflicts == st.conflicts
    requires Indexed(items) && Indexed(p.items) && VaultTask(p.items, t)
    requires Fed(st, ViewOf(st, items), ViewOf(p.st, p.items), t.Id()) && !BackOnList(st, p, writes, t.Id())
    requires VaultTask(items, t) ==> Remembers(st, userId, t, op)
    ensures Remembers(Torn(st, p.st, writes), userId, t, op)
  {
    var k := t.Id();
    HeldAt(p.items, t);
    if FromItems(p.items).Get(k) == FromItems(items).Get(k) { HeldAt(items, t); }
  }

  /** The record of a vault finds every item, and nothing under an id it does not hold. */
  ghost predicate Indexed(items: seq<Item>) {
    && FromItems(items).Valid() && FromItems(items).keys == ItemIds(items)
    && (forall k :: k in FromItems(items).at ==> FromItems(items).at[k].id == k)
    && forall x :: x in items ==> FromItems(items).Get(x.id) == Some(x)
  }

  lemma HeldAt(items: seq<Item>, t: Task)
    requires Indexed(items)
    ensures VaultTask(items, t) <==>
            FromItems(items).Get(t.Id()) == if t.PutItem? then Some(t.item) else None
  {
    var k := t.Id();
    if k in ItemIds(items) {
      var i :| 0 <= i < |items| && ItemIds(items)[i] == k;
      assert items[i] in items;
    }
    if t.PutItem? && t.item in items { ItemIdsHas(items, t.item); }
  }

  // ---------------------------------------------------------------------------
  // Executed exactly once
  // ---------------------------------------------------------------------------

  /** No pending entry of another item, and no future draw, carries an executed mutation id. */
  ghost predicate MutationsApart(pending: Record<Pending>, rng: Entropy, pos: nat, executed: seq<Op>) {
    && (forall o, k :: o in executed && k in pending.at && pending.at[k].clientMutationId == o.clientMutationId ==> k == o.id)
    && forall o, n: nat :: o in executed && pos <= n ==> rng(n).uuid != o.clientMutationId
  }

  /** Two operations about the same item, or under the same mutation id, are one operation. */
  ghost predicate Compatible(a: Op, b: Op) {
    a.id == b.id || a.clientMutationId == b.clientMutationId ==> a == b
  }

  ghost predicate WorldOk(w: World, userId: string, rng: Entropy) {
    && Reached(w, rng)
    && NoDup(OpIds(w.executed)) && (forall a, b :: a in w.executed && b in w.executed ==> Compatible(a, b))
    && MutationsApart(w.disk.pending, rng, w.pos, w.executed)
    && forall o, t: Task :: o in w.executed && VaultTask(w.items, t) && t.Id() == o.id ==> Remembers(w.disk, userId, t, o)
  }

  lemma {:induction false} BuildApart(st: SyncState, userId: string, tasks: seq<Task>, rng: Entropy, pos: nat, executed: seq<Op>)
    requires StateOk(st, rng, pos) && NoDup(TaskIds(tasks)) && MutationsApart(st.pending, rng, pos, executed)
    ensures var b := Build(st, userId, tasks, rng, pos);
            MutationsApart(b.pending, rng, b.pos, executed) && pos <= b.pos
  {
    if tasks != [] {
      var n := |tasks| - 1;
      assert TaskIds(tasks[..n]) == TaskIds(tasks)[..n];
      BuildApart(st, userId, tasks[..n], rng, pos, executed);
      BuildShape(st, userId, tasks[..n], rng, pos);
      assert forall i :: 0 <= i < n ==> TaskIds(tasks)[i] != TaskIds(tasks)[n];
      var b := Build(st, userId, tasks[..n], rng, pos);
      assert b.pending.Get(tasks[n].Id()) == st.pending.Get(tasks[n].Id());
      if st.pending.Has(tasks[n].Id()) { assert EntryOk(tasks[n].Id(), st.pending.at[tasks[n].Id()]); }
    }
  }

  lemma {:induction false} ExecuteOnce(executed: seq<Op>, ops: seq<Op>)
    requires NoDup(OpIds(executed))
    requires forall a, b :: (a in executed || a in ops) && (b in executed || b in ops) ==> Compatible(a, b)
    ensures var done := Execute(executed, ops);
            NoDup(OpIds(done)) && forall o :: o in done <==> o in executed || o in ops
  {
    if ops != [] {
      var n := |ops| - 1;
      ExecuteOnce(executed, ops[..n]);
      assert ops == ops[..n] + [ops[n]];
      var done := Execute(executed, ops[..n]);
      if i :| 0 <= i < |done| && done[i].clientMutationId == ops[n].clientMutationId {
        assert done[i] in done && Compatible(done[i], ops[n]);
      } else {
        forall i | 0 <= i < |done| ensures done[i].id != ops[n].id {
          assert done[i] in done && Compatible(done[i], ops[n]);
        }
        assert OpIds(done + [ops[n]]) == OpIds(done) + [ops[n].id];
      }
    }
  }

  /** Whatever a reachable world sends is compatible with everything executed so far. */
  lemma SentCompatible(w: World, userId: string, rng: Entropy, op: Op, o: Op)
    requires WorldOk(w, userId, rng)
    requires op in Planned(w, userId, rng).ops && o in w.executed
    ensures Compatible(op, o)
  {
    var t, i := PlannedTask(w.disk, userId, w.items, rng, w.pos, op);
    if op.id == o.id {
      PlanRemembers(w.disk, userId, w.items, rng, w.pos, t, o);
    } else if op.clientMutationId == o.clientMutationId {
      TasksDistinct(w.disk, w.items);
      BuildApart(w.disk, userId, Take(WorkList(w.disk, w.items), MAX_SYNC_MUTATIONS), rng, w.pos, w.executed);
    }
  }

  lemma StepExecutes(w: World, userId: string, rng: Entropy, e: Event)
    requires WorldOk(w, userId, rng)
    ensures var w' := Step(w, userId, rng, e);
            && NoDup(OpIds(w'.executed))
            && (forall a, c :: a in w'.executed && c in w'.executed ==> Compatible(a, c))
            && forall o :: o in w'.executed <==> o in w.executed || o in Sent(w, userId, rng, e)
  {
    var b := Planned(w, userId, rng);
    if !e.DiesPlanning? && !e.GetsPage? {
      PlanMeetsSchema(w.disk, userId, w.items, rng, w.pos);
      forall a, c | (a in w.executed || a in b.ops) && (c in w.executed || c in b.ops) ensures Compatible(a, c) {
        if a in b.ops && c in b.ops {
          if a.id == c.id || a.clientMutationId == c.clientMutationId { SameOpById(b.ops, a, c); }
        } else if a in b.ops {
          SentCompatible(w, userId, rng, a, c);
        } else if c in b.ops {
          SentCompatible(w, userId, rng, c, a);
        }
      }
      ExecuteOnce(w.executed, b.ops);
    }
  }

  lemma {:induction false} SettledPending(st: SyncState, receipts: seq<Receipt>)
    ensures var s := SettleReceipts(st, receipts);
            forall k :: k in s.pending.at ==> k in st.pending.at && s.pending.at[k] == st.pending.at[k]
  {
    if receipts != [] { SettledPending(st, receipts[..|receipts| - 1]); }
  }

  lemma SentApart(st: SyncState, userId: string, items: seq<Item>, rng: Entropy, pos: nat, executed: seq<Op>, done: seq<Op>)
    requires StateOk(st, rng, pos) && UniqueIds(items) && MutationsApart(st.pending, rng, pos, executed)
    requires forall o :: o in done ==> o in executed || o in BuildPlan(st, userId, items, rng, pos).ops
    ensures var b := BuildPlan(st, userId, items, rng, pos); MutationsApart(b.pending, rng, b.pos, done)
  {
    var b := BuildPlan(st, userId, items, rng, pos);
    TasksDistinct(st, items);
    BuildApart(st, userId, Take(WorkList(st, items), MAX_SYNC_MUTATIONS), rng, pos, executed);
    PlanMeetsSchema(st, userId, items, rng, pos);
    forall o | o in b.ops ensures o.id in b.pending.at && b.pending.at[o.id].clientMutationId == o.clientMutationId {
      var t, i := PlannedTask(st, userId, items, rng, pos, o);
    }
  }

  lemma StepApart(w: World, userId: string, rng: Entropy, e: Event)
    requires WorldOk(w, userId, rng)
    ensures var w' := Step(w, userId, rng, e); MutationsApart(w'.disk.pending, rng, w'.pos, w'.executed)
  {
    if e.GetsPage? {
      OnePageOk(w.disk, userId, w.items, e.page);
    } else {
      AttemptApart(w, userId, rng, e);
    }
  }

  lemma AttemptApart(w: World, userId: string, rng: Entropy, e: Event)
    requires WorldOk(w, userId, rng) && !e.GetsPage?
    ensures var w' := Attempt(w, userId, rng, e); MutationsApart(w'.disk.pending, rng, w'.pos, w'.executed)
  {
    var b, w' := Planned(w, userId, rng), Attempt(w, userId, rng, e);
    DrawsGrow(w.disk, userId, Take(WorkList(w.disk, w.items), MAX_SYNC_MUTATIONS), rng, w.pos);
    StepExecutes(w, userId, rng, e);
    SentApart(w.disk, userId, w.items, rng, w.pos, w.executed, w'.executed);
    if e.Answered? { SettledPending(w.disk.(pending := b.pending), e.reply.receipts); }
  }

  lemma StepOk(w: World, userId: string, rng: Entropy, e: Event)
    requires WorldOk(w, userId, rng) && Harmless(w, userId, e)
    ensures WorldOk(Step(w, userId, rng, e), userId, rng)
  {
    var w' := Step(w, userId, rng, e);
    StepExecutes(w, userId, rng, e);
    StepApart(w, userId, rng, e);
    forall o, t: Task | o in w'.executed && VaultTask(w'.items, t) && t.Id() == o.id
      ensures Remembers(w'.disk, userId, t, o)
    {
      if e.GetsPage? {
        PagedRemembers(w, userId, rng, e.page, e.writes, t, o);
      } else {
        AttemptRemembers(w, userId, rng, e, t, o);
      }
    }
  }

  ghost predicate Starts(w: World, rng: Entropy) {
    Reached(w, rng) && w.executed == []
  }

  /** No page of the run brings an executed item back on the work list. */
  ghost predicate NoneRespent(w: World, userId: string, rng: Entropy, events: seq<Event>)
    requires Reached(w, rng)
  {
    forall k :: 0 <= k < |events| ==> Harmless(Run(w, userId, rng, events[..k]), userId, events[k])
  }

  lemma NoneRespentBefore(w: World, userId: string, rng: Entropy, events: seq<Event>, m: nat)
    requires Reached(w, rng) && NoneRespent(w, userId, rng, events) && m <= |events|
    ensures NoneRespent(w, userId, rng, events[..m])
  {
    forall k | 0 <= k < m ensures Harmless(Run(w, userId, rng, events[..m][..k]), userId, events[..m][k]) {
      assert events[..m][..k] == events[..k];
    }
  }

  /** It is enough that pages are stored at least up to the timestamps. */
  lemma StoredPagesRespendNone(w: World, userId: string, rng: Entropy, events: seq<Event>)
    requires Reached(w, rng) && forall k :: 0 <= k < |events| && events[k].GetsPage? ==> events[k].writes >= 2
    ensures NoneRespent(w, userId, rng, events)
  {
    forall k | 0 <= k < |events| ensures Harmless(Run(w, userId, rng, events[..k]), userId, events[k]) {}
  }

  lemma {:induction false} RunOk(w: World, userId: string, rng: Entropy, events: seq<Event>)
    requires Starts(w, rng) && NoneRespent(w, userId, rng, events)
    ensures WorldOk(Run(w, userId, rng, events), userId, rng)
  {
    if events != [] {
      var n := |events| - 1;
      NoneRespentBefore(w, userId, rng, events, n);
      RunOk(w, userId, rng, events[..n]);
      StepOk(Run(w, userId, rng, events[..n]), userId, rng, events[n]);
    }
  }

  /** The operations attempt `n` of a run puts on the wire. */
  ghost function SentAt(w: World, userId: string, rng: Entropy, events: seq<Event>, n: nat): seq<Op>
    requires Reached(w, rng) && n < |events|
  {
    Sent(Run(w, userId, rng, events[..n]), userId, rng, events[n])
  }

  /** The executed list only grows, and by what is sent. */
  lemma NextExecutes(w: World, userId: string, rng: Entropy, events: seq<Event>, m: nat, op: Op)
    requires Starts(w, rng) && NoneRespent(w, userId, rng, events) && m < |events|
    ensures op in Run(w, userId, rng, events[..m]).executed ==> op in Run(w, userId, rng, events[..m + 1]).executed
    ensures op in SentAt(w, userId, rng, events, m) ==> op in Run(w, userId, rng, events[..m + 1]).executed
  {
    assert events[..m + 1][..m] == events[..m];
    NoneRespentBefore(w, userId, rng, events, m);
    RunOk(w, userId, rng, events[..m]);
    StepExecutes(Run(w, userId, rng, events[..m]), userId, rng, events[m]);
  }

  ghost predicate SentIn(w: World, userId: string, rng: Entropy, events: seq<Event>, n: nat, op: Op)
    requires Reached(w, rng)
  {
    n < |events| && op in SentAt(w, userId, rng, events, n)
  }

  /** What is executed, or sent next, is executed at the end. */
  lemma {:induction false} ExecutedStays(w: World, userId: string, rng: Entropy, events: seq<Event>, m: nat, op: Op)
    requires Starts(w, rng) && NoneRespent(w, userId, rng, events) && m <= |events|
    requires op in Run(w, userId, rng, events[..m]).executed || SentIn(w, userId, rng, events, m, op)
    ensures op in Run(w, userId, rng, events).executed
    decreases |events| - m
  {
    if m < |events| {
      NextExecutes(w, userId, rng, events, m, op);
      ExecutedStays(w, userId, rng, events, m + 1, op);
    } else {
      assert events[..m] == events;
    }
  }

  /**
   * Exactly once. Over any mixture of pulled pages with push attempts that crash between storage writes, lose replies
   * or are answered arbitrarily: two operations ever sent for the same item are the same operation, with the same
   * mutation id, base revision and envelope, pulls in between or not; and an idempotent server executes every
   * operation that was sent, once, and at most one for each item. The commit of a page may be torn anywhere, too, as long
   * as that brings no executed item back on the work list; `PageSafeExactly` says that this is what it takes.
   */
  lemma ExactlyOnce(w: World, userId: string, rng: Entropy, events: seq<Event>, m: nat, a: Op, n: nat, b: Op)
    requires Starts(w, rng) && NoneRespent(w, userId, rng, events)
    requires SentIn(w, userId, rng, events, m, a) && SentIn(w, userId, rng, events, n, b)
    ensures a.id == b.id ==> a == b
    ensures var done := Run(w, userId, rng, events).executed;
            NoDup(OpIds(done)) && a in done
  {
    ExecutedStays(w, userId, rng, events, m, a);
    ExecutedStays(w, userId, rng, events, n, b);
    RunOk(w, userId, rng, events);
    ExecutedApart(Run(w, userId, rng, events), userId, rng, a, b);
  }

  lemma ExecutedApart(w: World, userId: string, rng: Entropy, a: Op, b: Op)
    requires WorldOk(w, userId, rng) && a in w.executed && b in w.executed
    ensures Compatible(a, b) && NoDup(OpIds(w.executed))
  {}

  /**
   * ... and what was sent is either settled on the storage or still owed in exactly the form it was sent: the next
   * plan that reaches its task sends it again unchanged. `t` is the work the vault implies for the id by then.
   */
  lemma StillOwedUnchanged(w: World, userId: string, rng: Entropy, events: seq<Event>, n: nat, op: Op, t: Task)
    requires Starts(w, rng) && NoneRespent(w, userId, rng, events) && SentIn(w, userId, rng, events, n, op)
    requires VaultTask(Run(w, userId, rng, events).items, t) && t.Id() == op.id
    ensures var e := Run(w, userId, rng, events);
            || op.id in e.disk.conflicts || Idle(e.disk, t)
            || (t in WorkList(e.disk, e.items) && Replayable(e.disk, userId, t) == Some(op))
  {
    RunOk(w, userId, rng, events);
    ExecutedStays(w, userId, rng, events, n, op);
    var e := Run(w, userId, rng, events);
    assert Remembers(e.disk, userId, t, op);
    if t.Id() !in e.disk.conflicts && !Idle(e.disk, t) { OwedIsListed(e.disk, e.items, t); }
  }

  lemma OwedIsListed(disk: SyncState, items: seq<Item>, t: Task)
    requires WellFormed(disk) && VaultTask(items, t) && t.Id() !in disk.conflicts && !Idle(disk, t)
    ensures t in WorkList(disk, items)
  {
    WorkListMembers(disk, items);
  }

  // ---------------------------------------------------------------------------
  // A torn pull commit
  // ---------------------------------------------------------------------------

  /** What a stored page did to an id: a version was put there, or it was removed. */
  ghost predicate PutByPage(st: SyncState, p: Page, x: Item) {
    !Protected(st, x.id) && x in p.items && p.st.timestamps.Get(x.id) == Some(x.updatedAt)
  }

  ghost predicate CutByPage(st: SyncState, p: Page, k: string) {
    !Protected(st, k) && k !in ItemIds(p.items) && !p.st.revisions.Has(k)
  }

  /**
   * The web client writes a pulled vault first and its sync keys after it. If the page dies in between, a pulled
   * version passes for a local edit exactly when its timestamp was not yet written and the old one differs, and a
   * pulled removal for a local deletion exactly when not even the revisions were written and the id was known.
   */
  lemma TornPullLooksEdited(st: SyncState, userId: string, items: seq<Item>, page: PullReply, writes: nat)
    requires WellFormed(st) && UniqueIds(items) && OnePage(st, userId, items, page).fault.None?
    ensures var p := OnePage(st, userId, items, page);
            && (forall x :: PutByPage(st, p, x) ==>
                  (PutItem(x) in WorkList(Torn(st, p.st, writes), p.items) <==>
                   writes < 2 && st.timestamps.Get(x.id) != Some(x.updatedAt)))
            && (forall k :: CutByPage(st, p, k) ==>
                  (DropId(k) in WorkList(Torn(st, p.st, writes), p.items) <==> writes < 1 && st.revisions.Has(k)))
  {
    OnePageOk(st, userId, items, page);
    WorkListMembers(Torn(st, OnePage(st, userId, items, page).st, writes), OnePage(st, userId, items, page).items);
  }

  /**
   * What the next plan then sends for the id is a new operation, never a replay: the pulled version sealed again, or
   * a delete, against the old revision if none was written, and against the pulled one otherwise.
   */
  lemma TornPullSendsAgain(w: World, userId: string, rng: Entropy, page: PullReply, writes: nat, op: Op)
    requires Reached(w, rng) && SchemaPage(page)
    requires OnePage(w.disk, userId, w.items, page).fault.None? && !Protected(w.disk, op.id)
    requires op in Planned(Paged(w, userId, page, writes), userId, rng).ops
    ensures var p := OnePage(w.disk, userId, w.items, page);
            && op.baseItemRevision == (if writes < 1 then w.disk else p.st).revisions.Get(op.id).Or(0)
            && (exists n: nat :: w.pos <= n && rng(n).uuid == op.clientMutationId)
            && (op.Upsert? ==> exists x :: x in p.items && x.id == op.id && Decrypt(op.envelope, op.id) == Some(x))
            && (op.Delete? ==> op.id !in ItemIds(p.items))
  {
    PagedStateOk(w, userId, rng, page, writes);
    OnePageOk(w.disk, userId, w.items, page);
    var w' := Paged(w, userId, page, writes);
    NewOpSent(w'.disk, userId, w'.items, rng, w'.pos, op);
  }

  lemma RespentTask(st: SyncState, p: Page, writes: nat, k: string) returns (t: Task)
    requires BackOnList(st, p, writes, k)
    ensures VaultTask(p.items, t) && t.Id() == k && !Idle(Torn(st, p.st, writes), t)
  {
    if writes < 2 && exists x :: x in p.items && x.id == k && st.timestamps.Get(k) != Some(x.updatedAt) {
      var x :| x in p.items && x.id == k && st.timestamps.Get(k) != Some(x.updatedAt);
      t := PutItem(x);
    } else {
      t := DropId(k);
    }
  }

  /** Work for a respent id is on the list, and it is not remembered as sent. */
  lemma RespentIsListed(w: World, userId: string, rng: Entropy, page: PullReply, writes: nat, o: Op)
    requires Reached(w, rng) && Respends(w, userId, page, writes, o.id)
    ensures var w' := Paged(w, userId, page, writes);
            exists t :: t in WorkList(w'.disk, w'.items) && t.Id() == o.id && VaultTask(w'.items, t) &&
              !Remembers(w'.disk, userId, t, o)
  {
    var p, w' := OnePage(w.disk, userId, w.items, page), Paged(w, userId, page, writes);
    OnePageOk(w.disk, userId, w.items, page);
    PagedStateOk(w, userId, rng, page, writes);
    var t := RespentTask(w.disk, p, writes, o.id);
    OwedIsListed(w'.disk, w'.items, t);
  }

  /**
   * A page, torn or whole, leaves every executed operation settled or replayable as it is if and only if it brings
   * no executed item back on the work list.
   */
  lemma PageSafeExactly(w: World, userId: string, rng: Entropy, page: PullReply, writes: nat)
    requires WorldOk(w, userId, rng)
    ensures WorldOk(Paged(w, userId, page, writes), userId, rng) <==> Harmless(w, userId, GetsPage(page, writes))
  {
    if Harmless(w, userId, GetsPage(page, writes)) {
      StepOk(w, userId, rng, GetsPage(page, writes));
    } else {
      var o :| o in w.executed && Respends(w, userId, page, writes, o.id);
      RespentIsListed(w, userId, rng, page, writes, o);
    }
  }

  /** ... so an item that was executed before is executed a second time: exactly-once ends here. */
  lemma TornPullRepeats(w: World, userId: string, rng: Entropy, page: PullReply, writes: nat, o: Op, op: Op)
    requires WorldOk(w, userId, rng) && SchemaPage(page) && o in w.executed
    requires OnePage(w.disk, userId, w.items, page).fault.None? && !Protected(w.disk, op.id)
    requires op in Planned(Paged(w, userId, page, writes), userId, rng).ops && op.id == o.id
    ensures op != o && op.clientMutationId != o.clientMutationId && !Harmless(w, userId, GetsPage(page, writes))
  {
    TornPullSendsAgain(w, userId, rng, page, writes, op);
    if Harmless(w, userId, GetsPage(page, writes)) {
      StepOk(w, userId, rng, GetsPage(page, writes));
      SentCompatible(Paged(w, userId, page, writes), userId, rng, op, o);
    }
  }

  /** What is sent for an id with nothing pending. */
  lemma NewOpSent(st: SyncState, userId: string, items: seq<Item>, rng: Entropy, pos: nat, op: Op)
    requires StateOk(st, rng, pos) && UniqueIds(items)
    requires op in BuildPlan(st, userId, items, rng, pos).ops && !st.pending.Has(op.id)
    ensures op.baseItemRevision == st.revisions.Get(op.id).Or(0)
    ensures exists n: nat :: pos <= n && rng(n).uuid == op.clientMutationId
    ensures op.Upsert? ==> exists x :: x in items && x.id == op.id && Decrypt(op.envelope, op.id) == Some(x)
    ensures op.Delete? ==> op.id !in ItemIds(items)
  {
    var tasks := Take(WorkList(st, items), MAX_SYNC_MUTATIONS);
    var t, i := PlannedTask(st, userId, items, rng, pos, op);
    PlannedIds(st, userId, items, rng, pos);
    assert TaskIds(tasks)[i] == OpIds(BuildPlan(st, userId, items, rng, pos).ops)[i];
    TasksDistinct(st, items);
    SameById(tasks, t, i);
    NewOpsDrawn(st, userId, tasks, rng, pos, i);
    var n: nat :| pos <= n && op == NewOp(st, userId, t, rng(n));
    NewOpIs(st, userId, t, rng(n));
  }

  lemma NewOpIs(st: SyncState, userId: string, t: Task, draw: Draw)
    requires !st.pending.Has(t.Id())
    ensures var op := NewOp(st, userId, t, draw);
            && op.id == t.Id() && op.clientMutationId == draw.uuid
            && op.baseItemRevision == st.revisions.Get(t.Id()).Or(0)
            && (t.PutItem? ==> op.Upsert? && Decrypt(op.envelope, op.id) == Some(t.item))
            && (t.DropId? ==> op.Delete?)
  {}

  /** The work at a position is the work with that id. */
  lemma SameById(tasks: seq<Task>, t: Task, i: nat)
    requires NoDup(TaskIds(tasks)) && t in tasks && i < |tasks| && t.Id() == tasks[i].Id()
    ensures t == tasks[i]
  {
    var j :| 0 <= j < |tasks| && tasks[j] == t;
    assert TaskIds(tasks)[i] == TaskIds(tasks)[j];
  }

  /** An operation without a stored entry is made from a draw of its own. */
  lemma {:induction false} NewOpsDrawn(st: SyncState, userId: string, tasks: seq<Task>, rng: Entropy, pos: nat, i: nat)
    requires i < |tasks|
    ensures var op := Build(st, userId, tasks, rng, pos).ops[i];
            !st.pending.Has(tasks[i].Id()) ==> exists n: nat :: pos <= n && op == NewOp(st, userId, tasks[i], rng(n))
  {
    var m := |tasks| - 1;
    if i < m {
      NewOpsDrawn(st, userId, tasks[..m], rng, pos, i);
    } else {
      DrawsGrow(st, userId, tasks[..m], rng, pos);
      var n := Build(st, userId, tasks[..m], rng, pos).pos;
      assert pos <= n;
    }
  }

  function FirstPage(x: Item, userId: string, nonce: string): PullReply {
    PullReply(1, 1, false, [Changed(RemoteItem(x.id, userId, 1, Sealed(x, nonce)))])
  }

  lemma FirstPageFolds(x: Item, userId: string, nonce: string)
    requires x.id != VAULT_ENVELOPE_ID
    ensures Fold(EMPTY_SYNC_STATE, userId, ViewOf(EMPTY_SYNC_STATE, []), FirstPage(x, userId, nonce).changes) ==
            Done(View(Empty().Put(x.id, x), Empty().Put(x.id, 1), Empty().Put(x.id, x.updatedAt)))
  {
    assert FirstPage(x, userId, nonce).changes[..0] == [];
  }

  lemma FirstPageStores(x: Item, userId: string, nonce: string)
    requires x.id != VAULT_ENVELOPE_ID
    ensures OnePage(EMPTY_SYNC_STATE, userId, [], FirstPage(x, userId, nonce)).fault.None?
    ensures OnePage(EMPTY_SYNC_STATE, userId, [], FirstPage(x, userId, nonce)).items == [x]
  {
    FirstPageFolds(x, userId, nonce);
    assert ToItems(Empty<Item>().Put(x.id, x)) == [x];
  }

  /** It does happen: the first page an empty client pulls, torn right after the vault, is sent back as an edit. */
  lemma TornPullHappens(x: Item, userId: string, nonce: string)
    requires x.id != VAULT_ENVELOPE_ID
    ensures var w := World(EMPTY_SYNC_STATE, [], 0, []);
            var w' := Paged(w, userId, FirstPage(x, userId, nonce), 0);
            w'.items == [x] && WorkList(w'.disk, w'.items) == [PutItem(x)]
  {
    FirstPageStores(x, userId, nonce);
    FilterAll([x], (item: Item) => Dirty(EMPTY_SYNC_STATE, item));
    assert GoneIds(EMPTY_SYNC_STATE, [x]) == [];
  }
}
