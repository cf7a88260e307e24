/** What every sync plan satisfies: it can be rebuilt, and it meets the wire schema. */
module PlanLaws {
  import opened Seqs
  import opened Records
  import opened ItemSync

  // ---------------------------------------------------------------------------
  // Rebuilding a plan
  // ---------------------------------------------------------------------------

  /** The operation a task turned into: the stored one, or one made from some draw. */
  ghost predicate MadeFor(st: SyncState, userId: string, task: Task, op: Op) {
    exists draw :: op == Replayable(st, userId, task).Or(NewOp(st, userId, task, draw))
  }

  /** ... and the entry that remembers it. */
  ghost predicate Made(st: SyncState, userId: string, task: Task, op: Op, pending: Record<Pending>) {
    MadeFor(st, userId, task, op) && task.Fits(op) && pending.Get(task.Id()) == Some(EntryFor(st, task, op))
  }

  /** The next operation of a plan, and the earlier ones beside it. */
  lemma NextMade(b: Built, st: SyncState, userId: string, t: Task, rng: Entropy)
    ensures var b' := Next(b, st, userId, t, rng);
            |b'.ops| == |b.ops| + 1 && Made(st, userId, t, b'.ops[|b.ops|], b'.pending)
  {
    assert MadeFor(st, userId, t, Next(b, st, userId, t, rng).ops[|b.ops|]);
  }

  lemma {:induction false} BuildEntries(st: SyncState, userId: string, tasks: seq<Task>, rng: Entropy, pos: nat)
    requires NoDup(TaskIds(tasks))
    ensures var b := Build(st, userId, tasks, rng, pos);
            && |b.ops| == |tasks|
            && forall i :: 0 <= i < |tasks| ==> Made(st, userId, tasks[i], b.ops[i], b.pending)
  {
    if tasks != [] {
      var n := |tasks| - 1;
      var b := Build(st, userId, tasks[..n], rng, pos);
      assert TaskIds(tasks[..n]) == TaskIds(tasks)[..n];
      BuildEntries(st, userId, tasks[..n], rng, pos);
      NextMade(b, st, userId, tasks[n], rng);
      var b' := Next(b, st, userId, tasks[n], rng);
      forall i | 0 <= i < n ensures Made(st, userId, tasks[i], b'.ops[i], b'.pending) {
        assert TaskIds(tasks)[i] != TaskIds(tasks)[n];
        assert Made(st, userId, tasks[..n][i], b.ops[i], b.pending);
      }
    }
  }

  /** A task whose stored entry came from an operation replays exactly that operation. */
  lemma EntryReplays(st: SyncState, st': SyncState, userId: string, task: Task, op: Op)
    requires Made(st, userId, task, op, st'.pending)
    requires st'.revisions.Get(task.Id()) == st.revisions.Get(task.Id())
    ensures ExpectedBase(st', task) == ExpectedBase(st, task)
    ensures Replayable(st', userId, task) == Some(op)
    ensures EntryFor(st', task, op) == EntryFor(st, task, op)
  {
    var draw :| op == Replayable(st, userId, task).Or(NewOp(st, userId, task, draw));
  }

  lemma {:induction false} Rebuild(st: SyncState, st': SyncState, userId: string, tasks: seq<Task>, ops: seq<Op>,
                                   rng: Entropy, pos: nat)
    requires |ops| == |tasks|
    requires forall i :: 0 <= i < |tasks| ==>
               && Made(st, userId, tasks[i], ops[i], st'.pending)
               && st'.revisions.Get(tasks[i].Id()) == st.revisions.Get(tasks[i].Id())
    ensures Build(st', userId, tasks, rng, pos) == Built(ops, st'.pending, pos)
  {
    if tasks != [] {
      var n := |tasks| - 1;
      Rebuild(st, st', userId, tasks[..n], ops[..n], rng, pos);
      EntryReplays(st, st', userId, tasks[n], ops[n]);
      PutSame(st'.pending, tasks[n].Id());
      assert ops == ops[..n] + [ops[n]];
    }
  }

  lemma {:induction false} PendingKeysKept(st: SyncState, userId: string, tasks: seq<Task>, rng: Entropy, pos: nat,
                                           keep: string -> bool)
    requires forall i :: 0 <= i < |tasks| ==> st.pending.Has(tasks[i].Id()) || !keep(tasks[i].Id())
    ensures var b := Build(st, userId, tasks, rng, pos);
            && Filter(b.pending.keys, keep) == Filter(st.pending.keys, keep)
            && forall k :: st.pending.Has(k) ==> b.pending.Has(k)
  {
    if tasks != [] {
      var n := |tasks| - 1;
      PendingKeysKept(st, userId, tasks[..n], rng, pos, keep);
      var b := Build(st, userId, tasks[..n], rng, pos);
      if !b.pending.Has(tasks[n].Id()) {
        PutDropKeys(b.pending, tasks[n].Id(), Next(b, st, userId, tasks[n], rng).pending.at[tasks[n].Id()], keep);
      }
    }
  }

  lemma {:induction false} BuildValid(st: SyncState, userId: string, tasks: seq<Task>, rng: Entropy, pos: nat)
    requires st.pending.Valid()
    ensures Build(st, userId, tasks, rng, pos).pending.Valid()
  {
    if tasks != [] {
      BuildValid(st, userId, tasks[..|tasks| - 1], rng, pos);
    }
  }

  ghost predicate WellFormed(st: SyncState) {
    st.revisions.Valid() && st.timestamps.Valid() && st.pending.Valid()
  }

  /** The work list names each id once. */
  lemma WorkListDistinct(st: SyncState, items: seq<Item>)
    requires WellFormed(st) && UniqueIds(items)
    ensures NoDup(TaskIds(WorkList(st, items)))
  {
    var d, g := DirtyItems(st, items), GoneIds(st, items);
    DirtyDistinct(items, (item: Item) => Dirty(st, item));
    GoneDistinct(st, items);
    FilterIn(items, (item: Item) => Dirty(st, item));
    FilterIn(KnownIds(st), k => k !in ItemIds(items) && k !in st.conflicts);
    forall k | k in ItemIds(d) ensures k !in g {
      var i :| 0 <= i < |d| && ItemIds(d)[i] == k;
      ItemIdsHas(items, d[i]);
    }
    NoDupConcat(ItemIds(d), g);
    assert TaskIds(WorkList(st, items)) == ItemIds(d) + g;
  }

  lemma ItemIdsHas(items: seq<Item>, item: Item)
    requires item in items
    ensures item.id in ItemIds(items)
  {
    var i :| 0 <= i < |items| && items[i] == item;
    assert ItemIds(items)[i] == item.id;
  }

  lemma {:induction false} DirtyDistinct(items: seq<Item>, keep: Item -> bool)
    requires UniqueIds(items)
    ensures UniqueIds(Filter(items, keep))
  {
    if items != [] {
      var init := items[..|items| - 1];
      DirtyDistinct(init, keep);
      FilterIn(init, keep);
      assert forall i :: 0 <= i < |Filter(init, keep)| ==> Filter(init, keep)[i] in init;
    }
  }

  lemma GoneDistinct(st: SyncState, items: seq<Item>)
    requires WellFormed(st)
    ensures NoDup(KnownIds(st)) && NoDup(GoneIds(st, items))
  {
    var novel := (k: string) => !st.revisions.Has(k);
    FilterNoDup(st.pending.keys, novel);
    FilterIn(st.pending.keys, novel);
    var more := Filter(st.pending.keys, novel);
    NoDupConcat(st.revisions.keys, more);
    FilterNoDup(KnownIds(st), k => k !in ItemIds(items) && k !in st.conflicts);
  }

  /** Which ids the work list mentions, and in what role. */
  lemma WorkListMembers(st: SyncState, items: seq<Item>)
    requires WellFormed(st)
    ensures forall t :: t in WorkList(st, items) <==>
              match t
              case PutItem(item) =>
                && item in items && item.id !in st.conflicts
                && (st.timestamps.Get(item.id) != Some(item.updatedAt) || st.pending.Has(item.id))
              case DropId(k) => (st.revisions.Has(k) || st.pending.Has(k)) && k !in ItemIds(items) && k !in st.conflicts
  {
    var d, g, w := DirtyItems(st, items), GoneIds(st, items), WorkList(st, items);
    FilterIn(items, (item: Item) => Dirty(st, item));
    FilterIn(KnownIds(st), k => k !in ItemIds(items) && k !in st.conflicts);
    FilterIn(st.pending.keys, k => !st.revisions.Has(k));
    forall x | x in d ensures PutItem(x) in w {
      var i :| 0 <= i < |d| && d[i] == x;
      assert w[i] == PutItem(x);
    }
    forall k | k in g ensures DropId(k) in w {
      var i :| 0 <= i < |g| && g[i] == k;
      assert w[|d| + i] == DropId(k);
    }
    forall t | t in w ensures if t.PutItem? then t.item in d else t.gone in g {
      var i :| 0 <= i < |w| && w[i] == t;
    }
  }

  /** Storing the new pending entries leaves the work list, and its order, as it was. */
  lemma SameWork(st: SyncState, userId: string, items: seq<Item>, tasks: seq<Task>, rng: Entropy, pos: nat)
    requires WellFormed(st) && UniqueIds(items)
    requires forall t :: t in tasks ==> t in WorkList(st, items)
    ensures WorkList(st.(pending := Build(st, userId, tasks, rng, pos).pending), items) == WorkList(st, items)
  {
    var b := Build(st, userId, tasks, rng, pos);
    var st' := st.(pending := b.pending);
    WorkListMembers(st, items);
    BuildShape(st, userId, tasks, rng, pos);
    var gone := (k: string) => k !in ItemIds(items) && k !in st.conflicts;
    var late := (k: string) => !st.revisions.Has(k);
    var both := (k: string) => late(k) && gone(k);
    forall i | 0 <= i < |tasks| ensures st.pending.Has(tasks[i].Id()) || !both(tasks[i].Id()) {
      assert tasks[i] in tasks;
      if tasks[i].PutItem? {
        ItemIdsHas(items, tasks[i].item);
      }
    }
    PendingKeysKept(st, userId, tasks, rng, pos, both);
    FilterTwice(st.pending.keys, late, gone, both);
    FilterTwice(b.pending.keys, late, gone, both);
    FilterConcat(st.revisions.keys, Filter(st.pending.keys, late), gone);
    FilterConcat(st.revisions.keys, Filter(b.pending.keys, late), gone);
    assert GoneIds(st', items) == GoneIds(st, items) by {
      FilterAgree(b.pending.keys, k => !st'.revisions.Has(k), late);
      FilterAgree(st.pending.keys, k => !st.revisions.Has(k), late);
      FilterAgree(KnownIds(st'), k => k !in ItemIds(items) && k !in st'.conflicts, gone);
      FilterAgree(KnownIds(st), k => k !in ItemIds(items) && k !in st.conflicts, gone);
    }
    forall x | x in items ensures Dirty(st', x) == Dirty(st, x) {
      if x.id in TaskIds(tasks) {
        var i :| 0 <= i < |tasks| && tasks[i].Id() == x.id;
        assert tasks[i] in tasks;
        EntryStored(st, userId, tasks, i, rng, pos);
        ItemIdsHas(items, x);
        assert tasks[i].PutItem? && tasks[i].item == x;
      } else {
        assert b.pending.Get(x.id) == st.pending.Get(x.id);
      }
    }
    FilterAgree(items, (item: Item) => Dirty(st', item), (item: Item) => Dirty(st, item));
  }

  lemma {:induction false} EntryStored(st: SyncState, userId: string, tasks: seq<Task>, i: nat, rng: Entropy, pos: nat)
    requires i < |tasks|
    ensures Build(st, userId, tasks, rng, pos).pending.Has(tasks[i].Id())
  {
    if i < |tasks| - 1 {
      EntryStored(st, userId, tasks[..|tasks| - 1], i, rng, pos);
    }
  }

  /**
   * Planning is idempotent: with the pending record it just returned, and any randomness at all,
   * it yields the same operations in the same order, the same record, and draws nothing.
   */
  lemma PlanIdempotent(st: SyncState, userId: string, items: seq<Item>, rng: Entropy, pos: nat, rng': Entropy, pos': nat)
    requires WellFormed(st) && UniqueIds(items)
    ensures var b := BuildPlan(st, userId, items, rng, pos);
            BuildPlan(st.(pending := b.pending), userId, items, rng', pos') == Built(b.ops, b.pending, pos')
  {
    var w := WorkList(st, items);
    var tasks := Take(w, MAX_SYNC_MUTATIONS);
    var b := BuildPlan(st, userId, items, rng, pos);
    TasksDistinct(st, items);
    SameWork(st, userId, items, tasks, rng, pos);
    BuildEntries(st, userId, tasks, rng, pos);
    Rebuild(st, st.(pending := b.pending), userId, tasks, b.ops, rng', pos');
  }

  lemma TasksDistinct(st: SyncState, items: seq<Item>)
    requires WellFormed(st) && UniqueIds(items)
    ensures var tasks := Take(WorkList(st, items), MAX_SYNC_MUTATIONS);
            NoDup(TaskIds(tasks)) && forall t :: t in tasks ==> t in WorkList(st, items)
  {
    var w := WorkList(st, items);
    var tasks := Take(w, MAX_SYNC_MUTATIONS);
    WorkListDistinct(st, items);
    assert TaskIds(tasks) == TaskIds(w)[..|tasks|];
  }

  // ---------------------------------------------------------------------------
  // The wire schema
  // ---------------------------------------------------------------------------

  function OpIds(ops: seq<Op>): seq<string> {
    seq(|ops|, i requires 0 <= i < |ops| => ops[i].id)
  }

  function MutationIds(ops: seq<Op>): seq<string> {
    seq(|ops|, i requires 0 <= i < |ops| => ops[i].clientMutationId)
  }

  /** The refinement of the plan schema, with the non-negative base revisions. */
  ghost predicate MeetsSchema(ops: seq<Op>) {
    && |ops| <= MAX_SYNC_MUTATIONS
    && NoDup(OpIds(ops))
    && NoDup(MutationIds(ops))
    && forall op :: op in ops ==> 0 <= op.baseItemRevision && (op.Upsert? ==> 0 <= op.revision)
  }

  ghost predicate OpOk(id: string, mutation: string, op: Op) {
    op.id == id && op.clientMutationId == mutation && 0 <= op.baseItemRevision && (op.Upsert? ==> 0 <= op.revision)
  }

  /** The envelope of an upsert holds the version of the item that was last changed at `stamp`. */
  ghost predicate SealsVersion(op: Op, stamp: string) {
    && op.Upsert? && op.updatedAt == stamp
    && Decrypt(op.envelope, op.id).Some? && Decrypt(op.envelope, op.id).value.updatedAt == stamp
  }

  /** A pending entry whose stored operations are about its own id and carry its mutation id. */
  ghost predicate EntryOk(id: string, entry: Pending) {
    && (entry.baseItemRevision.Some? ==> 0 <= entry.baseItemRevision.value)
    && (entry.upsert.Some? ==> OpOk(id, entry.clientMutationId, entry.upsert.value) &&
                               SealsVersion(entry.upsert.value, entry.itemUpdatedAt))
    && (entry.delete.Some? ==> OpOk(id, entry.clientMutationId, entry.delete.value))
  }

  /** Mutation ids stay pairwise distinct, and the random source repeats neither them nor itself. */
  ghost predicate PendingOk(pending: Record<Pending>, rng: Entropy, pos: nat) {
    && (forall k :: k in pending.at ==> EntryOk(k, pending.at[k]))
    && (forall j, k :: j in pending.at && k in pending.at && j != k ==>
          pending.at[j].clientMutationId != pending.at[k].clientMutationId)
    && (forall k, n: nat :: k in pending.at && pos <= n ==> rng(n).uuid != pending.at[k].clientMutationId)
    && forall m: nat, n: nat :: pos <= m < n ==> rng(m).uuid != rng(n).uuid
  }

  /** What every reachable client state satisfies. */
  ghost predicate StateOk(st: SyncState, rng: Entropy, pos: nat) {
    && WellFormed(st)
    && (forall k :: k in st.revisions.at ==> 0 <= st.revisions.at[k])
    && PendingOk(st.pending, rng, pos)
  }

  lemma BaseNonNegative(st: SyncState, rng: Entropy, pos: nat, task: Task)
    requires StateOk(st, rng, pos)
    ensures 0 <= ExpectedBase(st, task)
  {}

  /** Overwriting an entry under the same mutation id, or adding one under the next fresh id. */
  lemma PutPendingOk(pending: Record<Pending>, key: string, entry: Pending, rng: Entropy, pos: nat, pos': nat)
    requires PendingOk(pending, rng, pos) && EntryOk(key, entry)
    requires if pos' == pos then pending.Has(key) && pending.at[key].clientMutationId == entry.clientMutationId
             else pos' == pos + 1 && entry.clientMutationId == rng(pos).uuid
    ensures PendingOk(pending.Put(key, entry), rng, pos')
  {
    var at' := pending.Put(key, entry).at;
    forall j, k | j in at' && k in at' && j != k ensures at'[j].clientMutationId != at'[k].clientMutationId {}
  }

  lemma NextPendingOk(b: Built, st: SyncState, userId: string, task: Task, rng: Entropy, pos: nat)
    requires StateOk(st, rng, pos) && PendingOk(b.pending, rng, b.pos)
    requires b.pending.Get(task.Id()) == st.pending.Get(task.Id())
    ensures var b' := Next(b, st, userId, task, rng);
            && PendingOk(b'.pending, rng, b'.pos)
            && OpOk(task.Id(), b'.pending.at[task.Id()].clientMutationId, b'.ops[|b.ops|])
  {
    BaseNonNegative(st, rng, pos, task);
    var b' := Next(b, st, userId, task, rng);
    var op := b'.ops[|b.ops|];
    var entry := EntryFor(st, task, op);
    if st.pending.Has(task.Id()) {
      assert EntryOk(task.Id(), st.pending.at[task.Id()]);
    }
    assert OpOk(task.Id(), entry.clientMutationId, op);
    PutPendingOk(b.pending, task.Id(), entry, rng, b.pos, b'.pos);
  }

  /** Each operation agrees with the entry stored under its id. */
  ghost predicate OpsOk(tasks: seq<Task>, b: Built) {
    && |b.ops| == |tasks|
    && forall i :: 0 <= i < |tasks| ==>
         b.pending.Has(tasks[i].Id()) && OpOk(tasks[i].Id(), b.pending.at[tasks[i].Id()].clientMutationId, b.ops[i])
  }

  lemma OpsOkNext(tasks: seq<Task>, b: Built, op: Op, entry: Pending, pos: nat)
    requires tasks != [] && NoDup(TaskIds(tasks)) && OpsOk(tasks[..|tasks| - 1], b)
    requires OpOk(tasks[|tasks| - 1].Id(), entry.clientMutationId, op)
    ensures OpsOk(tasks, Built(b.ops + [op], b.pending.Put(tasks[|tasks| - 1].Id(), entry), pos))
  {
    var n := |tasks| - 1;
    forall i | 0 <= i < n ensures tasks[i].Id() != tasks[n].Id() && tasks[..n][i] == tasks[i] {
      assert TaskIds(tasks)[i] != TaskIds(tasks)[n];
    }
  }

  lemma {:induction false} BuildPendingOk(st: SyncState, userId: string, tasks: seq<Task>, rng: Entropy, pos: nat)
    requires StateOk(st, rng, pos)
    requires NoDup(TaskIds(tasks))
    ensures var b := Build(st, userId, tasks, rng, pos);
            PendingOk(b.pending, rng, b.pos) && OpsOk(tasks, b)
  {
    if tasks != [] {
      var n := |tasks| - 1;
      var b := Build(st, userId, tasks[..n], rng, pos);
      assert TaskIds(tasks[..n]) == TaskIds(tasks)[..n];
      BuildPendingOk(st, userId, tasks[..n], rng, pos);
      BuildShape(st, userId, tasks[..n], rng, pos);
      assert forall i :: 0 <= i < n ==> TaskIds(tasks)[i] != TaskIds(tasks)[n];
      assert b.pending.Get(tasks[n].Id()) == st.pending.Get(tasks[n].Id());
      NextPendingOk(b, st, userId, tasks[n], rng, pos);
      var op := Next(b, st, userId, tasks[n], rng).ops[n];
      OpsOkNext(tasks, b, op, EntryFor(st, tasks[n], op), Next(b, st, userId, tasks[n], rng).pos);
    }
  }

  /** Every plan built from a reachable state meets the wire schema, and the state stays reachable. */
  lemma PlanMeetsSchema(st: SyncState, userId: string, items: seq<Item>, rng: Entropy, pos: nat)
    requires StateOk(st, rng, pos) && UniqueIds(items)
    ensures var b := BuildPlan(st, userId, items, rng, pos);
            MeetsSchema(b.ops) && StateOk(st.(pending := b.pending), rng, b.pos)
  {
    var tasks := Take(WorkList(st, items), MAX_SYNC_MUTATIONS);
    var b := BuildPlan(st, userId, items, rng, pos);
    TasksDistinct(st, items);
    BuildPendingOk(st, userId, tasks, rng, pos);
    BuildValid(st, userId, tasks, rng, pos);
    assert OpIds(b.ops) == TaskIds(tasks);
    forall i, j | 0 <= i < j < |b.ops| ensures MutationIds(b.ops)[i] != MutationIds(b.ops)[j] {
      assert TaskIds(tasks)[i] != TaskIds(tasks)[j];
    }
  }
}
