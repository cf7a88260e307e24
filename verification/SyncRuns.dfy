/** Whole synchronisation runs against an arbitrary server: push until drained, then pull. */
module SyncRuns {
  import opened Seqs
  import opened ItemSync
  import opened PlanLaws
  import opened PushReplies
  import opened PushRounds
  import opened Pull

  // ---------------------------------------------------------------------------
  // The push phase
  // ---------------------------------------------------------------------------

  /** What the push phase has committed; `acks` are the operations the server has receipted. */
  datatype Pushed = Pushed(st: SyncState, pos: nat, fault: Option<Fault>, rounds: nat, acks: seq<Op>)

  function Acked(ops: seq<Op>, reply: PushReply): seq<Op> {
    Filter(ops, (op: Op) => op.id in ReceiptIds(reply.receipts))
  }

  /** The rounds against a script of server replies; a script that runs out is a lost connection. */
  ghost function PushRun(st: SyncState, userId: string, items: seq<Item>, rng: Entropy, pos: nat,
                         replies: seq<PushReply>): Pushed
    requires StateOk(st, rng, pos) && UniqueIds(items)
    decreases |replies|
  {
    var b := BuildPlan(st, userId, items, rng, pos);
    var sent := st.(pending := b.pending);
    if b.ops == [] then Pushed(sent, b.pos, None, 0, [])
    else if replies == [] then Pushed(sent, b.pos, Some(NoAnswer), 0, [])
    else
      var fault := ReplyFault(b.ops, st.serverRevision, replies[0]);
      if fault.Some? then Pushed(sent, b.pos, fault, 0, [])
      else
        RoundDrains(st, userId, items, rng, pos, replies[0]);
        var e := PushRun(AfterReply(st, b, replies[0]), userId, items, rng, b.pos, replies[1..]);
        e.(rounds := e.rounds + 1, acks := Acked(b.ops, replies[0]) + e.acks)
  }

  /** The number of hundred-operation rounds `n` units of work need. */
  function RoundsFor(n: nat): nat { (n + MAX_SYNC_MUTATIONS - 1) / MAX_SYNC_MUTATIONS }

  /**
   * Each accepted reply takes one full batch off the work list, so a push phase over `n` units of
   * work never needs more than RoundsFor(n) replies, and it ends without fault only when drained.
   */
  ghost predicate Drains(st: SyncState, items: seq<Item>, replies: seq<PushReply>, e: Pushed) {
    var n := |WorkList(st, items)|;
    && e.rounds <= RoundsFor(n) && e.rounds <= |replies|
    && (e.fault.None? ==> WorkList(e.st, items) == [] && e.rounds == RoundsFor(n))
    && (e.fault == Some(NoAnswer) ==> e.rounds == |replies| < RoundsFor(n))
  }

  lemma DrainsNext(st: SyncState, st': SyncState, items: seq<Item>, replies: seq<PushReply>, e: Pushed, more: seq<Op>)
    requires replies != [] && WorkList(st, items) != []
    requires WorkList(st', items) == WorkList(st, items)[|Take(WorkList(st, items), MAX_SYNC_MUTATIONS)|..]
    requires Drains(st', items, replies[1..], e)
    ensures Drains(st, items, replies, e.(rounds := e.rounds + 1, acks := more))
  {}

  lemma {:induction false} PushDrains(st: SyncState, userId: string, items: seq<Item>, rng: Entropy, pos: nat,
                                      replies: seq<PushReply>)
    requires StateOk(st, rng, pos) && UniqueIds(items)
    ensures Drains(st, items, replies, PushRun(st, userId, items, rng, pos, replies))
    decreases |replies|
  {
    var b := BuildPlan(st, userId, items, rng, pos);
    var tasks := Take(WorkList(st, items), MAX_SYNC_MUTATIONS);
    if b.ops == [] {
      assert tasks == [] && WorkList(st, items) == [];
      SameWork(st, userId, items, tasks, rng, pos);
    } else if replies != [] && ReplyFault(b.ops, st.serverRevision, replies[0]).None? {
      RoundDrains(st, userId, items, rng, pos, replies[0]);
      var st' := AfterReply(st, b, replies[0]);
      PushDrains(st', userId, items, rng, b.pos, replies[1..]);
      var e := PushRun(st', userId, items, rng, b.pos, replies[1..]);
      DrainsNext(st, st', items, replies, e, Acked(b.ops, replies[0]) + e.acks);
    }
  }

  /** In the state and at the place the phase has come to, this reply would be answered with this fault. */
  ghost predicate Refuses(e: Pushed, userId: string, items: seq<Item>, rng: Entropy, reply: PushReply, fault: Option<Fault>) {
    ReplyFault(BuildPlan(e.st, userId, items, rng, e.pos).ops, e.st.serverRevision, reply) == fault
  }

  /** After the first `k` replies the phase waits for the next one, and accepts it. */
  ghost predicate AcceptedAt(st: SyncState, userId: string, items: seq<Item>, rng: Entropy, pos: nat,
                             replies: seq<PushReply>, k: nat)
    requires StateOk(st, rng, pos) && UniqueIds(items) && k < |replies|
  {
    var d := PushRun(st, userId, items, rng, pos, replies[..k]);
    d.fault == Some(NoAnswer) && d.rounds == k && Refuses(d, userId, items, rng, replies[k], None)
  }

  /** The plan that was committed is the plan that is rebuilt. */
  lemma SamePlanAgain(st: SyncState, userId: string, items: seq<Item>, rng: Entropy, pos: nat)
    requires StateOk(st, rng, pos) && UniqueIds(items)
    ensures var b := BuildPlan(st, userId, items, rng, pos);
            BuildPlan(st.(pending := b.pending), userId, items, rng, b.pos).ops == b.ops
  {
    PlanIdempotent(st, userId, items, rng, pos, rng, BuildPlan(st, userId, items, rng, pos).pos);
  }

  lemma AcceptedNext(st: SyncState, userId: string, items: seq<Item>, rng: Entropy, pos: nat, replies: seq<PushReply>, k: nat)
    requires StateOk(st, rng, pos) && UniqueIds(items) && 0 < k < |replies|
    requires var b := BuildPlan(st, userId, items, rng, pos);
             && b.ops != [] && ReplyFault(b.ops, st.serverRevision, replies[0]).None?
             && StateOk(AfterReply(st, b, replies[0]), rng, b.pos)
             && AcceptedAt(AfterReply(st, b, replies[0]), userId, items, rng, b.pos, replies[1..], k - 1)
    ensures AcceptedAt(st, userId, items, rng, pos, replies, k)
  {
    TailOfPrefix(replies, k);
    FirstRound(st, userId, items, rng, pos, replies[..k]);
  }

  lemma FirstRound(st: SyncState, userId: string, items: seq<Item>, rng: Entropy, pos: nat, replies: seq<PushReply>)
    requires StateOk(st, rng, pos) && UniqueIds(items) && replies != []
    requires var b := BuildPlan(st, userId, items, rng, pos);
             && b.ops != [] && ReplyFault(b.ops, st.serverRevision, replies[0]).None?
             && StateOk(AfterReply(st, b, replies[0]), rng, b.pos)
    ensures var e, b := PushRun(st, userId, items, rng, pos, replies), BuildPlan(st, userId, items, rng, pos);
            var d := PushRun(AfterReply(st, b, replies[0]), userId, items, rng, b.pos, replies[1..]);
            e.st == d.st && e.pos == d.pos && e.fault == d.fault && e.rounds == d.rounds + 1
  {}

  ghost predicate EndsAsSaid(st: SyncState, userId: string, items: seq<Item>, rng: Entropy, pos: nat,
                             replies: seq<PushReply>, e: Pushed)
    requires StateOk(st, rng, pos) && UniqueIds(items)
  {
    && e.rounds <= |replies|
    && (forall k :: 0 <= k < e.rounds ==> AcceptedAt(st, userId, items, rng, pos, replies, k))
    && (e.fault.Some? && e.fault != Some(NoAnswer) ==>
          e.rounds < |replies| && Refuses(e, userId, items, rng, replies[e.rounds], e.fault))
  }

  lemma EndsNext(st: SyncState, userId: string, items: seq<Item>, rng: Entropy, pos: nat, replies: seq<PushReply>)
    requires StateOk(st, rng, pos) && UniqueIds(items) && replies != []
    requires var b := BuildPlan(st, userId, items, rng, pos);
             && b.ops != [] && ReplyFault(b.ops, st.serverRevision, replies[0]).None?
             && StateOk(AfterReply(st, b, replies[0]), rng, b.pos)
             && EndsAsSaid(AfterReply(st, b, replies[0]), userId, items, rng, b.pos, replies[1..],
                           PushRun(AfterReply(st, b, replies[0]), userId, items, rng, b.pos, replies[1..]))
    ensures EndsAsSaid(st, userId, items, rng, pos, replies, PushRun(st, userId, items, rng, pos, replies))
  {
    FirstRound(st, userId, items, rng, pos, replies);
    AllAccepted(st, userId, items, rng, pos, replies, PushRun(st, userId, items, rng, pos, replies).rounds);
  }

  lemma AllAccepted(st: SyncState, userId: string, items: seq<Item>, rng: Entropy, pos: nat, replies: seq<PushReply>, n: nat)
    requires StateOk(st, rng, pos) && UniqueIds(items) && 0 < n <= |replies|
    requires var b := BuildPlan(st, userId, items, rng, pos);
             && b.ops != [] && ReplyFault(b.ops, st.serverRevision, replies[0]).None?
             && StateOk(AfterReply(st, b, replies[0]), rng, b.pos)
             && forall k :: 0 <= k < n - 1 ==>
                  AcceptedAt(AfterReply(st, b, replies[0]), userId, items, rng, b.pos, replies[1..], k)
    ensures forall k :: 0 <= k < n ==> AcceptedAt(st, userId, items, rng, pos, replies, k)
  {
    forall k | 0 <= k < n ensures AcceptedAt(st, userId, items, rng, pos, replies, k) {
      if k == 0 {
        FirstAccepted(st, userId, items, rng, pos, replies);
      } else {
        AcceptedNext(st, userId, items, rng, pos, replies, k);
      }
    }
  }

  lemma FirstAccepted(st: SyncState, userId: string, items: seq<Item>, rng: Entropy, pos: nat, replies: seq<PushReply>)
    requires StateOk(st, rng, pos) && UniqueIds(items) && replies != []
    requires var b := BuildPlan(st, userId, items, rng, pos);
             b.ops != [] && ReplyFault(b.ops, st.serverRevision, replies[0]).None?
    ensures AcceptedAt(st, userId, items, rng, pos, replies, 0)
  {
    assert replies[..0] == [];
    SamePlanAgain(st, userId, items, rng, pos);
  }

  /**
   * How the phase ends: every reply it counts was accepted by the plan it answered, and a fault other than a missing
   * answer is that of the very next reply.
   */
  lemma {:induction false} PushEnds(st: SyncState, userId: string, items: seq<Item>, rng: Entropy, pos: nat,
                                    replies: seq<PushReply>)
    requires StateOk(st, rng, pos) && UniqueIds(items)
    ensures var e := PushRun(st, userId, items, rng, pos, replies);
            && e.rounds <= |replies|
            && (forall k :: 0 <= k < e.rounds ==> AcceptedAt(st, userId, items, rng, pos, replies, k))
            && (e.fault.Some? && e.fault != Some(NoAnswer) ==>
                  e.rounds < |replies| && Refuses(e, userId, items, rng, replies[e.rounds], e.fault))
    decreases |replies|
  {
    var b := BuildPlan(st, userId, items, rng, pos);
    if b.ops != [] && replies != [] {
      if ReplyFault(b.ops, st.serverRevision, replies[0]).None? {
        RoundDrains(st, userId, items, rng, pos, replies[0]);
        PushEnds(AfterReply(st, b, replies[0]), userId, items, rng, b.pos, replies[1..]);
        EndsNext(st, userId, items, rng, pos, replies);
      } else {
        SamePlanAgain(st, userId, items, rng, pos);
      }
    }
  }

  /** A drained state: only conflicts are unsettled, and every other local item is acknowledged. */
  lemma DrainedMeans(st: SyncState, items: seq<Item>)
    requires WellFormed(st) && UniqueIds(items)
    ensures WorkList(st, items) == [] <==>
            && (forall k :: st.pending.Has(k) ==> k in st.conflicts)
            && (forall x :: x in items && x.id !in st.conflicts ==> st.timestamps.Get(x.id) == Some(x.updatedAt))
            && (forall k :: st.revisions.Has(k) ==> k in st.conflicts || k in ItemIds(items))
  {
    var w := WorkList(st, items);
    if w == [] {
      forall k | st.pending.Has(k) || st.revisions.Has(k) ensures k in st.conflicts || k in ItemIds(items) {
        OnList(st, items, DropId(k));
      }
      forall x | x in items ensures x.id in st.conflicts || Unchanged(st, x) { OnList(st, items, PutItem(x)); }
      forall k | st.pending.Has(k) ensures k in st.conflicts {
        if k in ItemIds(items) {
          var i :| 0 <= i < |items| && ItemIds(items)[i] == k;
          assert items[i] in items;
        }
      }
    } else {
      OnList(st, items, w[0]);
    }
  }

  lemma OnList(st: SyncState, items: seq<Item>, t: Task)
    requires WellFormed(st)
    ensures t in WorkList(st, items) <==>
              match t
              case PutItem(item) => item in items && item.id !in st.conflicts && !Unchanged(st, item)
              case DropId(k) => (st.revisions.Has(k) || st.pending.Has(k)) && k !in ItemIds(items) && k !in st.conflicts
  {
    WorkListMembers(st, items);
  }

  // ---------------------------------------------------------------------------
  // What has been acknowledged
  // ---------------------------------------------------------------------------

  /** Some receipted upsert carried this very version of the item. */
  ghost predicate VersionAcked(acks: seq<Op>, x: Item) {
    exists op :: op in acks && op.id == x.id && SealsVersion(op, x.updatedAt)
  }

  /** What one accepted round newly regards as settled, it has a receipt for. */
  lemma RoundAcks(st: SyncState, userId: string, items: seq<Item>, rng: Entropy, pos: nat, reply: PushReply, x: Item)
    requires StateOk(st, rng, pos) && UniqueIds(items) && x in items
    requires ReplyFault(BuildPlan(st, userId, items, rng, pos).ops, st.serverRevision, reply).None?
    requires Unchanged(AfterReply(st, BuildPlan(st, userId, items, rng, pos), reply), x)
    ensures Unchanged(st, x) || VersionAcked(Acked(BuildPlan(st, userId, items, rng, pos).ops, reply), x)
  {
    var tasks := Take(WorkList(st, items), MAX_SYNC_MUTATIONS);
    RoundHasEffect(st, userId, items, rng, pos, reply);
    if x.id in TaskIds(tasks) {
      var i :| 0 <= i < |tasks| && tasks[i].Id() == x.id;
      PlannedItem(st, items, i, x);
      ReceiptsOfPlanned(st, userId, items, rng, pos, reply, i, x);
    } else {
      assert SameAt(AfterReply(st, BuildPlan(st, userId, items, rng, pos), reply), st, x.id);
    }
  }

  /** What is planned for the id of an item is to put that item. */
  lemma PlannedItem(st: SyncState, items: seq<Item>, i: nat, x: Item)
    requires WellFormed(st) && UniqueIds(items) && x in items
    requires i < |Take(WorkList(st, items), MAX_SYNC_MUTATIONS)|
    requires Take(WorkList(st, items), MAX_SYNC_MUTATIONS)[i].Id() == x.id
    ensures Take(WorkList(st, items), MAX_SYNC_MUTATIONS)[i] == PutItem(x)
  {
    var t := Take(WorkList(st, items), MAX_SYNC_MUTATIONS)[i];
    WorkListMembers(st, items);
    assert t in WorkList(st, items);
    ItemIdsHas(items, x);
  }

  /** A planned version that is regarded as settled has a receipt. */
  lemma ReceiptsOfPlanned(st: SyncState, userId: string, items: seq<Item>, rng: Entropy, pos: nat, reply: PushReply,
                          i: nat, x: Item)
    requires StateOk(st, rng, pos) && UniqueIds(items)
    requires ReplyFault(BuildPlan(st, userId, items, rng, pos).ops, st.serverRevision, reply).None?
    requires i < |Take(WorkList(st, items), MAX_SYNC_MUTATIONS)|
    requires Take(WorkList(st, items), MAX_SYNC_MUTATIONS)[i] == PutItem(x)
    requires !AfterReply(st, BuildPlan(st, userId, items, rng, pos), reply).pending.Has(x.id)
    ensures VersionAcked(Acked(BuildPlan(st, userId, items, rng, pos).ops, reply), x)
  {
    var tasks := Take(WorkList(st, items), MAX_SYNC_MUTATIONS);
    var b := BuildPlan(st, userId, items, rng, pos);
    PlannedIds(st, userId, items, rng, pos);
    PlanMeetsSchema(st, userId, items, rng, pos);
    assert Made(st, userId, tasks[i], b.ops[i], b.pending);
    assert EntryOk(x.id, b.pending.at[x.id]);
    var sent := st.(pending := b.pending);
    SettleFrame(sent, reply.receipts);
    assert x.id !in ReceiptIds(reply.receipts) ==> SameAt(SettleReceipts(sent, reply.receipts), sent, x.id);
    assert OpIds(b.ops)[i] == b.ops[i].id == x.id;
    FilterIn(b.ops, (op: Op) => op.id in ReceiptIds(reply.receipts));
    assert b.ops[i] in Acked(b.ops, reply);
  }

  lemma {:induction false} PushAcks(st: SyncState, userId: string, items: seq<Item>, rng: Entropy, pos: nat,
                                    replies: seq<PushReply>, x: Item)
    requires StateOk(st, rng, pos) && UniqueIds(items) && x in items
    ensures var e := PushRun(st, userId, items, rng, pos, replies);
            Unchanged(e.st, x) ==> Unchanged(st, x) || VersionAcked(e.acks, x)
    decreases |replies|
  {
    var b := BuildPlan(st, userId, items, rng, pos);
    if b.ops != [] && replies != [] && ReplyFault(b.ops, st.serverRevision, replies[0]).None? {
      RoundDrains(st, userId, items, rng, pos, replies[0]);
      var st' := AfterReply(st, b, replies[0]);
      PushAcks(st', userId, items, rng, b.pos, replies[1..], x);
      if Unchanged(st', x) { RoundAcks(st, userId, items, rng, pos, replies[0], x); }
    } else {
      EntriesOnlyGrow(st, userId, Take(WorkList(st, items), MAX_SYNC_MUTATIONS), rng, pos);
    }
  }

  lemma {:induction false} EntriesOnlyGrow(st: SyncState, userId: string, tasks: seq<Task>, rng: Entropy, pos: nat)
    ensures forall k :: st.pending.Has(k) ==> Build(st, userId, tasks, rng, pos).pending.Has(k)
  {
    if tasks != [] { EntriesOnlyGrow(st, userId, tasks[..|tasks| - 1], rng, pos); }
  }

  lemma {:induction false} PushStateOk(st: SyncState, userId: string, items: seq<Item>, rng: Entropy, pos: nat,
                                       replies: seq<PushReply>)
    requires StateOk(st, rng, pos) && UniqueIds(items)
    ensures var e := PushRun(st, userId, items, rng, pos, replies); StateOk(e.st, rng, e.pos)
    decreases |replies|
  {
    var b := BuildPlan(st, userId, items, rng, pos);
    PlanMeetsSchema(st, userId, items, rng, pos);
    if b.ops != [] && replies != [] && ReplyFault(b.ops, st.serverRevision, replies[0]).None? {
      RoundDrains(st, userId, items, rng, pos, replies[0]);
      PushStateOk(AfterReply(st, b, replies[0]), userId, items, rng, b.pos, replies[1..]);
    }
  }

  // ---------------------------------------------------------------------------
  // Push, then pull
  // ---------------------------------------------------------------------------

  /** The committed end of a synchronisation, whether it finished or not. */
  datatype Synced = Synced(st: SyncState, items: seq<Item>, pos: nat, fault: Option<Fault>, acks: seq<Op>)

  ghost function SyncRun(st: SyncState, userId: string, items: seq<Item>, rng: Entropy, pos: nat,
                         replies: seq<PushReply>, pages: seq<PullReply>): Synced
    requires StateOk(st, rng, pos) && UniqueIds(items)
  {
    var p := PushRun(st, userId, items, rng, pos, replies);
    if p.fault.Some? then Synced(p.st, items, p.pos, p.fault, p.acks)
    else
      PushStateOk(st, userId, items, rng, pos, replies);
      var q := PullRun(p.st, userId, items, pages, 0);
      Synced(q.st, q.items, p.pos, q.fault, p.acks)
  }

  /**
   * No local edit is lost, whatever the server answers and wherever the run stops: an item that is
   * missing or changed in the committed vault is neither in conflict nor pending, and its exact
   * version was acknowledged before the run or receipted during it.
   */
  lemma NoLocalEditLost(st: SyncState, userId: string, items: seq<Item>, rng: Entropy, pos: nat,
                        replies: seq<PushReply>, pages: seq<PullReply>, x: Item)
    requires StateOk(st, rng, pos) && UniqueIds(items) && x in items
    ensures var r := SyncRun(st, userId, items, rng, pos, replies, pages);
            x !in r.items ==>
              && x.id !in r.st.conflicts && !r.st.pending.Has(x.id)
              && (Unchanged(st, x) || VersionAcked(r.acks, x))
  {
    var p := PushRun(st, userId, items, rng, pos, replies);
    if p.fault.None? {
      PushStateOk(st, userId, items, rng, pos, replies);
      PushDrains(st, userId, items, rng, pos, replies);
      DrainedMeans(p.st, items);
      PushAcks(st, userId, items, rng, pos, replies, x);
      var q := PullRun(p.st, userId, items, pages, 0);
      PagesAreOneFold(p.st, userId, items, pages, 0);
      if Protected(p.st, x.id) {
        FromItemsShape(items);
        FromItemsShape(q.items);
        FoldKeeps(p.st, userId, ViewOf(p.st, items), AllChanges(pages[..q.read]));
        FromToItems(q.items);
        ToItemsShape(FromItems(q.items));
      }
    }
  }

  ghost predicate FedTo(st: SyncState, items: seq<Item>, st': SyncState, items': seq<Item>) {
    && st'.pending == st.pending && st'.conflicts == st.conflicts
    && forall k :: Fed(st, ViewOf(st, items), ViewOf(st', items'), k)
  }

  lemma HeldItem(items: seq<Item>, k: string)
    requires UniqueIds(items)
    ensures k in ItemIds(items) <==> FromItems(items).Get(k).Some?
    ensures FromItems(items).Get(k).Some? ==> FromItems(items).Get(k).value in items && FromItems(items).Get(k).value.id == k
  {
    FromItemsShape(items);
    if k in ItemIds(items) {
      var i :| 0 <= i < |items| && ItemIds(items)[i] == k;
      assert items[i] in items;
    }
    if FromItems(items).Get(k).Some? {
      var i :| 0 <= i < |items| && ItemIds(items)[i] == k;
      assert items[i] in items;
    }
  }

  /** What is pulled is never owed. */
  lemma FedStaysDrained(st: SyncState, items: seq<Item>, st': SyncState, items': seq<Item>)
    requires WellFormed(st) && UniqueIds(items) && WellFormed(st') && UniqueIds(items')
    requires WorkList(st, items) == [] && FedTo(st, items, st', items')
    ensures WorkList(st', items') == []
  {
    DrainedMeans(st, items);
    DrainedMeans(st', items');
    FromItemsShape(items');
    forall x | x in items' && x.id !in st'.conflicts ensures st'.timestamps.Get(x.id) == Some(x.updatedAt) {
      assert Fed(st, ViewOf(st, items), ViewOf(st', items'), x.id);
      HeldItem(items, x.id);
    }
    forall k | st'.revisions.Has(k) ensures k in st'.conflicts || k in ItemIds(items') {
      assert Fed(st, ViewOf(st, items), ViewOf(st', items'), k);
      HeldItem(items, k);
      HeldItem(items', k);
    }
  }

  lemma {:induction false} PushKeepsCursor(st: SyncState, userId: string, items: seq<Item>, rng: Entropy, pos: nat,
                                           replies: seq<PushReply>)
    requires StateOk(st, rng, pos) && UniqueIds(items)
    ensures PushRun(st, userId, items, rng, pos, replies).st.cursor == st.cursor
    decreases |replies|
  {
    var b := BuildPlan(st, userId, items, rng, pos);
    if b.ops != [] && replies != [] && ReplyFault(b.ops, st.serverRevision, replies[0]).None? {
      RoundDrains(st, userId, items, rng, pos, replies[0]);
      SettledCursor(st.(pending := b.pending), replies[0].receipts);
      PushKeepsCursor(AfterReply(st, b, replies[0]), userId, items, rng, b.pos, replies[1..]);
    }
  }

  lemma {:induction false} SettledCursor(st: SyncState, receipts: seq<Receipt>)
    ensures SettleReceipts(st, receipts).cursor == st.cursor
  {
    if receipts != [] { SettledCursor(st, receipts[..|receipts| - 1]); }
  }

  /**
   * A sync that ends without a fault leaves nothing to push, nor does one that fails on a page it pulls: what is pulled
   * is never owed. Nothing is pulled unless everything was pushed.
   */
  lemma SyncDrains(st: SyncState, userId: string, items: seq<Item>, rng: Entropy, pos: nat,
                   replies: seq<PushReply>, pages: seq<PullReply>)
    requires StateOk(st, rng, pos) && UniqueIds(items)
    ensures var r := SyncRun(st, userId, items, rng, pos, replies, pages);
            && (r.fault.None? ==> WorkList(r.st, r.items) == [])
            && (r.items != items || r.st.cursor != st.cursor ==> WorkList(r.st, r.items) == [])
            && (WorkList(r.st, r.items) != [] ==>
                  r.fault.Some? && r.fault == PushRun(st, userId, items, rng, pos, replies).fault)
  {
    var p := PushRun(st, userId, items, rng, pos, replies);
    PushKeepsCursor(st, userId, items, rng, pos, replies);
    if p.fault.None? {
      PushStateOk(st, userId, items, rng, pos, replies);
      PushDrains(st, userId, items, rng, pos, replies);
      PagesAreOneFold(p.st, userId, items, pages, 0);
      var q := PullRun(p.st, userId, items, pages, 0);
      AllFed(p.st, userId, items, AllChanges(pages[..q.read]), q.st, q.items);
      FedStaysDrained(p.st, items, q.st, q.items);
    }
  }

  lemma AllFed(st: SyncState, userId: string, items: seq<Item>, changes: seq<Change>, st': SyncState, items': seq<Item>)
    requires st'.pending == st.pending && st'.conflicts == st.conflicts
    requires Fold(st, userId, ViewOf(st, items), changes) == Done(ViewOf(st', items'))
    ensures FedTo(st, items, st', items')
  {
    forall k ensures Fed(st, ViewOf(st, items), ViewOf(st', items'), k) {
      FoldFeeds(st, userId, ViewOf(st, items), changes, k);
    }
  }

  /** A run from a reachable state, with replies that pass the schema, ends in a reachable state. */
  lemma SyncStateOk(st: SyncState, userId: string, items: seq<Item>, rng: Entropy, pos: nat,
                    replies: seq<PushReply>, pages: seq<PullReply>)
    requires StateOk(st, rng, pos) && UniqueIds(items)
    requires forall c :: c in AllChanges(pages) ==> 0 <= c.Revision()
    ensures var r := SyncRun(st, userId, items, rng, pos, replies, pages);
            StateOk(r.st, rng, r.pos) && UniqueIds(r.items)
  {
    var p := PushRun(st, userId, items, rng, pos, replies);
    PushStateOk(st, userId, items, rng, pos, replies);
    if p.fault.None? {
      var q := PullRun(p.st, userId, items, pages, 0);
      PagesAreOneFold(p.st, userId, items, pages, 0);
      AllChangesPrefix(pages, q.read);
      FromItemsShape(items);
      FoldKeeps(p.st, userId, ViewOf(p.st, items), AllChanges(pages[..q.read]));
    }
  }

  lemma {:induction false} AllChangesPrefix(pages: seq<PullReply>, n: nat)
    requires n <= |pages|
    ensures forall c :: c in AllChanges(pages[..n]) ==> c in AllChanges(pages)
  {
    if n > 0 {
      AllChangesPrefix(pages[1..], n - 1);
      assert pages[..n][1..] == pages[1..][..n - 1];
    }
  }
}
