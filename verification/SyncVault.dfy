/** The synchronisation loop itself: one object whose fields the loop updates in place. */
module SyncVaults {
  import opened Seqs
  import opened Records
  import opened ItemSync
  import opened PlanLaws
  import opened PushReplies
  import opened PushRounds
  import opened Pull
  import opened SyncRuns

  class SyncSession {
    const userId: string
    const rng: Entropy
    var drawn: nat
    // The working copy of the sync state, and the active vault.
    var cursor: int
    var serverRevision: int
    var revisions: Record<int>
    var timestamps: Record<string>
    var pending: Record<Pending>
    var conflicts: seq<string>
    var items: seq<Item>
    // What the last commit made durable.
    var diskState: SyncState
    var diskItems: seq<Item>

    function State(): SyncState
      reads this
    {
      SyncState(cursor, serverRevision, revisions, timestamps, pending, conflicts)
    }

    ghost predicate Ready()
      reads this
    {
      StateOk(State(), rng, drawn) && UniqueIds(items) && diskItems == items
    }

    constructor (userId: string, rng: Entropy, drawn: nat, items: seq<Item>, initial: SyncState)
      requires StateOk(initial, rng, drawn) && UniqueIds(items)
      ensures Ready() && State() == initial && this.items == items
      ensures diskState == initial && this.userId == userId && this.rng == rng && this.drawn == drawn
    {
      this.userId, this.rng, this.drawn, this.items := userId, rng, drawn, items;
      cursor, serverRevision, revisions := initial.cursor, initial.serverRevision, initial.revisions;
      timestamps, pending, conflicts := initial.timestamps, initial.pending, initial.conflicts;
      diskState, diskItems := initial, items;
    }

    method Commit()
      modifies this`diskState, this`diskItems
      ensures diskState == State() && diskItems == items
    {
      diskState, diskItems := State(), items;
    }

    /** Plan the next round and make it durable before anything is sent. */
    method PlanRound() returns (ops: seq<Op>)
      requires Ready()
      modifies this`pending, this`drawn, this`diskState, this`diskItems
      ensures var b := BuildPlan(old(State()), userId, items, rng, old(drawn));
              State() == old(State()).(pending := b.pending) && drawn == b.pos && ops == b.ops
      ensures diskState == State() && Ready()
    {
      PlanMeetsSchema(State(), userId, items, rng, drawn);
      var plan, entries, next := BuildItemLevelSyncPlan(State(), userId, items, rng, drawn);
      pending, drawn := entries, next;
      Commit();
      ops := plan.Ops();
    }

    method SettleReceiptsInPlace(receipts: seq<Receipt>)
      modifies this`revisions, this`timestamps, this`pending
      ensures State() == SettleReceipts(old(State()), receipts)
    {
      for i := 0 to |receipts|
        invariant State() == SettleReceipts(old(State()), receipts[..i])
      {
        assert receipts[..i + 1][..i] == receipts[..i];
        var receipt := receipts[i];
        var id := receipt.itemId;
        if receipt.operation == OnDelete {
          revisions, timestamps := revisions.Drop(id), timestamps.Drop(id);
        } else {
          revisions := revisions.Put(id, receipt.appliedItemRevision);
          if pending.Has(id) { timestamps := timestamps.Put(id, pending.at[id].itemUpdatedAt); }
        }
        pending := pending.Drop(id);
      }
      assert receipts[..|receipts|] == receipts;
    }

    method NoteConflicts(reported: seq<Conflict>)
      modifies this`conflicts
      ensures conflicts == AddConflicts(old(conflicts), reported)
    {
      for i := 0 to |reported|
        invariant conflicts == AddConflicts(old(conflicts), reported[..i])
      {
        assert reported[..i + 1][..i] == reported[..i];
        if reported[i].itemId !in conflicts { conflicts := conflicts + [reported[i].itemId]; }
      }
      assert reported[..|reported|] == reported;
    }

    method SettleReply(reply: PushReply)
      modifies this`revisions, this`timestamps, this`pending, this`serverRevision, this`conflicts,
               this`diskState, this`diskItems
      ensures State() == Settle(old(State()), reply)
      ensures diskState == State() && diskItems == items
    {
      SettleReceiptsInPlace(reply.receipts);
      serverRevision := reply.serverRevision;
      NoteConflicts(reply.conflicts);
      Commit();
    }

    /**
     * One turn of the push loop. The plan is durable before it is sent; a reply that is lost or
     * rejected changes nothing after that.
     */
    method PushRound(reply: Option<PushReply>) returns (more: bool, fault: Option<Fault>)
      requires Ready()
      modifies this`revisions, this`timestamps, this`pending, this`serverRevision, this`conflicts, this`drawn,
               this`diskState, this`diskItems
      ensures drawn == BuildPlan(old(State()), userId, items, rng, old(drawn)).pos
      ensures var b := BuildPlan(old(State()), userId, items, rng, old(drawn));
              && (more <==> b.ops != [] && fault.None?)
              && (fault == if b.ops == [] then None
                           else if reply.None? then Some(NoAnswer)
                           else ReplyFault(b.ops, old(serverRevision), reply.value))
              && State() == if more then AfterReply(old(State()), b, reply.value)
                            else old(State()).(pending := b.pending)
      ensures diskState == State() && Ready()
    {
      ghost var st, d := State(), drawn;
      var ops := PlanRound();
      if ops == [] { return false, None; }
      if reply.None? { return false, Some(NoAnswer); }
      PlanMeetsSchema(st, userId, items, rng, d);
      fault := CheckReply(ops, serverRevision, reply.value);
      if fault.Some? { return false, fault; }
      SettleReply(reply.value);
      RoundDrains(st, userId, items, rng, d, reply.value);
      more := true;
    }

    /** `for (;;)`: rounds until there is nothing left to send. */
    method PushPhase(replies: seq<PushReply>) returns (fault: Option<Fault>)
      requires Ready()
      modifies this
      ensures Ready() && items == old(items) && diskState == State()
      ensures var e := PushRun(old(State()), userId, items, rng, old(drawn), replies);
              State() == e.st && drawn == e.pos && fault == e.fault
    {
      var n, more := 0, true;
      fault := None;
      while more
        invariant Ready() && items == old(items) && n <= |replies|
        invariant more ==> fault.None?
        invariant !more ==> diskState == State()
        invariant var e := PushRun(old(State()), userId, items, rng, old(drawn), replies);
                  if more then
                    var r := PushRun(State(), userId, items, rng, drawn, replies[n..]);
                    r.st == e.st && r.pos == e.pos && r.fault == e.fault
                  else State() == e.st && drawn == e.pos && fault == e.fault
        decreases more, |replies| - n
      {
        ghost var s, d := State(), drawn;
        if n < |replies| { assert replies[n..][1..] == replies[n + 1..]; }
        more, fault := PushRound(if n < |replies| then Some(replies[n]) else None);
        if more { n := n + 1; }
      }
    }

    ghost function WorkingView(map': Record<Item>): View
      reads this
    {
      View(map', revisions, timestamps)
    }

    /** One change of a page, applied to the page's item map and to the working state. */
    method ApplyChangeInPlace(held: Record<Item>, change: Change) returns (next: Record<Item>, fault: Option<Fault>)
      modifies this`revisions, this`timestamps
      ensures var f := ApplyChange(old(State()), userId, old(WorkingView(held)), change);
              match f
              case Failed(why) => fault == Some(why)
              case Done(v) => fault.None? && WorkingView(next) == v
    {
      var id := change.Id();
      next, fault := held, None;
      if id == VAULT_ENVELOPE_ID || pending.Has(id) || id in conflicts { return; }
      if change.Removed? {
        if revisions.Get(id).Or(-1) > change.revision { return; }
        next := held.Drop(id);
        revisions, timestamps := revisions.Drop(id), timestamps.Drop(id);
      } else {
        if change.item.ownerUserId != userId { return held, Some(OwnerMismatch); }
        if revisions.Get(id).Or(-1) > change.item.revision { return; }
        var item := Decrypt(change.item.envelope, id);
        if item.None? { return held, Some(DecryptFailed); }
        next := held.Put(id, item.value);
        revisions := revisions.Put(id, change.item.revision);
        timestamps := timestamps.Put(id, item.value.updatedAt);
      }
    }

    /** The loop over the changes of a page. */
    method ApplyChanges(held: Record<Item>, changes: seq<Change>) returns (next: Record<Item>, fault: Option<Fault>)
      modifies this`revisions, this`timestamps
      ensures match Fold(old(State()), userId, old(WorkingView(held)), changes)
              case Failed(why) => fault == Some(why)
              case Done(v) => fault.None? && WorkingView(next) == v
    {
      ghost var st, v := State(), WorkingView(held);
      next, fault := held, None;
      for i := 0 to |changes|
        invariant Fold(st, userId, v, changes[..i]) == Done(WorkingView(next)) && fault.None?
      {
        assert changes[..i + 1][..i] == changes[..i];
        FoldSameProtection(State(), st, userId, v, changes[..i + 1]);
        FoldSameProtection(State(), st, userId, v, changes[..i]);
        next, fault := ApplyChangeInPlace(next, changes[i]);
        if fault.Some? {
          FoldFails(st, userId, v, changes, i + 1);
          return;
        }
      }
      assert changes[..|changes|] == changes;
    }

    /** One page: a page that fails commits nothing. */
    method PullPage(page: PullReply) returns (fault: Option<Fault>)
      requires WellFormed(State()) && UniqueIds(items) && diskState == State() && diskItems == items
      modifies this`revisions, this`timestamps, this`serverRevision, this`cursor, this`items, this`diskState, this`diskItems
      ensures var p := OnePage(old(State()), userId, old(items), page);
              && fault == p.fault && diskState == p.st && diskItems == p.items
              && (fault.None? ==> State() == p.st && items == p.items)
    {
      OnePageIs(State(), userId, items, page);
      if page.cursor < cursor || page.serverRevision < serverRevision || (page.hasMore && page.cursor <= cursor) {
        return Some(CursorInvalid);
      }
      var held := ItemMap(items);
      held, fault := ApplyChanges(held, page.changes);
      if fault.Some? { return; }
      items := ToItems(held);
      serverRevision, cursor := page.serverRevision, page.cursor;
      Commit();
    }

    /** At most a thousand pages. */
    method PullPhase(pages: seq<PullReply>) returns (fault: Option<Fault>)
      requires WellFormed(State()) && UniqueIds(items) && diskState == State() && diskItems == items
      modifies this`revisions, this`timestamps, this`serverRevision, this`cursor, this`items, this`diskState, this`diskItems
      ensures var e := PullRun(old(State()), userId, old(items), pages, 0);
              diskState == e.st && diskItems == e.items && fault == e.fault
      ensures fault.None? ==> diskState == State() && diskItems == items
    {
      ghost var e := PullRun(State(), userId, items, pages, 0);
      for page := 0 to MAX_PAGES
        invariant WellFormed(State()) && UniqueIds(items) && diskState == State() && diskItems == items
        invariant page <= |pages| && page < MAX_PAGES
        invariant PullRun(State(), userId, items, pages[page..], page) == e
      {
        if page == |pages| { return Some(NoAnswer); }
        assert pages[page..][1..] == pages[page + 1..];
        OnePageOk(State(), userId, items, pages[page]);
        fault := PullPage(pages[page]);
        if fault.Some? { return; }
        if !pages[page].hasMore { return None; }
        if page == MAX_PAGES - 1 { return Some(PageLimit); }
      }
      assert false;
    }

    /** `syncVault`: push what is owed, then pull. */
    method Sync(replies: seq<PushReply>, pages: seq<PullReply>) returns (fault: Option<Fault>)
      requires Ready()
      modifies this
      ensures var r := SyncRun(old(State()), userId, old(items), rng, old(drawn), replies, pages);
              && diskState == r.st && diskItems == r.items && drawn == r.pos && fault == r.fault
              && (fault.None? ==> State() == r.st && items == r.items)
    {
      fault := PushPhase(replies);
      if fault.None? {
        fault := PullPhase(pages);
      }
    }
  }

  /** `new Map(items.map(item => [item.id, item]))`. */
  method ItemMap(items: seq<Item>) returns (held: Record<Item>)
    ensures held == FromItems(items)
  {
    held := Empty();
    for i := 0 to |items|
      invariant held == FromItems(items[..i])
    {
      assert items[..i + 1][..i] == items[..i];
      held := held.Put(items[i].id, items[i]);
    }
    assert items[..|items|] == items;
  }

  /** A failed prefix fails the whole page with the same fault. */
  lemma FoldFails(st: SyncState, userId: string, v: View, changes: seq<Change>, n: nat)
    requires n <= |changes| && Fold(st, userId, v, changes[..n]).Failed?
    ensures Fold(st, userId, v, changes) == Fold(st, userId, v, changes[..n])
  {
    assert changes == changes[..n] + changes[n..];
    FoldConcat(st, userId, v, changes[..n], changes[n..]);
  }
}
