/** When a client sends one operation for an item, whatever dies or gets lost, and when it does not. */
module OnceExactly {
  import opened Seqs
  import opened ItemSync
  import opened PlanLaws
  import opened PushReplies
  import opened PushRounds
  import opened Pull
  import opened CrashRuns

  /** Push attempts only. */
  predicate Pushes(events: seq<Event>) {
    forall k :: 0 <= k < |events| ==> !events[k].GetsPage?
  }

  /** Two operations sent for one item are the same operation. */
  ghost predicate OnePerItem(w: World, userId: string, rng: Entropy, events: seq<Event>)
    requires Reached(w, rng)
  {
    forall m: nat, a, n: nat, b ::
      SentIn(w, userId, rng, events, m, a) && SentIn(w, userId, rng, events, n, b) && a.id == b.id ==> a == b
  }

  // ---------------------------------------------------------------------------
  // Runs one after the other
  // ---------------------------------------------------------------------------

  lemma RunSnoc(w: World, userId: string, rng: Entropy, events: seq<Event>, e: Event)
    requires Reached(w, rng)
    ensures Run(w, userId, rng, events + [e]) == Step(Run(w, userId, rng, events), userId, rng, e)
  {
    assert (events + [e])[..|events|] == events;
  }

  lemma RunOne(w: World, userId: string, rng: Entropy, e: Event)
    requires Reached(w, rng)
    ensures Run(w, userId, rng, [e]) == Step(w, userId, rng, e)
  {
    assert [e][..0] == [];
  }

  lemma {:induction false} RunConcat(w: World, userId: string, rng: Entropy, a: seq<Event>, b: seq<Event>)
    requires Reached(w, rng)
    ensures Run(w, userId, rng, a + b) == Run(Run(w, userId, rng, a), userId, rng, b)
    decreases |b|
  {
    if b == [] {
      assert a + b == a;
    } else {
      var init, e := b[..|b| - 1], b[|b| - 1];
      assert b == init + [e];
      RunConcat(w, userId, rng, a, init);
      AppendLast(a, init, e);
      RunSnoc(w, userId, rng, a + init, e);
      RunSnoc(Run(w, userId, rng, a), userId, rng, init, e);
    }
  }

  /** What is sent within the first `k` events is sent however the run goes on from there. */
  lemma SentEarlier(w: World, userId: string, rng: Entropy, events: seq<Event>, k: nat, more: seq<Event>, m: nat, op: Op)
    requires Reached(w, rng) && m < k <= |events| && SentIn(w, userId, rng, events, m, op)
    ensures SentIn(w, userId, rng, events[..k] + more, m, op)
  {
    assert (events[..k] + more)[..m] == events[..m];
  }

  lemma SentLater(w: World, userId: string, rng: Entropy, a: seq<Event>, b: seq<Event>, n: nat, op: Op)
    requires Reached(w, rng) && SentIn(Run(w, userId, rng, a), userId, rng, b, n, op)
    ensures SentIn(w, userId, rng, a + b, |a| + n, op)
  {
    PrefixOfConcat(a, b, n);
    RunConcat(w, userId, rng, a, b[..n]);
  }

  lemma SentFirst(w: World, userId: string, rng: Entropy, e: Event, rest: seq<Event>, n: nat, op: Op)
    requires Reached(w, rng) && SentIn(Step(w, userId, rng, e), userId, rng, rest, n, op)
    ensures SentIn(w, userId, rng, [e] + rest, n + 1, op)
  {
    RunOne(w, userId, rng, e);
    SentLater(w, userId, rng, [e], rest, n, op);
  }

  lemma RunNext(w: World, userId: string, rng: Entropy, events: seq<Event>, k: nat)
    requires Reached(w, rng) && k < |events|
    ensures Run(w, userId, rng, events[..k + 1]) == Step(Run(w, userId, rng, events[..k]), userId, rng, events[k])
  {
    assert events[..k + 1][..k] == events[..k];
  }

  lemma ExecutedByNext(w: World, userId: string, rng: Entropy, events: seq<Event>, m: nat, o: Op)
    requires Starts(w, rng) && m < |events| && NoneRespent(w, userId, rng, events[..m])
    requires o in Run(w, userId, rng, events[..m + 1]).executed
    ensures o in Run(w, userId, rng, events[..m]).executed || SentIn(w, userId, rng, events, m, o)
  {
    RunNext(w, userId, rng, events, m);
    RunOk(w, userId, rng, events[..m]);
    StepExecutes(Run(w, userId, rng, events[..m]), userId, rng, events[m]);
  }

  lemma NothingAtFirst(w: World, userId: string, rng: Entropy)
    requires Starts(w, rng)
    ensures Run(w, userId, rng, []).executed == []
  {}

  lemma NoneRespentWithin(w: World, userId: string, rng: Entropy, events: seq<Event>, m: nat, k: nat)
    requires Reached(w, rng) && m <= k <= |events| && NoneRespent(w, userId, rng, events[..k])
    ensures NoneRespent(w, userId, rng, events[..m])
  {
    assert events[..k][..m] == events[..m];
    NoneRespentBefore(w, userId, rng, events[..k], m);
  }

  /** Everything executed was sent. */
  lemma {:induction false} ExecutedWasSent(w: World, userId: string, rng: Entropy, events: seq<Event>, k: nat, o: Op)
    returns (m: nat)
    requires Starts(w, rng) && k <= |events| && NoneRespent(w, userId, rng, events[..k])
    requires o in Run(w, userId, rng, events[..k]).executed
    ensures m < k && SentIn(w, userId, rng, events, m, o)
    decreases k
  {
    NothingAtFirst(w, userId, rng);
    assert k > 0;
    m := k - 1;
    NoneRespentWithin(w, userId, rng, events, m, k);
    ExecutedByNext(w, userId, rng, events, m, o);
    if !SentIn(w, userId, rng, events, m, o) { m := ExecutedWasSent(w, userId, rng, events, m, o); }
  }

  // ---------------------------------------------------------------------------
  // Work on the list is sent in the end
  // ---------------------------------------------------------------------------

  function ConflictFor(op: Op): Conflict {
    Conflict(op.id, OperationOf(op), "", op.baseItemRevision, None)
  }

  /** The answer that accepts nothing: every operation conflicts. */
  function AllConflict(ops: seq<Op>, current: int): PushReply {
    PushReply(current, [], seq(|ops|, i requires 0 <= i < |ops| => ConflictFor(ops[i])))
  }

  lemma AllConflictFits(ops: seq<Op>, current: int)
    requires MeetsSchema(ops)
    ensures ReplyFault(ops, current, AllConflict(ops, current)).None?
  {
    var conflicts := AllConflict(ops, current).conflicts;
    forall c | c in conflicts ensures exists op :: op in ops && ConflictFits(c, op) {
      var i :| 0 <= i < |conflicts| && conflicts[i] == c;
      assert ops[i] in ops && ConflictFits(c, ops[i]);
    }
    forall i, j | 0 <= i < j < |conflicts| ensures conflicts[i].itemId != conflicts[j].itemId {
      assert OpIds(ops)[i] != OpIds(ops)[j];
    }
  }

  /** Work for the id is on the list, at this place, with nothing pending. */
  ghost predicate Waits(st: SyncState, items: seq<Item>, i: nat, k: string) {
    i < |WorkList(st, items)| && WorkList(st, items)[i].Id() == k && !st.pending.Has(k)
  }

  lemma AllConflictAccepted(st: SyncState, userId: string, items: seq<Item>, rng: Entropy, pos: nat)
    requires StateOk(st, rng, pos) && UniqueIds(items)
    ensures var ops := BuildPlan(st, userId, items, rng, pos).ops;
            ReplyFault(ops, st.serverRevision, AllConflict(ops, st.serverRevision)).None?
  {
    PlannedIds(st, userId, items, rng, pos);
    AllConflictFits(BuildPlan(st, userId, items, rng, pos).ops, st.serverRevision);
  }

  lemma StillNothingPending(st: SyncState, userId: string, items: seq<Item>, rng: Entropy, pos: nat, reply: PushReply,
                            i: nat, k: string)
    requires StateOk(st, rng, pos) && UniqueIds(items) && MAX_SYNC_MUTATIONS <= i && Waits(st, items, i, k)
    requires ReplyFault(BuildPlan(st, userId, items, rng, pos).ops, st.serverRevision, reply).None?
    ensures !AfterReply(st, BuildPlan(st, userId, items, rng, pos), reply).pending.Has(k)
  {
    NotPlanned(st, items, i);
    OthersUntouched(st, userId, items, rng, pos, reply);
  }

  lemma WaitsAfter(st: SyncState, after: SyncState, items: seq<Item>, i: nat, k: string)
    requires MAX_SYNC_MUTATIONS <= i && Waits(st, items, i, k) && !after.pending.Has(k)
    requires WorkList(after, items) == WorkList(st, items)[MAX_SYNC_MUTATIONS..]
    ensures Waits(after, items, i - MAX_SYNC_MUTATIONS, k)
  {}

  /** An accepted round moves the rest of the list up. */
  lemma ListMovesUp(st: SyncState, userId: string, items: seq<Item>, rng: Entropy, pos: nat, reply: PushReply,
                    i: nat, k: string)
    requires StateOk(st, rng, pos) && UniqueIds(items) && MAX_SYNC_MUTATIONS <= i && Waits(st, items, i, k)
    requires ReplyFault(BuildPlan(st, userId, items, rng, pos).ops, st.serverRevision, reply).None?
    ensures var b := BuildPlan(st, userId, items, rng, pos);
            Waits(AfterReply(st, b, reply), items, i - MAX_SYNC_MUTATIONS, k)
  {
    StillNothingPending(st, userId, items, rng, pos, reply, i, k);
    FullPlan(st, userId, items, rng, pos);
    RoundDrains(st, userId, items, rng, pos, reply);
    WaitsAfter(st, AfterReply(st, BuildPlan(st, userId, items, rng, pos), reply), items, i, k);
  }

  lemma FullPlan(st: SyncState, userId: string, items: seq<Item>, rng: Entropy, pos: nat)
    requires StateOk(st, rng, pos) && UniqueIds(items) && |WorkList(st, items)| >= MAX_SYNC_MUTATIONS
    ensures |BuildPlan(st, userId, items, rng, pos).ops| == MAX_SYNC_MUTATIONS
  {
    PlannedIds(st, userId, items, rng, pos);
    assert |OpIds(BuildPlan(st, userId, items, rng, pos).ops)| == MAX_SYNC_MUTATIONS;
  }

  lemma NotPlanned(st: SyncState, items: seq<Item>, i: nat)
    requires WellFormed(st) && UniqueIds(items) && MAX_SYNC_MUTATIONS <= i < |WorkList(st, items)|
    ensures WorkList(st, items)[i].Id() !in TaskIds(Take(WorkList(st, items), MAX_SYNC_MUTATIONS))
  {
    var list := WorkList(st, items);
    WorkListDistinct(st, items);
    forall j | 0 <= j < MAX_SYNC_MUTATIONS ensures TaskIds(Take(list, MAX_SYNC_MUTATIONS))[j] != list[i].Id() {
      assert TaskIds(list)[j] != TaskIds(list)[i];
    }
  }

  ghost predicate Fresh(rng: Entropy, pos: nat, op: Op) {
    exists n: nat :: pos <= n && rng(n).uuid == op.clientMutationId
  }

  ghost predicate Sends(w: World, userId: string, rng: Entropy, pos: nat, k: string, more: seq<Event>, n: nat, op: Op)
    requires Reached(w, rng)
  {
    Pushes(more) && SentIn(w, userId, rng, more, n, op) && op.id == k && Fresh(rng, pos, op)
  }

  /** Push attempts can bring an operation for the id on the wire, under a mutation id drawn from `pos` on. */
  ghost predicate CanSend(w: World, userId: string, rng: Entropy, pos: nat, k: string)
    requires Reached(w, rng)
  {
    exists more, n: nat, op :: Sends(w, userId, rng, pos, k, more, n, op)
  }

  lemma CanSendBy(w: World, userId: string, rng: Entropy, pos: nat, k: string, more: seq<Event>, n: nat, op: Op)
    requires Reached(w, rng) && Sends(w, userId, rng, pos, k, more, n, op)
    ensures CanSend(w, userId, rng, pos, k)
  {}

  lemma NewOpAt(st: SyncState, userId: string, items: seq<Item>, rng: Entropy, pos: nat, i: nat, k: string) returns (op: Op)
    requires StateOk(st, rng, pos) && UniqueIds(items) && i < MAX_SYNC_MUTATIONS && Waits(st, items, i, k)
    ensures op in BuildPlan(st, userId, items, rng, pos).ops && op.id == k && Fresh(rng, pos, op)
  {
    var ops := BuildPlan(st, userId, items, rng, pos).ops;
    PlannedIds(st, userId, items, rng, pos);
    assert OpIds(ops)[i] == k;
    op := ops[i];
    NewOpSent(st, userId, items, rng, pos, op);
  }

  lemma CanSendNow(w: World, userId: string, rng: Entropy, i: nat, k: string)
    requires Reached(w, rng) && i < MAX_SYNC_MUTATIONS && Waits(w.disk, w.items, i, k)
    ensures CanSend(w, userId, rng, w.pos, k)
  {
    var op := NewOpAt(w.disk, userId, w.items, rng, w.pos, i, k);
    assert [LosesReply][..0] == [];
    CanSendBy(w, userId, rng, w.pos, k, [LosesReply], 0, op);
  }

  lemma PushesFirst(e: Event, more: seq<Event>)
    requires !e.GetsPage? && Pushes(more)
    ensures Pushes([e] + more)
  {}

  lemma CanSendAfter(w: World, userId: string, rng: Entropy, e: Event, pos: nat, pos': nat, k: string)
    requires Reached(w, rng) && !e.GetsPage? && pos <= pos' && CanSend(Step(w, userId, rng, e), userId, rng, pos', k)
    ensures CanSend(w, userId, rng, pos, k)
  {
    var more, n: nat, op :| Sends(Step(w, userId, rng, e), userId, rng, pos', k, more, n, op);
    SentFirst(w, userId, rng, e, more, n, op);
    PushesFirst(e, more);
    CanSendBy(w, userId, rng, pos, k, [e] + more, n + 1, op);
  }

  /** A push attempt after which the id waits a hundred places further up. */
  lemma MovesUp(w: World, userId: string, rng: Entropy, i: nat, k: string) returns (e: Event)
    requires Reached(w, rng) && MAX_SYNC_MUTATIONS <= i && Waits(w.disk, w.items, i, k)
    ensures var v := Step(w, userId, rng, e);
            !e.GetsPage? && Waits(v.disk, v.items, i - MAX_SYNC_MUTATIONS, k) && w.pos <= v.pos
  {
    var reply := AllConflict(Planned(w, userId, rng).ops, w.disk.serverRevision);
    e := Answered(reply, STORED_KEYS);
    AllConflictAccepted(w.disk, userId, w.items, rng, w.pos);
    ListMovesUp(w.disk, userId, w.items, rng, w.pos, reply, i, k);
    DrawsGrow(w.disk, userId, Take(WorkList(w.disk, w.items), MAX_SYNC_MUTATIONS), rng, w.pos);
  }

  lemma WaitsFurtherUp(w: World, userId: string, rng: Entropy, i: nat, k: string) returns (v: World)
    requires Reached(w, rng) && MAX_SYNC_MUTATIONS <= i && Waits(w.disk, w.items, i, k)
    ensures Reached(v, rng) && Waits(v.disk, v.items, i - MAX_SYNC_MUTATIONS, k)
    ensures CanSend(v, userId, rng, v.pos, k) ==> CanSend(w, userId, rng, w.pos, k)
  {
    var e := MovesUp(w, userId, rng, i, k);
    v := Step(w, userId, rng, e);
    if CanSend(v, userId, rng, v.pos, k) { CanSendAfter(w, userId, rng, e, w.pos, v.pos, k); }
  }

  /** Whatever is on the work list with nothing pending can come to be sent, as a new operation. */
  lemma {:induction false} ReachesWire(w: World, userId: string, rng: Entropy, i: nat, k: string)
    requires Reached(w, rng) && Waits(w.disk, w.items, i, k)
    ensures CanSend(w, userId, rng, w.pos, k)
    decreases i
  {
    if i < MAX_SYNC_MUTATIONS {
      CanSendNow(w, userId, rng, i, k);
    } else {
      var v := WaitsFurtherUp(w, userId, rng, i, k);
      ReachesWire(v, userId, rng, i - MAX_SYNC_MUTATIONS, k);
    }
  }

  // ---------------------------------------------------------------------------
  // The exact condition
  // ---------------------------------------------------------------------------

  lemma PushesAreHarmless(w: World, userId: string, rng: Entropy, events: seq<Event>, more: seq<Event>)
    requires Reached(w, rng) && NoneRespent(w, userId, rng, events) && Pushes(more)
    ensures NoneRespent(w, userId, rng, events + more)
  {
    var all := events + more;
    forall k | 0 <= k < |all| ensures Harmless(Run(w, userId, rng, all[..k]), userId, all[k]) {
      if k < |events| {
        assert all[..k] == events[..k] && all[k] == events[k];
      } else {
        assert all[k] == more[k - |events|];
      }
    }
  }

  lemma OneWhileNoneRespent(w: World, userId: string, rng: Entropy, events: seq<Event>)
    requires Starts(w, rng) && NoneRespent(w, userId, rng, events)
    ensures OnePerItem(w, userId, rng, events)
  {
    forall m: nat, a, n: nat, b | SentIn(w, userId, rng, events, m, a) && SentIn(w, userId, rng, events, n, b)
      ensures a.id == b.id ==> a == b
    {
      ExactlyOnce(w, userId, rng, events, m, a, n, b);
    }
  }

  ghost predicate HarmlessAt(w: World, userId: string, rng: Entropy, events: seq<Event>, k: nat)
    requires Reached(w, rng) && k < |events|
  {
    Harmless(Run(w, userId, rng, events[..k]), userId, events[k])
  }

  /** The least number without a property. */
  lemma {:induction false} LeastWithout(p: nat -> bool, n: nat) returns (k: nat)
    requires !p(n)
    ensures k <= n && !p(k) && forall j: nat :: j < k ==> p(j)
    decreases n
  {
    k := n;
    if j: nat :| j < n && !p(j) { k := LeastWithout(p, j); }
  }

  /** The first page that brings an executed item back. */
  lemma FirstRespent(w: World, userId: string, rng: Entropy, events: seq<Event>) returns (k: nat)
    requires Reached(w, rng) && !NoneRespent(w, userId, rng, events)
    ensures k < |events| && !HarmlessAt(w, userId, rng, events, k)
    ensures forall j :: 0 <= j < k ==> HarmlessAt(w, userId, rng, events, j)
  {
    var harmless := (j: nat) => Reached(w, rng) && (j < |events| ==> HarmlessAt(w, userId, rng, events, j));
    var i: nat :| i < |events| && !Harmless(Run(w, userId, rng, events[..i]), userId, events[i]);
    assert !HarmlessAt(w, userId, rng, events, i);
    k := LeastWithout(harmless, i);
    forall j: nat | j < k ensures HarmlessAt(w, userId, rng, events, j) { assert harmless(j); }
  }

  lemma HarmlessBefore(w: World, userId: string, rng: Entropy, events: seq<Event>, k: nat)
    requires Reached(w, rng) && k <= |events| && forall j :: 0 <= j < k ==> HarmlessAt(w, userId, rng, events, j)
    ensures NoneRespent(w, userId, rng, events[..k])
  {
    forall j | 0 <= j < k ensures Harmless(Run(w, userId, rng, events[..k][..j]), userId, events[..k][j]) {
      assert events[..k][..j] == events[..j] && HarmlessAt(w, userId, rng, events, j);
    }
  }

  /** After a page that respends an executed item, push attempts alone can send a second operation for it. */
  lemma RespentIsSent(w: World, userId: string, rng: Entropy, e: Event, o: Op)
    requires WorldOk(w, userId, rng) && e.GetsPage? && o in w.executed
    requires Respends(w, userId, e.page, e.writes, o.id)
    ensures CanSend(Step(w, userId, rng, e), userId, rng, w.pos, o.id)
  {
    var w' := Step(w, userId, rng, e);
    RespentIsListed(w, userId, rng, e.page, e.writes, o);
    var t :| t in WorkList(w'.disk, w'.items) && t.Id() == o.id;
    var i :| 0 <= i < |WorkList(w'.disk, w'.items)| && WorkList(w'.disk, w'.items)[i] == t;
    NothingPending(w, userId, e.page, e.writes, o.id);
    ReachesWire(w', userId, rng, i, o.id);
  }

  lemma NothingPending(w: World, userId: string, page: PullReply, writes: nat, k: string)
    requires UniqueIds(w.items) && WellFormed(w.disk) && Respends(w, userId, page, writes, k)
    ensures !Paged(w, userId, page, writes).disk.pending.Has(k)
  {
    OnePageOk(w.disk, userId, w.items, page);
  }

  lemma FreshDiffers(w: World, userId: string, rng: Entropy, o: Op, op: Op)
    requires WorldOk(w, userId, rng) && o in w.executed && Fresh(rng, w.pos, op)
    ensures op != o
  {}

  lemma TwoOperations(w: World, userId: string, rng: Entropy, events: seq<Event>, k: nat) returns (more: seq<Event>)
    requires Starts(w, rng) && k < |events| && NoneRespent(w, userId, rng, events[..k])
    requires !HarmlessAt(w, userId, rng, events, k)
    ensures Pushes(more) && !OnePerItem(w, userId, rng, events[..k + 1] + more)
  {
    var v, e := Run(w, userId, rng, events[..k]), events[k];
    RunOk(w, userId, rng, events[..k]);
    var o :| o in v.executed && Respends(v, userId, e.page, e.writes, o.id);
    var m := ExecutedWasSent(w, userId, rng, events, k, o);
    RespentIsSent(v, userId, rng, e, o);
    RunNext(w, userId, rng, events, k);
    more := TwoSent(w, userId, rng, events, k, m, o);
  }

  lemma TwoSent(w: World, userId: string, rng: Entropy, events: seq<Event>, k: nat, m: nat, o: Op) returns (more: seq<Event>)
    requires Reached(w, rng) && m < k < |events| && SentIn(w, userId, rng, events, m, o)
    requires var v := Run(w, userId, rng, events[..k]); WorldOk(v, userId, rng) && o in v.executed
    requires CanSend(Run(w, userId, rng, events[..k + 1]), userId, rng, Run(w, userId, rng, events[..k]).pos, o.id)
    ensures Pushes(more) && !OnePerItem(w, userId, rng, events[..k + 1] + more)
  {
    var v := Run(w, userId, rng, events[..k]);
    var rest, n: nat, op :| Sends(Run(w, userId, rng, events[..k + 1]), userId, rng, v.pos, o.id, rest, n, op);
    more := rest;
    FreshDiffers(v, userId, rng, o, op);
    SentEarlier(w, userId, rng, events, k + 1, more, m, o);
    SentLater(w, userId, rng, events[..k + 1], more, n, op);
  }

  /**
   * The exact condition. However a run goes on from any point of it with push attempts, it sends one operation for an
   * item and no other, if and only if no page of the run, torn where it was, brings an item that was executed back on
   * the work list.
   */
  lemma OneOperationExactlyWhen(w: World, userId: string, rng: Entropy, events: seq<Event>)
    requires Starts(w, rng)
    ensures NoneRespent(w, userId, rng, events) <==>
            forall k, more :: 0 <= k <= |events| && Pushes(more) ==> OnePerItem(w, userId, rng, events[..k] + more)
  {
    if NoneRespent(w, userId, rng, events) {
      forall k, more | 0 <= k <= |events| && Pushes(more) ensures OnePerItem(w, userId, rng, events[..k] + more) {
        NoneRespentBefore(w, userId, rng, events, k);
        PushesAreHarmless(w, userId, rng, events[..k], more);
        OneWhileNoneRespent(w, userId, rng, events[..k] + more);
      }
    } else {
      var k := FirstRespent(w, userId, rng, events);
      HarmlessBefore(w, userId, rng, events, k);
      var more := TwoOperations(w, userId, rng, events, k);
      assert !OnePerItem(w, userId, rng, events[..k + 1] + more);
    }
  }
}
