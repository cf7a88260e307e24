/**
 * A run in which an item is sent, and executed, twice: pushed and acknowledged, pulled again as another device has
 * changed it, and the page dies right after the vault is stored.
 */
module SentTwice {
  import opened Seqs
  import opened Records
  import opened ItemSync
  import opened PlanLaws
  import opened PushReplies
  import opened PushRounds
  import opened Pull
  import opened CrashRuns
  import opened OnceExactly

  function One<V>(key: string, value: V): Record<V> {
    Record([key], map[key := value])
  }

  lemma PutOne<V>(key: string, a: V, b: V)
    ensures Empty().Put(key, a) == One(key, a) && One(key, a).Put(key, b) == One(key, b)
    ensures One(key, a).Drop(key) == Empty()
  {
    FilterAll([key], k => k != key);
    assert One(key, a).Drop(key).at == map[];
  }

  // ---------------------------------------------------------------------------
  // Plans of a vault with one item
  // ---------------------------------------------------------------------------

  lemma OneWork(st: SyncState, item: Item)
    requires Dirty(st, item) && forall k :: k in KnownIds(st) ==> k == item.id
    ensures WorkList(st, [item]) == [PutItem(item)]
  {
    FilterAll([item], (x: Item) => Dirty(st, x));
    assert ItemIds([item]) == [item.id];
    FilterAll(KnownIds(st), k => k !in ItemIds([item]) && k !in st.conflicts);
  }

  lemma OneBuild(st: SyncState, userId: string, t: Task, rng: Entropy, pos: nat)
    requires !st.pending.Has(t.Id())
    ensures var op := NewOp(st, userId, t, rng(pos));
            Build(st, userId, [t], rng, pos) == Built([op], st.pending.Put(t.Id(), EntryFor(st, t, op)), pos + 1)
  {
    assert [t][..0] == [];
  }

  lemma OnePlan(st: SyncState, userId: string, item: Item, rng: Entropy, pos: nat)
    requires Dirty(st, item) && !st.pending.Has(item.id) && forall k :: k in KnownIds(st) ==> k == item.id
    ensures var op := NewOp(st, userId, PutItem(item), rng(pos));
            BuildPlan(st, userId, [item], rng, pos) ==
            Built([op], st.pending.Put(item.id, EntryFor(st, PutItem(item), op)), pos + 1)
  {
    OneWork(st, item);
    OneBuild(st, userId, PutItem(item), rng, pos);
  }

  // ---------------------------------------------------------------------------
  // The run
  // ---------------------------------------------------------------------------

  function Before(x: Item): World {
    World(EMPTY_SYNC_STATE, [x], 0, [])
  }

  function FirstOp(x: Item, userId: string, rng: Entropy): Op {
    NewOp(EMPTY_SYNC_STATE, userId, PutItem(x), rng(0))
  }

  function Acknowledged(op: Op): Event {
    Answered(PushReply(1, [Receipt(op.clientMutationId, op.id, OnUpsert, 1)], []), STORED_KEYS)
  }

  /** The state once `x` is acknowledged at revision one. */
  function Settled(x: Item): SyncState {
    SyncState(0, 1, One(x.id, 1), One(x.id, x.updatedAt), Empty(), [])
  }

  function Pushed(x: Item, userId: string, rng: Entropy): World {
    World(Settled(x), [x], 1, [FirstOp(x, userId, rng)])
  }

  function Newer(y: Item, userId: string, nonce: string): PullReply {
    PullReply(2, 2, false, [Changed(RemoteItem(y.id, userId, 2, Sealed(y, nonce)))])
  }

  function SecondOp(x: Item, y: Item, userId: string, rng: Entropy): Op {
    NewOp(Settled(x), userId, PutItem(y), rng(1))
  }

  /** The push is acknowledged and stored; the page dies right after the vault. */
  function TornRun(x: Item, y: Item, userId: string, nonce: string, rng: Entropy): seq<Event> {
    [Acknowledged(FirstOp(x, userId, rng)), GetsPage(Newer(y, userId, nonce), 0)]
  }

  lemma StartsBefore(x: Item, rng: Entropy)
    requires forall m: nat, n: nat :: m < n ==> rng(m).uuid != rng(n).uuid
    ensures Starts(Before(x), rng)
  {}

  lemma ExecutedOnce(op: Op)
    ensures Execute([], [op]) == [op]
  {
    assert [op][..0] == [];
  }

  lemma ExecutedNext(a: Op, b: Op)
    requires a.clientMutationId != b.clientMutationId
    ensures Execute([a], [b]) == [a, b]
  {
    assert [b][..0] == [];
  }

  lemma FirstAccepted(op: Op)
    requires op.Upsert? && op.baseItemRevision == 0
    ensures ReplyFault([op], 0, Acknowledged(op).reply).None?
  {
    assert ReceiptFits(Acknowledged(op).reply.receipts[0], op, 1) && op in [op];
  }

  lemma FirstSettles(x: Item, op: Op, entry: Pending)
    requires op.id == x.id && entry.itemUpdatedAt == x.updatedAt
    ensures Settle(EMPTY_SYNC_STATE.(pending := One(x.id, entry)), Acknowledged(op).reply) == Settled(x)
  {
    var planned, receipts := EMPTY_SYNC_STATE.(pending := One(x.id, entry)), Acknowledged(op).reply.receipts;
    PutOne(x.id, entry, entry);
    PutOne(x.id, 1, 1);
    PutOne(x.id, x.updatedAt, x.updatedAt);
    assert receipts[..0] == [];
    assert SettleReceipts(planned, receipts) == SettleReceipt(planned, receipts[0]);
  }

  lemma PushStep(x: Item, userId: string, rng: Entropy)
    requires Starts(Before(x), rng)
    ensures Step(Before(x), userId, rng, Acknowledged(FirstOp(x, userId, rng))) == Pushed(x, userId, rng)
  {
    var op := FirstOp(x, userId, rng);
    var entry := EntryFor(EMPTY_SYNC_STATE, PutItem(x), op);
    OnePlan(EMPTY_SYNC_STATE, userId, x, rng, 0);
    PutOne(x.id, entry, entry);
    FirstAccepted(op);
    FirstSettles(x, op, entry);
    ExecutedOnce(op);
  }

  lemma NewerFolds(x: Item, y: Item, userId: string, nonce: string)
    requires x.id != VAULT_ENVELOPE_ID && y.id == x.id
    ensures Fold(Settled(x), userId, View(One(x.id, x), One(x.id, 1), One(x.id, x.updatedAt)),
                 Newer(y, userId, nonce).changes) ==
            Done(View(One(x.id, y), One(x.id, 2), One(x.id, y.updatedAt)))
  {
    assert Newer(y, userId, nonce).changes[..0] == [];
    PutOne(x.id, x, y);
    PutOne(x.id, 1, 2);
    PutOne(x.id, x.updatedAt, y.updatedAt);
  }

  lemma NewerPage(x: Item, y: Item, userId: string, nonce: string)
    requires x.id != VAULT_ENVELOPE_ID && y.id == x.id && WellFormed(Settled(x))
    ensures var p := OnePage(Settled(x), userId, [x], Newer(y, userId, nonce));
            p.fault.None? && p.items == [y] && SchemaPage(Newer(y, userId, nonce))
  {
    FromOne(x);
    NewerFolds(x, y, userId, nonce);
    OnePageIs(Settled(x), userId, [x], Newer(y, userId, nonce));
    assert ToItems(One(x.id, y)) == [y];
  }

  lemma FromOne(x: Item)
    ensures FromItems([x]) == One(x.id, x)
  {
    assert [x][..0] == [];
    PutOne(x.id, x, x);
  }

  lemma SettledWellFormed(x: Item)
    ensures WellFormed(Settled(x))
  {}

  /** The torn page brings the executed item back. */
  lemma PageRespends(x: Item, y: Item, userId: string, nonce: string, rng: Entropy)
    requires x.id != VAULT_ENVELOPE_ID && y.id == x.id && y.updatedAt != x.updatedAt
    ensures WellFormed(Settled(x)) && Respends(Pushed(x, userId, rng), userId, Newer(y, userId, nonce), 0, x.id)
    ensures Paged(Pushed(x, userId, rng), userId, Newer(y, userId, nonce), 0) == Pushed(x, userId, rng).(items := [y])
  {
    SettledWellFormed(x);
    NewerPage(x, y, userId, nonce);
    var p := OnePage(Settled(x), userId, [x], Newer(y, userId, nonce));
    assert y in p.items && Settled(x).timestamps.Get(x.id) == Some(x.updatedAt);
  }

  lemma PushAgain(x: Item, y: Item, userId: string, rng: Entropy)
    requires y.id == x.id && y.updatedAt != x.updatedAt && rng(0).uuid != rng(1).uuid
    requires Reached(Pushed(x, userId, rng).(items := [y]), rng)
    ensures var w := Pushed(x, userId, rng).(items := [y]);
            && Sent(w, userId, rng, LosesReply) == [SecondOp(x, y, userId, rng)]
            && Step(w, userId, rng, LosesReply).executed == [FirstOp(x, userId, rng), SecondOp(x, y, userId, rng)]
  {
    OnePlan(Settled(x), userId, y, rng, 1);
    ExecutedNext(FirstOp(x, userId, rng), SecondOp(x, y, userId, rng));
  }

  lemma TornRunIs(x: Item, y: Item, userId: string, nonce: string, rng: Entropy)
    requires Starts(Before(x), rng)
    requires x.id != VAULT_ENVELOPE_ID && y.id == x.id && y.updatedAt != x.updatedAt
    ensures var events := TornRun(x, y, userId, nonce, rng);
            && Run(Before(x), userId, rng, events[..1]) == Pushed(x, userId, rng)
            && Run(Before(x), userId, rng, events) == Pushed(x, userId, rng).(items := [y])
  {
    var events := TornRun(x, y, userId, nonce, rng);
    assert events == [events[0]] + [events[1]] && events[..1] == [events[0]];
    RunOne(Before(x), userId, rng, events[0]);
    PushStep(x, userId, rng);
    RunSnoc(Before(x), userId, rng, [events[0]], events[1]);
    PageRespends(x, y, userId, nonce, rng);
  }

  /**
   * It does happen. From an empty state with one item: the push is acknowledged, a page with a newer version dies
   * right after the vault, and the next push sends a second operation for the item, which a server that executes
   * every mutation id once executes as well.
   */
  lemma ItemExecutedTwice(x: Item, y: Item, userId: string, nonce: string, rng: Entropy)
    requires forall m: nat, n: nat :: m < n ==> rng(m).uuid != rng(n).uuid
    requires x.id != VAULT_ENVELOPE_ID && y.id == x.id && y.updatedAt != x.updatedAt
    ensures var w, events := Before(x), TornRun(x, y, userId, nonce, rng);
            && Starts(w, rng)
            && !NoneRespent(w, userId, rng, events)
            && !OnePerItem(w, userId, rng, events + [LosesReply])
            && var done := Run(w, userId, rng, events + [LosesReply]).executed;
               |done| == 2 && done[0].id == x.id == done[1].id && done[0] != done[1]
  {
    var w, events := Before(x), TornRun(x, y, userId, nonce, rng);
    StartsBefore(x, rng);
    TornRunIs(x, y, userId, nonce, rng);
    PageRespends(x, y, userId, nonce, rng);
    assert FirstOp(x, userId, rng) in Pushed(x, userId, rng).executed;
    assert !Harmless(Run(w, userId, rng, events[..1]), userId, events[1]);
    assert rng(0).uuid != rng(1).uuid;
    PushAgain(x, y, userId, rng);
    RunSnoc(w, userId, rng, events, LosesReply);
    BothSent(x, y, userId, nonce, rng);
  }

  lemma FirstSent(x: Item, userId: string, rng: Entropy, events: seq<Event>)
    requires Starts(Before(x), rng) && events != [] && events[0].Answered?
    ensures SentIn(Before(x), userId, rng, events, 0, FirstOp(x, userId, rng))
  {
    OnePlan(EMPTY_SYNC_STATE, userId, x, rng, 0);
    assert events[..0] == [];
  }

  lemma BothSent(x: Item, y: Item, userId: string, nonce: string, rng: Entropy)
    requires Starts(Before(x), rng) && rng(0).uuid != rng(1).uuid
    requires x.id != VAULT_ENVELOPE_ID && y.id == x.id && y.updatedAt != x.updatedAt
    ensures !OnePerItem(Before(x), userId, rng, TornRun(x, y, userId, nonce, rng) + [LosesReply])
  {
    var w, events := Before(x), TornRun(x, y, userId, nonce, rng);
    var all, a, b := events + [LosesReply], FirstOp(x, userId, rng), SecondOp(x, y, userId, rng);
    TornRunIs(x, y, userId, nonce, rng);
    FirstSent(x, userId, rng, all);
    PushAgain(x, y, userId, rng);
    assert all[..2] == events;
    assert SentIn(w, userId, rng, all, 2, b);
    assert a.id == b.id && a != b;
  }
}
