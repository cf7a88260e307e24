/** The desktop application's queue of offline mutations, and its replay against the server. */
module OfflineQueue {
  import opened Seqs

  const MAX_QUEUE_SIZE: nat := 500
  const ENTRY_TTL_MS: int := 7 * 24 * 60 * 60 * 1000

  /** A stored entry. Its kind is whatever text was stored; a timestamp that is no date is `None`. */
  datatype Entry = Entry(kind: string, itemId: string, timestamp: Option<int>, retryCount: int)

  /** What the stored array may hold besides entries is skipped on reading. */
  datatype Slot = Good(entry: Entry) | Junk

  // ---------------------------------------------------------------------------
  // The queue
  // ---------------------------------------------------------------------------

  /** Comparing with a timestamp that is no date is false, so such an entry counts as expired. */
  predicate Active(e: Entry, now: int) {
    e.timestamp.Some? && now - e.timestamp.value < ENTRY_TTL_MS
  }

  function Entries(slots: seq<Slot>): seq<Entry> {
    if slots == [] then []
    else
      var n := |slots| - 1;
      Entries(slots[..n]) + if slots[n].Good? then [slots[n].entry] else []
  }

  function Slots(entries: seq<Entry>): (slots: seq<Slot>)
    ensures |slots| == |entries|
  {
    seq(|entries|, i requires 0 <= i < |entries| => Good(entries[i]))
  }

  lemma {:induction false} EntriesOfSlots(entries: seq<Entry>)
    ensures Entries(Slots(entries)) == entries
  {
    if entries != [] {
      var n := |entries| - 1;
      EntriesOfSlots(entries[..n]);
      assert Slots(entries)[..n] == Slots(entries[..n]);
    }
  }

  function ActiveAt(now: int): Entry -> bool {
    e => Active(e, now)
  }

  function CleanExpired(entries: seq<Entry>, now: int): seq<Entry> {
    Filter(entries, ActiveAt(now))
  }

  function IndexOf(entries: seq<Entry>, id: string): (k: int)
    ensures -1 <= k < |entries|
    ensures k >= 0 ==> entries[k].itemId == id
    ensures k < 0 ==> forall i :: 0 <= i < |entries| ==> entries[i].itemId != id
  {
    if entries == [] then -1
    else if entries[0].itemId == id then 0
    else
      var k := IndexOf(entries[1..], id);
      if k < 0 then -1 else k + 1
  }

  /** An entry replaces the one for its item, or goes last. */
  function Placed(entries: seq<Entry>, e: Entry): seq<Entry> {
    var k := IndexOf(entries, e.itemId);
    if k >= 0 then entries[k := e] else entries + [e]
  }

  function Newest(entries: seq<Entry>): seq<Entry> {
    if |entries| <= MAX_QUEUE_SIZE then entries else entries[|entries| - MAX_QUEUE_SIZE..]
  }

  /** The queue after an enqueue. */
  function Enqueued(queue: seq<Entry>, e: Entry, now: int): seq<Entry> {
    Newest(Placed(CleanExpired(queue, now), e))
  }

  ghost predicate OnePerItem(queue: seq<Entry>) {
    forall i, j :: 0 <= i < j < |queue| ==> queue[i].itemId != queue[j].itemId
  }

  ghost predicate QueueOk(queue: seq<Entry>) {
    |queue| <= MAX_QUEUE_SIZE && OnePerItem(queue)
  }

  lemma {:induction false} CleanKeepsOnePerItem(queue: seq<Entry>, now: int)
    requires OnePerItem(queue)
    ensures OnePerItem(CleanExpired(queue, now))
  {
    if queue != [] {
      var n := |queue| - 1;
      CleanKeepsOnePerItem(queue[..n], now);
      FilterIn(queue[..n], ActiveAt(now));
      var rest := CleanExpired(queue[..n], now);
      forall i | 0 <= i < |rest| ensures rest[i].itemId != queue[n].itemId {
        assert rest[i] in queue[..n];
      }
    }
  }

  lemma {:induction false} CleanIsShorter(queue: seq<Entry>, now: int)
    ensures |CleanExpired(queue, now)| <= |queue|
  {
    if queue != [] { CleanIsShorter(queue[..|queue| - 1], now); }
  }

  lemma PlacedOnePerItem(clean: seq<Entry>, e: Entry)
    requires OnePerItem(clean)
    ensures OnePerItem(Placed(clean, e))
  {}

  /** An enqueue leaves at most 500 entries whatever was stored, and one per item stays one per item. */
  lemma EnqueueKeepsQueueOk(queue: seq<Entry>, e: Entry, now: int)
    ensures |Enqueued(queue, e, now)| <= MAX_QUEUE_SIZE
    ensures OnePerItem(queue) ==> OnePerItem(Enqueued(queue, e, now))
  {
    if OnePerItem(queue) {
      CleanKeepsOnePerItem(queue, now);
      PlacedOnePerItem(CleanExpired(queue, now), e);
    }
  }

  /**
   * On a proper queue, the entry is there afterwards, entries of other items stay if they are not expired, and only
   * a new item on a full queue pushes one out: the oldest.
   */
  lemma EnqueueLosesOnlyOldest(queue: seq<Entry>, e: Entry, now: int, x: Entry)
    requires QueueOk(queue)
    ensures var clean, after := CleanExpired(queue, now), Enqueued(queue, e, now);
            && e in after
            && (x in after ==> x == e || x in clean)
            && (x in clean && x.itemId != e.itemId ==>
                  (x !in after <==> |clean| == MAX_QUEUE_SIZE && IndexOf(clean, e.itemId) < 0 && x == clean[0]))
  {
    var clean, placed, after := CleanExpired(queue, now), Placed(CleanExpired(queue, now), e), Enqueued(queue, e, now);
    CleanIsShorter(queue, now);
    CleanKeepsOnePerItem(queue, now);
    var k := IndexOf(clean, e.itemId);
    assert after[if k >= 0 then k else |after| - 1] == e;
    if x in clean && x.itemId != e.itemId {
      var i :| 0 <= i < |clean| && clean[i] == x;
      assert placed[i] == x;
      if |placed| <= MAX_QUEUE_SIZE {
        assert after[i] == x;
      } else if i > 0 {
        assert after[i - 1] == x;
      }
    }
  }

  /** An entry survives exactly when its timestamp is a date less than seven days, 604 800 000 milliseconds, back. */
  lemma UnexpiredExactly(queue: seq<Entry>, now: int, x: Entry)
    ensures x in CleanExpired(queue, now) <==>
            x in queue && x.timestamp.Some? && now - x.timestamp.value < 604_800_000
  {
    FilterIn(queue, ActiveAt(now));
  }

  /**
   * Where everything stands after an enqueue on a proper queue: the entry takes the place of the unexpired one for
   * its item, the others staying where they are; for a new item it goes last, and of 500 others the first goes.
   */
  lemma EnqueueOrder(queue: seq<Entry>, e: Entry, now: int, i: nat)
    requires QueueOk(queue)
    ensures var clean, after := CleanExpired(queue, now), Enqueued(queue, e, now);
            && (i < |clean| && clean[i].itemId == e.itemId ==>
                  |after| == |clean| && after[i] == e && forall j :: 0 <= j < |clean| && j != i ==> after[j] == clean[j])
            && ((forall j :: 0 <= j < |clean| ==> clean[j].itemId != e.itemId) ==>
                  && (|clean| < 500 ==> after == clean + [e])
                  && (|clean| == 500 ==> after == clean[1..] + [e]))
  {
    CleanKeepsOnePerItem(queue, now);
    CleanIsShorter(queue, now);
    var clean := CleanExpired(queue, now);
    var k := IndexOf(clean, e.itemId);
    if k < 0 && |clean| == 500 { assert (clean + [e])[1..] == clean[1..] + [e]; }
  }

  // ---------------------------------------------------------------------------
  // The replay of one entry
  // ---------------------------------------------------------------------------

  datatype Item = Item(id: string, body: string)

  datatype Cipher = Cipher(revision: int, createdAt: int, updatedAt: int, body: string)

  datatype Stored = Stored(cipher: Cipher, itemRevision: int, lastSyncedAt: int, hasConflict: bool,
                           conflictRevision: Option<int>)

  /** The local ciphertext store. */
  datatype Store = Store(records: map<string, Stored>, conflictIds: set<string>, serverRevision: int,
                         lastSyncedAt: Option<int>)

  datatype Conflict = Conflict(itemId: string, serverItemRevision: int)

  datatype Reply = Reply(conflicts: seq<Conflict>, upserted: seq<string>, serverRevision: int)

  /** What comes of a request, or of the encryption before it. */
  datatype Attempt = NetworkFailure | OtherFailure | Answered(reply: Reply)

  /** How an entry is accounted for. */
  datatype Verdict = Processed | Requeue | Uncounted

  function FindItem(items: seq<Item>, id: string): (r: Option<Item>)
    ensures r.Some? ==> r.value.id == id
  {
    if items == [] then None else if items[0].id == id then Some(items[0]) else FindItem(items[1..], id)
  }

  /** `response.conflicts.find(...)?.serverItemRevision`. */
  function ConflictRevision(conflicts: seq<Conflict>, id: string): Option<int> {
    if conflicts == [] then None
    else if conflicts[0].itemId == id then Some(conflicts[0].serverItemRevision)
    else ConflictRevision(conflicts[1..], id)
  }

  function ConflictItems(conflicts: seq<Conflict>): set<string> {
    set c | c in conflicts :: c.itemId
  }

  function CurrentRevision(store: Store, id: string): int {
    if id in store.records then store.records[id].itemRevision else 0
  }

  /** The store after the server answered an upsert. */
  function Upserted(store: Store, item: Item, reply: Reply, now: int): Store {
    var current := CurrentRevision(store, item.id);
    var created := if item.id in store.records then store.records[item.id].cipher.createdAt else now;
    if reply.conflicts != [] then
      Store(store.records[item.id := Stored(Cipher(current, created, now, item.body), current, now, true,
                                            ConflictRevision(reply.conflicts, item.id))],
            store.conflictIds + ConflictItems(reply.conflicts), reply.serverRevision, store.lastSyncedAt)
    else
      var revision := if item.id in reply.upserted then reply.serverRevision else current + 1;
      Store(store.records[item.id := Stored(Cipher(revision, created, now, item.body), revision, now, false, None)],
            store.conflictIds, reply.serverRevision, Some(now))
  }

  /** The store after the server answered a delete. */
  function Deleted(store: Store, id: string, reply: Reply, now: int): Store {
    if reply.conflicts != [] then
      var marked := if id in store.records
                    then store.records[id := store.records[id].(hasConflict := true,
                                       conflictRevision := ConflictRevision(reply.conflicts, id))]
                    else store.records;
      Store(marked, store.conflictIds + ConflictItems(reply.conflicts), reply.serverRevision, store.lastSyncedAt)
    else Store(store.records - {id}, store.conflictIds, reply.serverRevision, Some(now))
  }

  /** A request is made: for an upsert, only while its plaintext is there. */
  predicate Requested(e: Entry, items: seq<Item>) {
    e.kind == "delete" || (e.kind == "upsert" && FindItem(items, e.itemId).Some?)
  }

  function VerdictOf(e: Entry, items: seq<Item>, attempt: Attempt): Verdict {
    if !Known(e) then Uncounted
    else if Requested(e, items) && attempt.NetworkFailure? then Requeue
    else Processed
  }

  predicate Known(e: Entry) {
    e.kind == "upsert" || e.kind == "delete"
  }

  function StoreAfter(store: Store, e: Entry, items: seq<Item>, attempt: Attempt, now: int): Store {
    if !Requested(e, items) || !attempt.Answered? then store
    else if e.kind == "upsert" then Upserted(store, FindItem(items, e.itemId).value, attempt.reply, now)
    else Deleted(store, e.itemId, attempt.reply, now)
  }

  /** Every record flagged as conflicting is on the list of conflicts the user is shown. */
  ghost predicate FlagsListed(store: Store) {
    forall id :: id in store.records && store.records[id].hasConflict ==> id in store.conflictIds
  }

  /** The answer's conflicts, if it has any, are about the item that was sent, or that item was listed before. */
  predicate NamesItem(store: Store, id: string, reply: Reply) {
    reply.conflicts == [] || id in ConflictItems(reply.conflicts) || id in store.conflictIds
  }

  /** An upsert flags its own item whatever item the conflicts are about, so flags stay listed only if they name it. */
  lemma UpsertFlags(store: Store, item: Item, reply: Reply, now: int)
    requires FlagsListed(store)
    ensures FlagsListed(Upserted(store, item, reply, now)) <==> NamesItem(store, item.id, reply)
  {
    var after := Upserted(store, item, reply, now);
    assert item.id in after.records;
    if NamesItem(store, item.id, reply) {
      forall id | id in after.records && after.records[id].hasConflict ensures id in after.conflictIds {
        if id != item.id { assert id in store.records && store.records[id].hasConflict; }
      }
    }
  }

  /** The same of a delete, whose item may have no record. */
  lemma DeleteFlags(store: Store, id: string, reply: Reply, now: int)
    requires FlagsListed(store)
    ensures FlagsListed(Deleted(store, id, reply, now)) <==> NamesItem(store, id, reply) || id !in store.records
  {
    var after := Deleted(store, id, reply, now);
    if NamesItem(store, id, reply) || id !in store.records {
      forall k | k in after.records && after.records[k].hasConflict ensures k in after.conflictIds {
        if k != id { assert k in store.records && store.records[k].hasConflict; }
      }
    } else {
      assert id in after.records && after.records[id].hasConflict;
    }
  }

  // ---------------------------------------------------------------------------
  // The replay loop
  // ---------------------------------------------------------------------------

  datatype Tally = Tally(store: Store, processed: nat, failures: seq<Entry>)

  /** The loop over the dequeued entries; attempt `k` is what comes of entry `k`. */
  function Replay(store: Store, entries: seq<Entry>, items: seq<Item>, attempts: nat -> Attempt, now: int): (t: Tally)
    ensures |t.failures| <= |entries|
  {
    if entries == [] then Tally(store, 0, [])
    else
      var n := |entries| - 1;
      var t := Replay(store, entries[..n], items, attempts, now);
      var verdict := VerdictOf(entries[n], items, attempts(n));
      Tally(StoreAfter(t.store, entries[n], items, attempts(n), now), t.processed + if verdict == Processed then 1 else 0,
            t.failures + if verdict == Requeue then [entries[n]] else [])
  }

  /**
   * Every entry of a known kind is counted once: processed and network failures add up to them. So the totals
   * account for all entries if and only if no entry has another kind; such an entry is dropped without a trace.
   */
  lemma {:induction false} ReplayCounts(store: Store, entries: seq<Entry>, items: seq<Item>, attempts: nat -> Attempt, now: int)
    ensures var t := Replay(store, entries, items, attempts, now);
            && t.processed + |t.failures| == |Filter(entries, Known)|
            && (t.processed + |t.failures| == |entries| <==> forall k :: 0 <= k < |entries| ==> Known(entries[k]))
  {
    if entries != [] {
      var n := |entries| - 1;
      ReplayCounts(store, entries[..n], items, attempts, now);
      FilterSize(entries[..n], Known);
      if forall k :: 0 <= k < n ==> Known(entries[..n][k]) {
        assert forall k :: 0 <= k < n ==> Known(entries[k]);
      } else {
        var k :| 0 <= k < n && !Known(entries[..n][k]);
        assert !Known(entries[k]);
      }
    }
  }

  lemma {:induction false} FilterSize<T>(s: seq<T>, keep: T -> bool)
    ensures |Filter(s, keep)| <= |s|
  {
    if s != [] { FilterSize(s[..|s| - 1], keep); }
  }

  /** Whether entry `k` comes back to the queue: the network failed, and a request was made for it. */
  predicate Fails(entries: seq<Entry>, items: seq<Item>, attempts: nat -> Attempt, k: nat)
    requires k < |entries|
  {
    attempts(k) == NetworkFailure && Requested(entries[k], items)
  }

  /** The requeued entries are the network failures, and nothing else. */
  lemma {:induction false} FailuresAre(store: Store, entries: seq<Entry>, items: seq<Item>, attempts: nat -> Attempt,
                                       now: int, x: Entry)
    ensures x in Replay(store, entries, items, attempts, now).failures <==>
            exists k :: 0 <= k < |entries| && entries[k] == x && Fails(entries, items, attempts, k)
  {
    if entries != [] {
      var n := |entries| - 1;
      var init, before := entries[..n], Replay(store, entries[..n], items, attempts, now).failures;
      FailuresAre(store, init, items, attempts, now, x);
      if x in before {
        var k :| 0 <= k < n && init[k] == x && Fails(init, items, attempts, k);
        assert Fails(entries, items, attempts, k) && entries[k] == x;
      }
      if VerdictOf(entries[n], items, attempts(n)) == Requeue { assert Fails(entries, items, attempts, n); }
      forall k | 0 <= k < |entries| && entries[k] == x && Fails(entries, items, attempts, k)
        ensures x in Replay(store, entries, items, attempts, now).failures
      {
        if k < n { assert init[k] == x && Fails(init, items, attempts, k); }
      }
    }
  }

  /** They keep their order: distinct items stay distinct. */
  lemma {:induction false} FailuresDistinct(store: Store, entries: seq<Entry>, items: seq<Item>,
                                            attempts: nat -> Attempt, now: int)
    requires OnePerItem(entries)
    ensures var f := Replay(store, entries, items, attempts, now).failures;
            OnePerItem(f) && forall i :: 0 <= i < |f| ==> f[i] in entries
  {
    if entries != [] {
      var n := |entries| - 1;
      FailuresDistinct(store, entries[..n], items, attempts, now);
      var before := Replay(store, entries[..n], items, attempts, now).failures;
      forall i | 0 <= i < |before| ensures before[i].itemId != entries[n].itemId && before[i] in entries {
        assert before[i] in entries[..n];
      }
    }
  }

  /** An item none of whose entries was answered keeps its local record. */
  lemma {:induction false} FailuresLeaveNoTrace(store: Store, entries: seq<Entry>, items: seq<Item>,
                                                attempts: nat -> Attempt, now: int, id: string)
    requires forall k :: 0 <= k < |entries| && entries[k].itemId == id ==> !attempts(k).Answered?
    ensures var after := Replay(store, entries, items, attempts, now).store;
            (id in after.records <==> id in store.records) &&
            (id in store.records ==> after.records[id] == store.records[id])
  {
    if entries != [] {
      var n := |entries| - 1;
      forall k | 0 <= k < n && entries[..n][k].itemId == id ensures !attempts(k).Answered? {
        assert entries[k].itemId == id;
      }
      FailuresLeaveNoTrace(store, entries[..n], items, attempts, now, id);
    }
  }

  /** The attempt flags nothing, or its answer names the item, or that was listed before, or there is no record to flag. */
  predicate KeepsFlags(store: Store, e: Entry, items: seq<Item>, attempt: Attempt) {
    || !Requested(e, items) || !attempt.Answered? || NamesItem(store, e.itemId, attempt.reply)
    || (e.kind == "delete" && e.itemId !in store.records)
  }

  lemma StepFlags(store: Store, e: Entry, items: seq<Item>, attempt: Attempt, now: int)
    requires FlagsListed(store)
    ensures FlagsListed(StoreAfter(store, e, items, attempt, now)) <==> KeepsFlags(store, e, items, attempt)
  {
    if Requested(e, items) && attempt.Answered? {
      if e.kind == "upsert" {
        UpsertFlags(store, FindItem(items, e.itemId).value, attempt.reply, now);
      } else {
        DeleteFlags(store, e.itemId, attempt.reply, now);
      }
    }
  }

  function StoreAt(store: Store, entries: seq<Entry>, items: seq<Item>, attempts: nat -> Attempt, now: int, k: nat): Store
    requires k <= |entries|
  {
    Replay(store, entries[..k], items, attempts, now).store
  }

  lemma StoreAtNext(store: Store, entries: seq<Entry>, items: seq<Item>, attempts: nat -> Attempt, now: int, k: nat)
    requires k < |entries|
    ensures StoreAt(store, entries, items, attempts, now, k + 1) ==
            StoreAfter(StoreAt(store, entries, items, attempts, now, k), entries[k], items, attempts(k), now)
  {
    assert entries[..k + 1][..k] == entries[..k];
  }

  /**
   * Over a whole replay, flags stay listed, after every entry of it, if and only if every attempt keeps them in the
   * store it finds: an answer with conflicts names its item, or one that was listed by then.
   */
  lemma {:induction false} ReplayKeepsFlags(store: Store, entries: seq<Entry>, items: seq<Item>,
                                            attempts: nat -> Attempt, now: int, n: nat)
    requires FlagsListed(store) && n <= |entries|
    ensures (forall k :: 0 <= k <= n ==> FlagsListed(StoreAt(store, entries, items, attempts, now, k))) <==>
            forall k :: 0 <= k < n ==>
              KeepsFlags(StoreAt(store, entries, items, attempts, now, k), entries[k], items, attempts(k))
    decreases n
  {
    if n > 0 {
      var before := StoreAt(store, entries, items, attempts, now, n - 1);
      ReplayKeepsFlags(store, entries, items, attempts, now, n - 1);
      StoreAtNext(store, entries, items, attempts, now, n - 1);
      if FlagsListed(before) { StepFlags(before, entries[n - 1], items, attempts(n - 1), now); }
    } else {
      assert entries[..0] == [];
    }
  }

  // ---------------------------------------------------------------------------
  // What an answer leaves, field by field
  // ---------------------------------------------------------------------------

  /** The revision given by the first of the conflicts that names the item; none if no conflict does. */
  predicate NamedAt(conflicts: seq<Conflict>, id: string, revision: Option<int>) {
    if forall k :: 0 <= k < |conflicts| ==> conflicts[k].itemId != id then revision == None
    else exists k :: 0 <= k < |conflicts| && FirstNaming(conflicts, id, k) && revision == Some(conflicts[k].serverItemRevision)
  }

  predicate FirstNaming(conflicts: seq<Conflict>, id: string, k: nat)
    requires k < |conflicts|
  {
    conflicts[k].itemId == id && forall j :: 0 <= j < k ==> conflicts[j].itemId != id
  }

  predicate FirstItem(items: seq<Item>, id: string, k: nat)
    requires k < |items|
  {
    items[k].id == id && forall j :: 0 <= j < k ==> items[j].id != id
  }

  lemma {:induction false} RevisionNamed(conflicts: seq<Conflict>, id: string)
    ensures NamedAt(conflicts, id, ConflictRevision(conflicts, id))
  {
    if conflicts != [] {
      if conflicts[0].itemId == id {
        assert FirstNaming(conflicts, id, 0);
      } else {
        var rest := conflicts[1..];
        RevisionNamed(rest, id);
        if k :| 0 <= k < |rest| && FirstNaming(rest, id, k) && ConflictRevision(rest, id) == Some(rest[k].serverItemRevision) {
          FirstShifts(conflicts, id, k);
        } else {
          forall k | 0 <= k < |conflicts| ensures conflicts[k].itemId != id {
            if k > 0 { assert conflicts[k] == rest[k - 1]; }
          }
        }
      }
    }
  }

  lemma FirstShifts(conflicts: seq<Conflict>, id: string, k: nat)
    requires k + 1 < |conflicts| && conflicts[0].itemId != id && FirstNaming(conflicts[1..], id, k)
    ensures FirstNaming(conflicts, id, k + 1)
  {
    forall j | 0 <= j < k + 1 ensures conflicts[j].itemId != id {
      if j > 0 { assert conflicts[j] == conflicts[1..][j - 1]; }
    }
  }

  lemma {:induction false} FindsFirst(items: seq<Item>, id: string, k: nat)
    requires k < |items| && FirstItem(items, id, k)
    ensures FindItem(items, id) == Some(items[k])
  {
    if k > 0 { FindsFirst(items[1..], id, k - 1); }
  }

  lemma {:induction false} FindsNone(items: seq<Item>, id: string)
    requires forall k :: 0 <= k < |items| ==> items[k].id != id
    ensures FindItem(items, id).None?
  {
    if items != [] { FindsNone(items[1..], id); }
  }

  /** The record an answered upsert of `item` leaves, when `held` is what the vault had for it. */
  predicate UpsertLeaves(held: Option<Stored>, item: Item, reply: Reply, now: int, r: Stored) {
    && r.cipher.body == item.body
    && r.cipher.createdAt == (if held.Some? then held.value.cipher.createdAt else now)
    && r.cipher.updatedAt == now && r.lastSyncedAt == now
    && r.cipher.revision == r.itemRevision
    && r.itemRevision == (if reply.conflicts == [] && item.id in reply.upserted then reply.serverRevision
                          else (if held.Some? then held.value.itemRevision else 0) + (if reply.conflicts == [] then 1 else 0))
    && (r.hasConflict <==> reply.conflicts != [])
    && NamedAt(reply.conflicts, item.id, r.conflictRevision)
  }

  /** What an answered delete leaves: nothing, or with conflicts the record as it was, marked. */
  predicate DeleteLeaves(held: Option<Stored>, id: string, reply: Reply, r: Option<Stored>) {
    if reply.conflicts == [] || held.None? then r == None
    else
      && r.Some? && r.value.cipher == held.value.cipher && r.value.itemRevision == held.value.itemRevision
      && r.value.lastSyncedAt == held.value.lastSyncedAt && r.value.hasConflict
      && NamedAt(reply.conflicts, id, r.value.conflictRevision)
  }

  function RecordOf(store: Store, id: string): Option<Stored> {
    if id in store.records then Some(store.records[id]) else None
  }

  /** The rest of the vault after any answer. */
  ghost predicate RestAfter(before: Store, id: string, reply: Reply, now: int, after: Store) {
    && (forall k :: k != id ==> RecordOf(after, k) == RecordOf(before, k))
    && (forall k :: k in after.conflictIds <==>
                    k in before.conflictIds || exists c :: c in reply.conflicts && c.itemId == k)
    && after.serverRevision == reply.serverRevision
    && after.lastSyncedAt == (if reply.conflicts == [] then Some(now) else before.lastSyncedAt)
  }

  /** An answered request changes the vault just so; an upsert whose plaintext is gone makes none. */
  lemma AnswerLeaves(store: Store, e: Entry, items: seq<Item>, reply: Reply, now: int)
    ensures var after := StoreAfter(store, e, items, Answered(reply), now);
            && (e.kind == "delete" ==>
                  && DeleteLeaves(RecordOf(store, e.itemId), e.itemId, reply, RecordOf(after, e.itemId))
                  && RestAfter(store, e.itemId, reply, now, after))
            && (e.kind == "upsert" ==> forall k :: 0 <= k < |items| && FirstItem(items, e.itemId, k) ==>
                  && e.itemId in after.records
                  && UpsertLeaves(RecordOf(store, e.itemId), items[k], reply, now, after.records[e.itemId])
                  && RestAfter(store, e.itemId, reply, now, after))
            && (e.kind == "upsert" && (forall k :: 0 <= k < |items| ==> items[k].id != e.itemId) ==> after == store)
            && (e.kind != "delete" && e.kind != "upsert" ==> after == store)
  {
    RevisionNamed(reply.conflicts, e.itemId);
    if forall k :: 0 <= k < |items| ==> items[k].id != e.itemId { FindsNone(items, e.itemId); }
    forall k | 0 <= k < |items| && FirstItem(items, e.itemId, k) ensures FindItem(items, e.itemId) == Some(items[k]) {
      FindsFirst(items, e.itemId, k);
    }
  }

  /** Entries of other items leave an item's record alone. */
  lemma {:induction false} OthersLeave(store: Store, entries: seq<Entry>, items: seq<Item>, attempts: nat -> Attempt,
                                       now: int, id: string)
    requires forall k :: 0 <= k < |entries| ==> entries[k].itemId != id
    ensures RecordOf(Replay(store, entries, items, attempts, now).store, id) == RecordOf(store, id)
  {
    if entries != [] { OthersLeave(store, entries[..|entries| - 1], items, attempts, now, id); }
  }

  /** The entry that decides an item's record. */
  lemma {:induction false} OneEntryDecides(store: Store, entries: seq<Entry>, items: seq<Item>, attempts: nat -> Attempt,
                                           now: int, k: nat)
    requires OnePerItem(entries) && k < |entries|
    ensures var id := entries[k].itemId;
            RecordOf(Replay(store, entries, items, attempts, now).store, id) ==
            RecordOf(StoreAfter(store, entries[k], items, attempts(k), now), id)
  {
    var n := |entries| - 1;
    var id, before := entries[k].itemId, Replay(store, entries[..n], items, attempts, now).store;
    if k < n {
      OneEntryDecides(store, entries[..n], items, attempts, now, k);
    } else {
      OthersLeave(store, entries[..n], items, attempts, now, id);
      SameRecordAfter(before, store, entries[n], items, attempts(n), now);
    }
  }

  /** What comes of an item depends on its own record only. */
  lemma SameRecordAfter(a: Store, b: Store, e: Entry, items: seq<Item>, attempt: Attempt, now: int)
    requires RecordOf(a, e.itemId) == RecordOf(b, e.itemId)
    ensures RecordOf(StoreAfter(a, e, items, attempt, now), e.itemId) == RecordOf(StoreAfter(b, e, items, attempt, now), e.itemId)
  {
    assert CurrentRevision(a, e.itemId) == CurrentRevision(b, e.itemId);
  }

  /**
   * After the whole replay of a proper queue, the record of an item whose request was answered is what that answer
   * leaves of the record the vault had before the replay, field by field.
   */
  lemma ReplayLeaves(store: Store, entries: seq<Entry>, items: seq<Item>, attempts: nat -> Attempt, now: int, k: nat, j: nat)
    requires OnePerItem(entries) && k < |entries| && attempts(k).Answered?
    ensures var id, reply := entries[k].itemId, attempts(k).reply;
            var r := RecordOf(Replay(store, entries, items, attempts, now).store, id);
            && (entries[k].kind == "delete" ==> DeleteLeaves(RecordOf(store, id), id, reply, r))
            && (entries[k].kind == "upsert" && j < |items| && FirstItem(items, id, j) ==>
                  r.Some? && UpsertLeaves(RecordOf(store, id), items[j], reply, now, r.value))
  {
    OneEntryDecides(store, entries, items, attempts, now, k);
    AnswerLeaves(store, entries[k], items, attempts(k).reply, now);
  }

  // ---------------------------------------------------------------------------
  // Putting the failures back
  // ---------------------------------------------------------------------------

  function EnqueuedAll(queue: seq<Entry>, entries: seq<Entry>, now: int): seq<Entry> {
    if entries == [] then queue
    else Enqueued(EnqueuedAll(queue, entries[..|entries| - 1], now), entries[|entries| - 1], now)
  }

  predicate AllActive(entries: seq<Entry>, now: int) {
    forall i :: 0 <= i < |entries| ==> Active(entries[i], now)
  }

  lemma EnqueueNew(queue: seq<Entry>, e: Entry, now: int)
    requires QueueOk(queue + [e]) && AllActive(queue, now)
    ensures Enqueued(queue, e, now) == queue + [e]
  {
    FilterAll(queue, ActiveAt(now));
    assert (queue + [e])[|queue|] == e;
    assert forall i :: 0 <= i < |queue| ==> (queue + [e])[i] == queue[i];
  }

  lemma QueueOkPrefix(queue: seq<Entry>, n: nat)
    requires QueueOk(queue) && n <= |queue|
    ensures QueueOk(queue[..n])
  {}

  /** Distinct active entries put into an empty queue are all there afterwards, in order. */
  lemma {:induction false} EnqueuedAllKeepsAll(entries: seq<Entry>, now: int)
    requires QueueOk(entries) && AllActive(entries, now)
    ensures EnqueuedAll([], entries, now) == entries
  {
    if entries != [] {
      var init, last := entries[..|entries| - 1], entries[|entries| - 1];
      assert entries == init + [last];
      QueueOkPrefix(entries, |init|);
      EnqueuedAllKeepsAll(init, now);
      EnqueueNew(init, last, now);
    }
  }

  /**
   * The whole replay, with the clock standing still: the queue is left holding exactly the network failures, in
   * their order.
   */
  lemma QueueIsFailures(queue: seq<Entry>, store: Store, items: seq<Item>, attempts: nat -> Attempt, now: int)
    requires QueueOk(queue)
    ensures var t := Replay(store, CleanExpired(queue, now), items, attempts, now);
            EnqueuedAll([], t.failures, now) == t.failures && QueueOk(t.failures)
  {
    var entries := CleanExpired(queue, now);
    var t := Replay(store, entries, items, attempts, now);
    CleanKeepsOnePerItem(queue, now);
    CleanIsShorter(queue, now);
    FilterIn(queue, ActiveAt(now));
    FailuresDistinct(store, entries, items, attempts, now);
    forall i | 0 <= i < |t.failures| ensures Active(t.failures[i], now) { assert t.failures[i] in entries; }
    EnqueuedAllKeepsAll(t.failures, now);
  }

  // ---------------------------------------------------------------------------
  // The application's state, updated in place
  // ---------------------------------------------------------------------------

  class Desktop {
    var stored: seq<Slot>
    var records: map<string, Stored>
    var conflictIds: set<string>
    var serverRevision: int
    var lastSyncedAt: Option<int>

    constructor (slots: seq<Slot>, store: Store)
      ensures stored == slots && Local() == store
    {
      stored, records, conflictIds := slots, store.records, store.conflictIds;
      serverRevision, lastSyncedAt := store.serverRevision, store.lastSyncedAt;
    }

    function Queue(): seq<Entry>
      reads this`stored
    {
      Entries(stored)
    }

    function Local(): Store
      reads this`records, this`conflictIds, this`serverRevision, this`lastSyncedAt
    {
      Store(records, conflictIds, serverRevision, lastSyncedAt)
    }

    /** `enqueueOfflineMutation`. */
    method Enqueue(e: Entry, now: int)
      modifies this`stored
      ensures Queue() == Enqueued(old(Queue()), e, now)
    {
      var queue := CleanExpired(Entries(stored), now);
      var existingIndex := IndexOf(queue, e.itemId);
      if existingIndex >= 0 { queue := queue[existingIndex := e]; } else { queue := queue + [e]; }
      ghost var placed := queue;
      while |queue| > MAX_QUEUE_SIZE
        invariant |placed| >= |queue| && queue == placed[|placed| - |queue|..]
        invariant |queue| >= MAX_QUEUE_SIZE || queue == placed
      {
        queue := queue[1..];
      }
      stored := Slots(queue);
      EntriesOfSlots(queue);
    }

    /** `dequeueOfflineMutations`. */
    method Dequeue(now: int) returns (active: seq<Entry>)
      modifies this`stored
      ensures active == CleanExpired(old(Queue()), now) && Queue() == []
    {
      active := CleanExpired(Entries(stored), now);
      stored := [];
    }

    method ApplyUpsert(item: Item, reply: Reply, now: int)
      modifies this`records, this`conflictIds, this`serverRevision, this`lastSyncedAt
      ensures Local() == Upserted(old(Local()), item, reply, now)
    {
      var current := if item.id in records then records[item.id].itemRevision else 0;
      var created := if item.id in records then records[item.id].cipher.createdAt else now;
      if |reply.conflicts| > 0 {
        conflictIds := conflictIds + ConflictItems(reply.conflicts);
        serverRevision := reply.serverRevision;
        records := records[item.id := Stored(Cipher(current, created, now, item.body), current, now, true,
                                             ConflictRevision(reply.conflicts, item.id))];
        return;
      }
      var revision := if item.id in reply.upserted then reply.serverRevision else current + 1;
      records := records[item.id := Stored(Cipher(revision, created, now, item.body), revision, now, false, None)];
      serverRevision := reply.serverRevision;
      lastSyncedAt := Some(now);
    }

    method ApplyDelete(id: string, reply: Reply, now: int)
      modifies this`records, this`conflictIds, this`serverRevision, this`lastSyncedAt
      ensures Local() == Deleted(old(Local()), id, reply, now)
    {
      if |reply.conflicts| > 0 {
        conflictIds := conflictIds + ConflictItems(reply.conflicts);
        serverRevision := reply.serverRevision;
        if id in records {
          records := records[id := records[id].(hasConflict := true,
                             conflictRevision := ConflictRevision(reply.conflicts, id))];
        }
        return;
      }
      records := records - {id};
      serverRevision := reply.serverRevision;
      lastSyncedAt := Some(now);
    }

    /** One turn of the replay loop. */
    method ReplayEntry(e: Entry, items: seq<Item>, attempt: Attempt, now: int) returns (verdict: Verdict)
      modifies this`records, this`conflictIds, this`serverRevision, this`lastSyncedAt
      ensures Local() == StoreAfter(old(Local()), e, items, attempt, now)
      ensures verdict == VerdictOf(e, items, attempt)
    {
      if e.kind == "upsert" {
        var item := FindItem(items, e.itemId);
        if item.None? { return Processed; }
        if attempt.Answered? { ApplyUpsert(item.value, attempt.reply, now); }
      } else if e.kind == "delete" {
        if attempt.Answered? { ApplyDelete(e.itemId, attempt.reply, now); }
      } else {
        return Uncounted;
      }
      verdict := if attempt.NetworkFailure? then Requeue else Processed;
    }

    /** The loop over the dequeued entries. */
    method ReplayAll(entries: seq<Entry>, items: seq<Item>, attempts: nat -> Attempt, now: int)
      returns (processed: nat, networkFailures: seq<Entry>)
      modifies this`records, this`conflictIds, this`serverRevision, this`lastSyncedAt
      ensures Tally(Local(), processed, networkFailures) == Replay(old(Local()), entries, items, attempts, now)
    {
      processed, networkFailures := 0, [];
      for k := 0 to |entries|
        invariant Tally(Local(), processed, networkFailures) == Replay(old(Local()), entries[..k], items, attempts, now)
      {
        assert entries[..k + 1][..k] == entries[..k];
        var verdict := ReplayEntry(entries[k], items, attempts(k), now);
        if verdict == Processed { processed := processed + 1; }
        if verdict == Requeue { networkFailures := networkFailures + [entries[k]]; }
      }
      assert entries[..|entries|] == entries;
    }

    method EnqueueAll(entries: seq<Entry>, now: int) returns (requeued: nat)
      modifies this`stored
      ensures Queue() == EnqueuedAll(old(Queue()), entries, now) && requeued == |entries|
    {
      requeued := 0;
      for k := 0 to |entries|
        invariant Queue() == EnqueuedAll(old(Queue()), entries[..k], now) && requeued == k
      {
        assert entries[..k + 1][..k] == entries[..k];
        Enqueue(entries[k], now);
        requeued := requeued + 1;
      }
      assert entries[..|entries|] == entries;
    }

    /**
     * `pushOfflineQueue` on an unlocked vault with a client. The two counts cover every dequeued entry of a known
     * kind once; a proper queue is left holding exactly the network failures.
     */
    method PushOfflineQueue(items: seq<Item>, attempts: nat -> Attempt, now: int) returns (processed: nat, requeued: nat)
      modifies this
      ensures var t := Replay(old(Local()), CleanExpired(old(Queue()), now), items, attempts, now);
              && Local() == t.store && processed == t.processed && requeued == |t.failures|
              && Queue() == EnqueuedAll([], t.failures, now)
              && (QueueOk(old(Queue())) ==> Queue() == t.failures && QueueOk(Queue()))
      ensures processed + requeued == |Filter(CleanExpired(old(Queue()), now), Known)|
    {
      ghost var queue, store := Queue(), Local();
      var entries := Dequeue(now);
      var networkFailures;
      processed, networkFailures := ReplayAll(entries, items, attempts, now);
      requeued := EnqueueAll(networkFailures, now);
      ReplayCounts(store, entries, items, attempts, now);
      if QueueOk(queue) { QueueIsFailures(queue, store, items, attempts, now); }
    }
  }
}
