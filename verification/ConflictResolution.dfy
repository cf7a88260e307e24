/** Settling one conflict by hand: keep the local item, take the remote one, or keep both. */
module ConflictResolution {
  import opened Seqs
  import opened Records
  import opened ItemSync
  import opened PlanLaws
  import opened PushReplies
  import opened Pull
  import opened PlanFields

  datatype Choice = KeepLocal | TakeRemote | KeepCopy

  /** The id and the clock readings given to a copy. */
  datatype CopyStamp = CopyStamp(id: string, createdAt: string, updatedAt: string)

  const COPY_SUFFIX := "（副本）"

  datatype Resolved = Resolved(st: SyncState, items: seq<Item>) | Refused(fault: Fault)

  // ---------------------------------------------------------------------------
  // Looking up the remote side
  // ---------------------------------------------------------------------------

  /** The last change of the feed that is about `id`. */
  function LastChange(changes: seq<Change>, id: string): Option<Change> {
    if changes == [] then None
    else if changes[|changes| - 1].Id() == id then Some(changes[|changes| - 1])
    else LastChange(changes[..|changes| - 1], id)
  }

  lemma {:induction false} LastChangeConcat(a: seq<Change>, b: seq<Change>, id: string)
    ensures LastChange(a + b, id) == if LastChange(b, id).Some? then LastChange(b, id) else LastChange(a, id)
  {
    if b == [] {
      assert a + b == a;
    } else {
      LastChangeConcat(a, b[..|b| - 1], id);
      assert (a + b)[..|a + b| - 1] == a + b[..|b| - 1];
    }
  }

  /** Where the last change sits, if there is one. */
  lemma {:induction false} LastChangeIsLast(changes: seq<Change>, id: string)
    ensures LastChange(changes, id) == None <==> forall c :: c in changes ==> c.Id() != id
    ensures LastChange(changes, id).Some? ==>
              exists i :: 0 <= i < |changes| && changes[i] == LastChange(changes, id).value && changes[i].Id() == id
                && forall j :: i < j < |changes| ==> changes[j].Id() != id
  {
    if changes != [] {
      var n := |changes| - 1;
      LastChangeIsLast(changes[..n], id);
      assert changes == changes[..n] + [changes[n]];
      if changes[n].Id() != id && LastChange(changes[..n], id).Some? {
        var i :| 0 <= i < n && changes[..n][i] == LastChange(changes[..n], id).value && changes[..n][i].Id() == id
          && forall j :: i < j < n ==> changes[..n][j].Id() != id;
        assert forall j :: i < j < n ==> changes[j] == changes[..n][j];
        assert changes[i] == LastChange(changes, id).value;
      }
    }
  }

  /** How a scan of the whole feed, from cursor zero, comes out. */
  datatype Scan = Found(remote: Option<Change>) | Broken(fault: Fault)

  ghost function ScanFrom(cursor: int, pages: seq<PullReply>, read: nat, id: string, remote: Option<Change>): Scan
    requires read < MAX_PAGES
    decreases |pages|
  {
    if pages == [] then Broken(NoAnswer)
    else if pages[0].cursor < cursor || (pages[0].hasMore && pages[0].cursor <= cursor) then Broken(CursorInvalid)
    else
      var latest := LastChange(pages[0].changes, id);
      var now := if latest.Some? then latest else remote;
      if !pages[0].hasMore then Found(now)
      else if read + 1 == MAX_PAGES then Broken(PageLimit)
      else ScanFrom(pages[0].cursor, pages[1..], read + 1, id, now)
  }

  /** The first `n` pages are a whole feed: each but the last has more and a later cursor, and the limit is kept. */
  ghost predicate WholeFeed(cursor: int, pages: seq<PullReply>, read: nat, n: nat) {
    && 0 < n <= |pages| && read + n <= MAX_PAGES && !pages[n - 1].hasMore
    && (forall k :: 0 <= k < n - 1 ==> pages[k].hasMore && CursorBefore(cursor, pages, k) < pages[k].cursor)
    && CursorBefore(cursor, pages, n - 1) <= pages[n - 1].cursor
  }

  function CursorBefore(cursor: int, pages: seq<PullReply>, k: nat): int
    requires k < |pages|
  {
    if k == 0 then cursor else pages[k - 1].cursor
  }

  /** Beyond its first page a whole feed is a whole feed. */
  lemma WholeFeedTail(cursor: int, pages: seq<PullReply>, read: nat, n: nat)
    requires 0 < n < |pages| && pages[0].hasMore && cursor < pages[0].cursor
    ensures WholeFeed(cursor, pages, read, n + 1) <==> WholeFeed(pages[0].cursor, pages[1..], read + 1, n)
  {
    var rest := pages[1..];
    forall k | 0 <= k < n
      ensures rest[k] == pages[k + 1] && CursorBefore(pages[0].cursor, rest, k) == CursorBefore(cursor, pages, k + 1)
    {}
    if WholeFeed(cursor, pages, read, n + 1) {
      forall k | 0 <= k < n - 1 ensures rest[k].hasMore && CursorBefore(pages[0].cursor, rest, k) < rest[k].cursor {
        assert pages[k + 1].hasMore;
      }
    }
    if WholeFeed(pages[0].cursor, rest, read + 1, n) {
      forall k | 0 <= k < n ensures pages[k].hasMore && CursorBefore(cursor, pages, k) < pages[k].cursor {
        if k > 0 { assert rest[k - 1].hasMore; }
      }
    }
  }

  lemma WholeFeedFirst(cursor: int, pages: seq<PullReply>, read: nat, n: nat)
    requires WholeFeed(cursor, pages, read, n)
    ensures n == 1 <==> !pages[0].hasMore
    ensures cursor <= pages[0].cursor
    ensures n > 1 ==> cursor < pages[0].cursor && WholeFeed(pages[0].cursor, pages[1..], read + 1, n - 1)
  {
    if n > 1 {
      assert pages[0].hasMore;
      WholeFeedTail(cursor, pages, read, n - 1);
    }
  }

  ghost predicate NotWhole(cursor: int, pages: seq<PullReply>, read: nat) {
    forall n: nat :: !WholeFeed(cursor, pages, read, n)
  }

  lemma TailNotWhole(cursor: int, pages: seq<PullReply>, read: nat)
    requires pages != [] && pages[0].hasMore && NotWhole(pages[0].cursor, pages[1..], read + 1)
    ensures NotWhole(cursor, pages, read)
  {
    forall n: nat ensures !WholeFeed(cursor, pages, read, n) {
      if WholeFeed(cursor, pages, read, n) { WholeFeedFirst(cursor, pages, read, n); }
    }
  }

  lemma FirstNotWhole(cursor: int, pages: seq<PullReply>, read: nat)
    requires pages != [] ==> pages[0].cursor < cursor || (pages[0].hasMore && (pages[0].cursor <= cursor || read + 1 >= MAX_PAGES))
    ensures NotWhole(cursor, pages, read)
  {
    forall n: nat ensures !WholeFeed(cursor, pages, read, n) {
      if WholeFeed(cursor, pages, read, n) { WholeFeedFirst(cursor, pages, read, n); }
    }
  }

  ghost predicate ScanIs(s: Scan, cursor: int, pages: seq<PullReply>, read: nat, n: nat, id: string, remote: Option<Change>) {
    && s.Found? && WholeFeed(cursor, pages, read, n)
    && s.remote == (var last := LastChange(AllChanges(pages[..n]), id); if last.Some? then last else remote)
  }

  /** The change found beyond the first page is the one found in all. */
  lemma ScanNext(s: Scan, cursor: int, pages: seq<PullReply>, read: nat, n: nat, id: string, remote: Option<Change>)
    requires pages != [] && pages[0].hasMore && cursor < pages[0].cursor
    requires var now := LastChange(pages[0].changes, id);
             ScanIs(s, pages[0].cursor, pages[1..], read + 1, n, id, if now.Some? then now else remote)
    ensures ScanIs(s, cursor, pages, read, n + 1, id, remote)
  {
    WholeFeedTail(cursor, pages, read, n);
    assert pages[..n + 1][1..] == pages[1..][..n];
    LastChangeConcat(pages[0].changes, AllChanges(pages[1..][..n]), id);
  }

  /** A scan finds the last change of the feed it read, and comes through if and only if that feed is whole. */
  lemma {:induction false} ScanFinds(cursor: int, pages: seq<PullReply>, read: nat, id: string, remote: Option<Change>)
    returns (n: nat)
    requires read < MAX_PAGES
    ensures var s := ScanFrom(cursor, pages, read, id, remote);
            if s.Found? then ScanIs(s, cursor, pages, read, n, id, remote) else NotWhole(cursor, pages, read)
    decreases |pages|
  {
    n := 0;
    if pages != [] && pages[0].hasMore && cursor < pages[0].cursor && read + 1 < MAX_PAGES {
      var now := LastChange(pages[0].changes, id);
      var next := if now.Some? then now else remote;
      n := ScanFinds(pages[0].cursor, pages[1..], read + 1, id, next);
      var s := ScanFrom(pages[0].cursor, pages[1..], read + 1, id, next);
      if s.Found? {
        ScanNext(s, cursor, pages, read, n, id, remote);
        n := n + 1;
      } else {
        TailNotWhole(cursor, pages, read);
      }
    } else if pages != [] && !pages[0].hasMore && cursor <= pages[0].cursor {
      SinglePage(pages);
      n := 1;
    } else {
      FirstNotWhole(cursor, pages, read);
    }
  }

  /** The first `n` pages each have more and a later cursor. */
  ghost predicate Advancing(cursor: int, pages: seq<PullReply>, n: nat) {
    n <= |pages| && forall k :: 0 <= k < n ==> pages[k].hasMore && CursorBefore(cursor, pages, k) < pages[k].cursor
  }

  lemma AdvancingNext(cursor: int, pages: seq<PullReply>, n: nat)
    requires pages != [] && pages[0].hasMore && cursor < pages[0].cursor && Advancing(pages[0].cursor, pages[1..], n)
    ensures Advancing(cursor, pages, n + 1)
    ensures n < |pages| - 1 ==> CursorBefore(cursor, pages, n + 1) == CursorBefore(pages[0].cursor, pages[1..], n)
  {
    var rest := pages[1..];
    forall k | 0 <= k < n + 1 ensures pages[k].hasMore && CursorBefore(cursor, pages, k) < pages[k].cursor {
      if k > 0 { assert rest[k - 1].hasMore && pages[k] == rest[k - 1]; }
    }
  }

  /** Why a scan does not come through: the answers ran out, too many pages, or the first page whose cursor stands or falls back. */
  lemma {:induction false} ScanStops(cursor: int, pages: seq<PullReply>, read: nat, id: string, remote: Option<Change>)
    returns (n: nat)
    requires read < MAX_PAGES
    ensures var s := ScanFrom(cursor, pages, read, id, remote);
            s.Broken? ==>
              && Advancing(cursor, pages, n)
              && match s.fault
                 case NoAnswer => n == |pages|
                 case PageLimit => read + n == 1000
                 case CursorInvalid =>
                   n < |pages| && (pages[n].cursor < CursorBefore(cursor, pages, n) ||
                                   (pages[n].hasMore && pages[n].cursor == CursorBefore(cursor, pages, n)))
                 case _ => false
    decreases |pages|
  {
    n := 0;
    if pages != [] && pages[0].hasMore && cursor < pages[0].cursor {
      if read + 1 < MAX_PAGES {
        var now := LastChange(pages[0].changes, id);
        n := ScanStops(pages[0].cursor, pages[1..], read + 1, id, if now.Some? then now else remote);
        if ScanFrom(cursor, pages, read, id, remote).Broken? { AdvancingNext(cursor, pages, n); }
      }
      n := n + 1;
    }
  }

  // ---------------------------------------------------------------------------
  // Settling it
  // ---------------------------------------------------------------------------

  function FindItem(items: seq<Item>, id: string): Option<Item> {
    if items == [] then None
    else if items[0].id == id then Some(items[0])
    else FindItem(items[1..], id)
  }

  function CopyOf(local: Item, stamp: CopyStamp): Item {
    local.(id := stamp.id, title := local.title + COPY_SUFFIX, createdAt := stamp.createdAt, updatedAt := stamp.updatedAt)
  }

  function Without(items: seq<Item>, id: string): seq<Item> {
    Filter(items, (x: Item) => x.id != id)
  }

  function Resolve(st: SyncState, userId: string, items: seq<Item>, id: string, choice: Choice,
                   remote: Option<Change>, stamp: CopyStamp): Resolved {
    var local := FindItem(items, id);
    var copied := if choice == KeepCopy && local.Some? then items + [CopyOf(local.value, stamp)] else items;
    var isUpsert := remote.Some? && remote.value.Changed?;
    var settled := st.(pending := st.pending.Drop(id), conflicts := Filter(st.conflicts, k => k != id),
                       revisions := if remote.Some? && (choice == KeepLocal || isUpsert)
                                    then st.revisions.Put(id, remote.value.Revision()) else st.revisions.Drop(id));
    if choice == KeepLocal then Resolved(settled.(timestamps := st.timestamps.Drop(id)), copied)
    else if !isUpsert then Resolved(settled.(timestamps := st.timestamps.Drop(id)), Without(copied, id))
    else if remote.value.item.ownerUserId != userId then Refused(OwnerMismatch)
    else
      match Decrypt(remote.value.item.envelope, id)
      case None => Refused(DecryptFailed)
      case Some(item) =>
        Resolved(settled.(timestamps := st.timestamps.Put(id, item.updatedAt)), Without(copied, id) + [item])
  }

  /** What the next push does about the id whose conflict was resolved. */
  ghost predicate NextPushFollows(choice: Choice, id: string, local: Option<Item>, remote: Option<Change>,
                                  st: SyncState, items: seq<Item>) {
    && id !in st.conflicts
    && match choice
       case KeepLocal =>
         if local.Some? then
           && PutItem(local.value) in WorkList(st, items)
           && !st.pending.Has(id)
           && st.revisions.Get(id) == if remote.Some? then Some(remote.value.Revision()) else None
         else if remote.Some? then
           && DropId(id) in WorkList(st, items) && !st.pending.Has(id)
           && st.revisions.Get(id) == Some(remote.value.Revision())
         else
           forall t :: t in WorkList(st, items) ==> t.Id() != id
       case _ =>
         && (forall t :: t in WorkList(st, items) ==> t.Id() != id)
         && (if remote.Some? && remote.value.Changed?
             then exists item :: (
               && Decrypt(remote.value.item.envelope, id) == Some(item) && item in items
               && st.revisions.Get(id) == Some(remote.value.item.revision)
               && st.timestamps.Get(id) == Some(item.updatedAt))
             else id !in ItemIds(items) && !st.revisions.Has(id) && !st.timestamps.Has(id))
  }

  /** ... and about the copy that kept the local fields. */
  ghost predicate CopyIsPushed(local: Item, stamp: CopyStamp, st: SyncState, items: seq<Item>) {
    && !st.revisions.Has(stamp.id) && !st.pending.Has(stamp.id)
    && exists copy :: copy in items && IsCopy(local, stamp, copy) && PutItem(copy) in WorkList(st, items)
  }

  /** The content of the local item under the given id, its title marked, as if written at the given times. */
  predicate IsCopy(local: Item, stamp: CopyStamp, copy: Item) {
    && copy.id == stamp.id && copy.title == local.title + "（副本）" && copy.body == local.body
    && copy.createdAt == stamp.createdAt && copy.updatedAt == stamp.updatedAt
  }

  ghost predicate UnusedId(st: SyncState, items: seq<Item>, id: string) {
    && id !in ItemIds(items) && !st.revisions.Has(id) && !st.timestamps.Has(id) && !st.pending.Has(id) && id !in st.conflicts
  }

  lemma {:induction false} FindItemFinds(items: seq<Item>, id: string)
    ensures FindItem(items, id).Some? ==> FindItem(items, id).value in items && FindItem(items, id).value.id == id
    ensures FindItem(items, id).None? <==> id !in ItemIds(items)
  {
    if items != [] {
      FindItemFinds(items[1..], id);
      assert ItemIds(items) == [items[0].id] + ItemIds(items[1..]);
    }
  }

  lemma ResolvedItems(items: seq<Item>, id: string, extra: seq<Item>)
    requires UniqueIds(items + extra)
    ensures UniqueIds(Without(items + extra, id))
    ensures forall x :: x in Without(items + extra, id) <==> (x in items || x in extra) && x.id != id
  {
    DirtyDistinct(items + extra, (x: Item) => x.id != id);
    FilterIn(items + extra, (x: Item) => x.id != id);
  }

  lemma CopiedUnique(items: seq<Item>, local: Item, stamp: CopyStamp)
    requires UniqueIds(items) && stamp.id !in ItemIds(items)
    ensures UniqueIds(items + [CopyOf(local, stamp)])
  {
    forall i | 0 <= i < |items| ensures items[i].id != stamp.id {
      assert ItemIds(items)[i] == items[i].id;
    }
  }

  /** The items of the vault after a resolution. */
  ghost predicate HoldsAfter(items: seq<Item>, id: string, choice: Choice, remote: Option<Change>, stamp: CopyStamp, x: Item) {
    || (x in items && (x.id != id || choice == KeepLocal))
    || (choice == KeepCopy && FindItem(items, id).Some? && IsCopy(FindItem(items, id).value, stamp, x))
    || (choice != KeepLocal && remote.Some? && remote.value.Changed? && Decrypt(remote.value.item.envelope, id) == Some(x))
  }

  lemma AppendUnique(items: seq<Item>, item: Item)
    requires UniqueIds(items) && forall x :: x in items ==> x.id != item.id
    ensures UniqueIds(items + [item])
  {}

  lemma ResolvedVault(st: SyncState, userId: string, items: seq<Item>, id: string, choice: Choice,
                      remote: Option<Change>, stamp: CopyStamp)
    requires UniqueIds(items) && stamp.id !in ItemIds(items) && stamp.id != id
    ensures var r := Resolve(st, userId, items, id, choice, remote, stamp);
            r.Resolved? ==>
              UniqueIds(r.items) && forall x :: x in r.items <==> HoldsAfter(items, id, choice, remote, stamp, x)
  {
    var r := Resolve(st, userId, items, id, choice, remote, stamp);
    if r.Resolved? && choice != KeepLocal {
      var extra := Copies(items, id, choice, stamp);
      CopiesUnique(items, id, choice, stamp);
      ResolvedItems(items, id, extra);
      if remote.Some? && remote.value.Changed? {
        AppendUnique(Without(items + extra, id), Decrypt(remote.value.item.envelope, id).value);
      }
    }
  }

  /** Where things stand: the items that stay are in front, in their order; the copy comes next, the remote item last. */
  lemma ResolvedOrder(st: SyncState, userId: string, items: seq<Item>, id: string, choice: Choice,
                      remote: Option<Change>, stamp: CopyStamp)
    requires stamp.id != id
    ensures var r, local := Resolve(st, userId, items, id, choice, remote, stamp), FindItem(items, id);
            var kept := if choice == KeepLocal then items else Without(items, id);
            var copies, taken := if choice == KeepCopy && local.Some? then 1 else 0,
                                 if choice != KeepLocal && remote.Some? && remote.value.Changed? then 1 else 0;
            r.Resolved? ==>
              && kept <= r.items && |r.items| == |kept| + copies + taken
              && (copies == 1 ==> IsCopy(local.value, stamp, r.items[|kept|]))
              && (taken == 1 ==> Some(r.items[|r.items| - 1]) == Decrypt(remote.value.item.envelope, id))
  {
    var local := FindItem(items, id);
    if choice == KeepCopy && local.Some? {
      var copy := CopyOf(local.value, stamp);
      FilterConcat(items, [copy], (x: Item) => x.id != id);
      FilterAll([copy], (x: Item) => x.id != id);
      assert Without(items + [copy], id) == Without(items, id) + [copy];
    }
  }

  /** The copy that a resolution adds, if it adds one. */
  function Copies(items: seq<Item>, id: string, choice: Choice, stamp: CopyStamp): seq<Item> {
    var local := FindItem(items, id);
    if choice == KeepCopy && local.Some? then [CopyOf(local.value, stamp)] else []
  }

  lemma CopiesUnique(items: seq<Item>, id: string, choice: Choice, stamp: CopyStamp)
    requires UniqueIds(items) && stamp.id !in ItemIds(items)
    ensures UniqueIds(items + Copies(items, id, choice, stamp))
    ensures Copies(items, id, choice, stamp) == [] ==> items + Copies(items, id, choice, stamp) == items
  {
    var local := FindItem(items, id);
    if local.Some? { CopiedUnique(items, local.value, stamp); }
    assert items + [] == items;
  }

  lemma DropPendingOk(pending: Record<Pending>, id: string, rng: Entropy, pos: nat)
    requires PendingOk(pending, rng, pos) && pending.Valid()
    ensures PendingOk(pending.Drop(id), rng, pos) && pending.Drop(id).Valid()
  {
    DropValid(pending, id);
    var at' := pending.Drop(id).at;
    forall j, k | j in at' && k in at' && j != k ensures at'[j].clientMutationId != at'[k].clientMutationId {}
  }

  /** The sync state after a resolution: the id is settled, every other id is as it was. */
  ghost predicate OthersKept(st: SyncState, st': SyncState, id: string) {
    forall k :: k != id ==>
      && st'.revisions.Get(k) == st.revisions.Get(k)
      && st'.timestamps.Get(k) == st.timestamps.Get(k)
      && st'.pending.Get(k) == st.pending.Get(k)
      && (k in st'.conflicts <==> k in st.conflicts)
  }

  lemma ResolvedOthers(st: SyncState, userId: string, items: seq<Item>, id: string, choice: Choice,
                       remote: Option<Change>, stamp: CopyStamp)
    ensures var r := Resolve(st, userId, items, id, choice, remote, stamp);
            r.Resolved? ==> OthersKept(st, r.st, id) && id !in r.st.conflicts && !r.st.pending.Has(id)
  {
    FilterIn(st.conflicts, k => k != id);
  }

  lemma ResolvedState(st: SyncState, userId: string, items: seq<Item>, id: string, choice: Choice,
                      remote: Option<Change>, stamp: CopyStamp, rng: Entropy, pos: nat)
    requires StateOk(st, rng, pos)
    requires remote.Some? ==> 0 <= remote.value.Revision()
    ensures var r := Resolve(st, userId, items, id, choice, remote, stamp);
            r.Resolved? ==> StateOk(r.st, rng, pos)
  {
    var r := Resolve(st, userId, items, id, choice, remote, stamp);
    if r.Resolved? {
      SettledIdOk(st, r.st, id, if remote.Some? then remote.value.Revision() else 0,
                  if r.st.timestamps.Has(id) then r.st.timestamps.at[id] else "", rng, pos);
    }
  }

  lemma SettledIdOk(st: SyncState, st': SyncState, id: string, revision: int, stamp: string, rng: Entropy, pos: nat)
    requires StateOk(st, rng, pos) && 0 <= revision
    requires st'.pending == st.pending.Drop(id)
    requires st'.revisions == st.revisions.Drop(id) || st'.revisions == st.revisions.Put(id, revision)
    requires st'.timestamps == st.timestamps.Drop(id) || st'.timestamps == st.timestamps.Put(id, stamp)
    ensures StateOk(st', rng, pos)
  {
    DropValid(st.revisions, id);
    DropValid(st.timestamps, id);
    DropPendingOk(st.pending, id, rng, pos);
  }

  /**
   * A resolution fixes the next push. Keeping the local item makes it eligible against the last
   * revision in the feed, as an upsert, or as a delete if it is gone locally and the feed knows it.
   * Taking the remote side leaves nothing to send for the id. A copy also sends the old local fields
   * under a new id, against revision zero. Every other item, what is recorded of it and the work on it are untouched.
   */
  lemma ResolutionFixesNextPush(st: SyncState, userId: string, items: seq<Item>, id: string, choice: Choice,
                                remote: Option<Change>, stamp: CopyStamp, rng: Entropy, pos: nat)
    requires StateOk(st, rng, pos) && UniqueIds(items)
    requires UnusedId(st, items, stamp.id) && stamp.id != id
    requires remote.Some? ==> remote.value.Id() == id && 0 <= remote.value.Revision()
    ensures var r, local := Resolve(st, userId, items, id, choice, remote, stamp), FindItem(items, id);
            r.Resolved? ==>
              && StateOk(r.st, rng, pos) && UniqueIds(r.items)
              && (if local.Some? then local.value in items && local.value.id == id else id !in ItemIds(items))
              && (forall x :: x in r.items <==> HoldsAfter(items, id, choice, remote, stamp, x))
              && OthersKept(st, r.st, id) && r.st.cursor == st.cursor && r.st.serverRevision == st.serverRevision
              && NextPushFollows(choice, id, local, remote, r.st, r.items)
              && (choice == KeepCopy && local.Some? ==> CopyIsPushed(local.value, stamp, r.st, r.items))
              && forall t: Task :: t.Id() != id && t.Id() != stamp.id ==> (t in WorkList(r.st, r.items) <==> t in WorkList(st, items))
  {
    var r, local := Resolve(st, userId, items, id, choice, remote, stamp), FindItem(items, id);
    FindItemFinds(items, id);
    if r.Resolved? {
      ResolvedVault(st, userId, items, id, choice, remote, stamp);
      ResolvedState(st, userId, items, id, choice, remote, stamp, rng, pos);
      ResolvedOthers(st, userId, items, id, choice, remote, stamp);
      OtherWorkKept(st, items, r.st, r.items, id, stamp.id);
      ResolvedIdWork(st, userId, items, id, choice, remote, stamp);
      if choice == KeepCopy && local.Some? {
        CopyWork(st, items, r.st, r.items, local.value, id, stamp);
      }
    }
  }

  /**
   * What is then sent for the id, field by field. After "local": the local item, sealed again and based on the last
   * revision of the feed, or a delete based on it. For a copy: its content, as a new item.
   */
  lemma ResolutionSends(st: SyncState, userId: string, items: seq<Item>, id: string, choice: Choice,
                        remote: Option<Change>, stamp: CopyStamp, rng: Entropy, pos: nat, i: nat)
    requires StateOk(st, rng, pos) && UniqueIds(items)
    requires UnusedId(st, items, stamp.id) && stamp.id != id
    requires remote.Some? ==> remote.value.Id() == id && 0 <= remote.value.Revision()
    requires var r := Resolve(st, userId, items, id, choice, remote, stamp);
             r.Resolved? && StateOk(r.st, rng, pos) && UniqueIds(r.items) && i < |BuildPlan(r.st, userId, r.items, rng, pos).ops|
    ensures var r, local := Resolve(st, userId, items, id, choice, remote, stamp), FindItem(items, id);
            var op := BuildPlan(r.st, userId, r.items, rng, pos).ops[i];
            && (op.id == id ==>
                  && choice == KeepLocal && op.ownerUserId == userId
                  && op.baseItemRevision == (if remote.Some? then remote.value.Revision() else 0)
                  && (local.Some? ==> op.Upsert? && Decrypt(op.envelope, id) == local)
                  && (local.None? ==> op.Delete? && remote.Some?))
            && (op.id == stamp.id ==>
                  && choice == KeepCopy && local.Some? && op.Upsert? && op.baseItemRevision == 0
                  && Decrypt(op.envelope, stamp.id).Some? && IsCopy(local.value, stamp, Decrypt(op.envelope, stamp.id).value))
  {
    var r, local := Resolve(st, userId, items, id, choice, remote, stamp), FindItem(items, id);
    ResolutionFixesNextPush(st, userId, items, id, choice, remote, stamp, rng, pos);
    PlanSize(r.st, userId, r.items, rng, pos);
    var t := WorkList(r.st, r.items)[i];
    assert t in WorkList(r.st, r.items);
    FreshOpIs(r.st, userId, r.items, rng, pos, i);
    if t.Id() == id {
      IdIsSent(r.st, r.items, items, id, choice, local, remote, t);
    } else if t.Id() == stamp.id {
      CopyIsSent(st, items, r.st, r.items, id, choice, remote, stamp, t);
    }
  }

  /** What is sent for an id with nothing pending. */
  lemma FreshOpIs(st: SyncState, userId: string, items: seq<Item>, rng: Entropy, pos: nat, i: nat)
    requires StateOk(st, rng, pos) && UniqueIds(items) && i < |BuildPlan(st, userId, items, rng, pos).ops| <= |WorkList(st, items)|
    ensures var op, t := BuildPlan(st, userId, items, rng, pos).ops[i], WorkList(st, items)[i];
            && op.id == t.Id()
            && (!st.pending.Has(t.Id()) ==>
                  && op.ownerUserId == userId && op.baseItemRevision == st.revisions.Get(t.Id()).Or(0)
                  && (t.PutItem? ==> op.Upsert? && Decrypt(op.envelope, t.Id()) == Some(t.item))
                  && (t.DropId? ==> op.Delete?))
  {
    PlannedFields(st, userId, items, rng, pos, i);
  }

  lemma IdIsSent(st: SyncState, after: seq<Item>, items: seq<Item>, id: string, choice: Choice, local: Option<Item>,
                 remote: Option<Change>, t: Task)
    requires UniqueIds(after) && NextPushFollows(choice, id, local, remote, st, after)
    requires t in WorkList(st, after) && t.Id() == id && WellFormed(st)
    requires local.Some? ==> local.value.id == id
    ensures choice == KeepLocal && !st.pending.Has(id)
    ensures st.revisions.Get(id) == if remote.Some? then Some(remote.value.Revision()) else None
    ensures if local.Some? then t == PutItem(local.value) else t == DropId(id) && remote.Some?
  {
    OneTask(st, after, t, if local.Some? then PutItem(local.value) else DropId(id));
  }

  /** The work list has one task for an id. */
  lemma OneTask(st: SyncState, items: seq<Item>, s: Task, t: Task)
    requires WellFormed(st) && UniqueIds(items) && s in WorkList(st, items) && t in WorkList(st, items) && s.Id() == t.Id()
    ensures s == t
  {
    WorkListDistinct(st, items);
    var w := WorkList(st, items);
    var i :| 0 <= i < |w| && w[i] == s;
    var j :| 0 <= j < |w| && w[j] == t;
    assert TaskIds(w)[i] == TaskIds(w)[j];
  }

  lemma CopyIsSent(st: SyncState, items: seq<Item>, st': SyncState, after: seq<Item>, id: string, choice: Choice,
                   remote: Option<Change>, stamp: CopyStamp, t: Task)
    requires UnusedId(st, items, stamp.id) && stamp.id != id && OthersKept(st, st', id) && WellFormed(st')
    requires forall x :: x in after <==> HoldsAfter(items, id, choice, remote, stamp, x)
    requires t in WorkList(st', after) && t.Id() == stamp.id
    ensures choice == KeepCopy && FindItem(items, id).Some? && t.PutItem? && IsCopy(FindItem(items, id).value, stamp, t.item)
    ensures !st'.pending.Has(stamp.id) && !st'.revisions.Has(stamp.id)
  {
    WorkListMembers(st', after);
    if t.PutItem? {
      assert HoldsAfter(items, id, choice, remote, stamp, t.item);
      if t.item in items { ItemIdsHas(items, t.item); }
    }
  }

  /** Change number `j` is the last of the feed about `id`. */
  ghost predicate LastAbout(feed: seq<Change>, j: nat, id: string) {
    j < |feed| && feed[j].Id() == id && forall k :: j < k < |feed| ==> feed[k].Id() != id
  }

  /** An item of another account, or one this vault cannot open. */
  predicate Unusable(change: Change, userId: string) {
    change.Changed? && (change.item.ownerUserId != userId || Decrypt(change.item.envelope, change.Id()).None?)
  }

  lemma LastChangeAt(feed: seq<Change>, j: nat, id: string)
    requires LastAbout(feed, j, id)
    ensures LastChange(feed, id) == Some(feed[j])
  {
    LastChangeIsLast(feed, id);
    assert feed[j] in feed;
  }

  /** The last change of the feed about the id is unusable. */
  ghost predicate LastUnusable(feed: seq<Change>, id: string, userId: string) {
    exists j: nat :: LastAbout(feed, j, id) && Unusable(feed[j], userId)
  }

  lemma LastUnusableIs(feed: seq<Change>, id: string, userId: string)
    ensures LastUnusable(feed, id, userId) <==> LastChange(feed, id).Some? && Unusable(LastChange(feed, id).value, userId)
  {
    LastChangeIsLast(feed, id);
    if LastUnusable(feed, id, userId) {
      var j: nat :| LastAbout(feed, j, id) && Unusable(feed[j], userId);
      LastChangeAt(feed, j, id);
    } else if LastChange(feed, id).Some? {
      var i :| 0 <= i < |feed| && feed[i] == LastChange(feed, id).value && feed[i].Id() == id
        && forall j :: i < j < |feed| ==> feed[j].Id() != id;
      assert LastAbout(feed, i, id);
    }
  }

  lemma NotTheLast(cursor: int, pages: seq<PullReply>, read: nat, n: nat, k: nat)
    requires WholeFeed(cursor, pages, read, n) && 0 < k < n
    ensures pages[k - 1].hasMore
  {}

  lemma WholeFeedUnique(cursor: int, pages: seq<PullReply>, read: nat, n: nat, m: nat)
    requires WholeFeed(cursor, pages, read, n) && WholeFeed(cursor, pages, read, m)
    ensures n == m
  {
    if n < m { NotTheLast(cursor, pages, read, m, n); }
    if m < n { NotTheLast(cursor, pages, read, n, m); }
  }

  /**
   * Of a whole feed, only the last change about the id can refuse a resolution, and it does if and only if the
   * local side is not simply kept and that change is an item of another account or one that cannot be opened.
   */
  lemma RefusedExactlyWhen(st: SyncState, userId: string, items: seq<Item>, id: string, choice: Choice,
                           pages: seq<PullReply>, n: nat, stamp: CopyStamp)
    requires WholeFeed(0, pages, 0, n)
    ensures var scan := ScanFrom(0, pages, 0, id, None);
            && scan.Found?
            && (Resolve(st, userId, items, id, choice, scan.remote, stamp).Refused? <==>
                  choice != KeepLocal && LastUnusable(AllChanges(pages[..n]), id, userId))
  {
    var m := ScanFinds(0, pages, 0, id, None);
    WholeFeedUnique(0, pages, 0, n, m);
    LastUnusableIs(AllChanges(pages[..n]), id, userId);
    LastChangeIsLast(AllChanges(pages[..n]), id);
  }

  lemma OtherWorkKept(st: SyncState, items: seq<Item>, st': SyncState, items': seq<Item>, id: string, copy: string)
    requires WellFormed(st) && WellFormed(st') && OthersKept(st, st', id)
    requires forall x: Item :: x.id != id && x.id != copy ==> (x in items' <==> x in items)
    ensures forall t: Task :: t.Id() != id && t.Id() != copy ==> (t in WorkList(st', items') <==> t in WorkList(st, items))
  {
    SameIds(items, items', id, copy);
    forall t: Task | t.Id() != id && t.Id() != copy ensures t in WorkList(st', items') <==> t in WorkList(st, items) {
      SameWorkAt(st, items, st', items', t);
    }
  }

  lemma SameWorkAt(st: SyncState, items: seq<Item>, st': SyncState, items': seq<Item>, t: Task)
    requires WellFormed(st) && WellFormed(st')
    requires var k := t.Id();
             && st'.revisions.Get(k) == st.revisions.Get(k) && st'.timestamps.Get(k) == st.timestamps.Get(k)
             && st'.pending.Get(k) == st.pending.Get(k) && (k in st'.conflicts <==> k in st.conflicts)
             && (k in ItemIds(items') <==> k in ItemIds(items))
    requires t.PutItem? ==> (t.item in items' <==> t.item in items)
    ensures t in WorkList(st', items') <==> t in WorkList(st, items)
  {
    WorkListMembers(st, items);
    WorkListMembers(st', items');
  }

  lemma CopyWork(st: SyncState, items: seq<Item>, st': SyncState, items': seq<Item>, local: Item, id: string, stamp: CopyStamp)
    requires WellFormed(st') && OthersKept(st, st', id) && UnusedId(st, items, stamp.id) && stamp.id != id
    requires CopyOf(local, stamp) in items'
    ensures CopyIsPushed(local, stamp, st', items')
  {
    WorkListMembers(st', items');
    assert IsCopy(local, stamp, CopyOf(local, stamp));
  }

  /** What the vault and the work list say about the id itself. */
  lemma IdInVault(st: SyncState, items: seq<Item>, id: string)
    requires WellFormed(st) && id !in st.conflicts && !st.pending.Has(id)
    ensures id in ItemIds(items) <==> exists x :: x in items && x.id == id
    ensures forall x :: x in items && x.id == id ==>
              (PutItem(x) in WorkList(st, items) <==> st.timestamps.Get(id) != Some(x.updatedAt))
    ensures DropId(id) in WorkList(st, items) <==> st.revisions.Has(id) && id !in ItemIds(items)
    ensures forall t :: t in WorkList(st, items) && t.Id() == id && t.PutItem? ==>
              t.item in items && st.timestamps.Get(id) != Some(t.item.updatedAt)
  {
    WorkListMembers(st, items);
    if id in ItemIds(items) {
      var i :| 0 <= i < |items| && ItemIds(items)[i] == id;
      assert items[i] in items;
    }
    forall x | x in items && x.id == id ensures id in ItemIds(items) { ItemIdsHas(items, x); }
  }

  lemma ResolvedIdWork(st: SyncState, userId: string, items: seq<Item>, id: string, choice: Choice,
                       remote: Option<Change>, stamp: CopyStamp)
    requires UniqueIds(items) && stamp.id != id
    requires var r := Resolve(st, userId, items, id, choice, remote, stamp);
             && r.Resolved? && WellFormed(r.st) && id !in r.st.conflicts && !r.st.pending.Has(id)
             && forall x :: x in r.items <==> HoldsAfter(items, id, choice, remote, stamp, x)
    ensures var r := Resolve(st, userId, items, id, choice, remote, stamp);
            NextPushFollows(choice, id, FindItem(items, id), remote, r.st, r.items)
  {
    var r := Resolve(st, userId, items, id, choice, remote, stamp);
    if choice == KeepLocal {
      forall x ensures x in r.items <==> x in items { assert HoldsAfter(items, id, choice, remote, stamp, x) <==> x in items; }
      LocalFollows(items, id, remote, r.st, r.items);
    } else {
      RemoteIsHeld(items, r.items, id, choice, remote, stamp);
      RemoteFollows(items, id, choice, remote, r.st, r.items);
    }
  }

  /** With the local side kept, the id is dirty, based at the last revision of the feed. */
  lemma LocalFollows(items: seq<Item>, id: string, remote: Option<Change>, st: SyncState, after: seq<Item>)
    requires UniqueIds(items) && WellFormed(st) && id !in st.conflicts && !st.pending.Has(id)
    requires forall x :: x in after <==> x in items
    requires !st.timestamps.Has(id)
    requires st.revisions.Get(id) == if remote.Some? then Some(remote.value.Revision()) else None
    ensures NextPushFollows(KeepLocal, id, FindItem(items, id), remote, st, after)
  {
    FindItemFinds(items, id);
    IdInVault(st, after, id);
    forall x | x in items && x.id == id ensures FindItem(items, id) == Some(x) {
      ItemIdsHas(items, x);
    }
  }

  /** With the remote side taken, there is nothing left to push for the id. */
  lemma RemoteFollows(items: seq<Item>, id: string, choice: Choice, remote: Option<Change>, st: SyncState, after: seq<Item>)
    requires choice != KeepLocal && WellFormed(st) && id !in st.conflicts && !st.pending.Has(id)
    requires forall x :: x in after && x.id == id ==>
               remote.Some? && remote.value.Changed? && Decrypt(remote.value.item.envelope, id) == Some(x)
    requires if remote.Some? && remote.value.Changed? then
               && Decrypt(remote.value.item.envelope, id).Some?
               && Decrypt(remote.value.item.envelope, id).value in after
               && st.timestamps.Get(id) == Some(Decrypt(remote.value.item.envelope, id).value.updatedAt)
               && st.revisions.Get(id) == Some(remote.value.item.revision)
             else !st.revisions.Has(id) && !st.timestamps.Has(id)
    ensures NextPushFollows(choice, id, FindItem(items, id), remote, st, after)
  {
    IdInVault(st, after, id);
  }

  /** After taking the remote side, what the vault holds under the id is what the feed holds. */
  lemma RemoteIsHeld(items: seq<Item>, after: seq<Item>, id: string, choice: Choice, remote: Option<Change>,
                     stamp: CopyStamp)
    requires choice != KeepLocal && stamp.id != id
    requires forall x :: x in after <==> HoldsAfter(items, id, choice, remote, stamp, x)
    ensures forall x :: x in after && x.id == id ==>
              remote.Some? && remote.value.Changed? && Decrypt(remote.value.item.envelope, id) == Some(x)
    ensures remote.Some? && remote.value.Changed? && Decrypt(remote.value.item.envelope, id).Some? ==>
              Decrypt(remote.value.item.envelope, id).value in after
  {
    forall x | x in after && x.id == id
      ensures remote.Some? && remote.value.Changed? && Decrypt(remote.value.item.envelope, id) == Some(x)
    {
      assert HoldsAfter(items, id, choice, remote, stamp, x);
    }
    if remote.Some? && remote.value.Changed? && Decrypt(remote.value.item.envelope, id).Some? {
      assert HoldsAfter(items, id, choice, remote, stamp, Decrypt(remote.value.item.envelope, id).value);
    }
  }

  lemma SameIds(items: seq<Item>, items': seq<Item>, id: string, copy: string)
    requires forall x: Item :: x.id != id && x.id != copy ==> (x in items' <==> x in items)
    ensures forall k :: k != id && k != copy ==> (k in ItemIds(items') <==> k in ItemIds(items))
  {
    forall k | k != id && k != copy ensures k in ItemIds(items') <==> k in ItemIds(items) {
      if k in ItemIds(items) {
        var i :| 0 <= i < |items| && ItemIds(items)[i] == k;
        assert items[i] in items;
        ItemIdsHas(items', items[i]);
      }
      if k in ItemIds(items') {
        var i :| 0 <= i < |items'| && ItemIds(items')[i] == k;
        assert items'[i] in items';
        ItemIdsHas(items, items'[i]);
      }
    }
  }

  // ---------------------------------------------------------------------------
  // The operation
  // ---------------------------------------------------------------------------

  /** The stored half of the extension: the sync state and the vault it was last persisted with. */
  class ExtensionDisk {
    const owner: string
    var sync: SyncState
    var items: seq<Item>

    constructor (owner: string, sync: SyncState, items: seq<Item>)
      ensures this.owner == owner && this.sync == sync && this.items == items
    {
      this.owner, this.sync, this.items := owner, sync, items;
    }

    /** Reads the feed page by page and remembers the last change about `id`. */
    method FindRemote(id: string, pages: seq<PullReply>) returns (remote: Option<Change>, fault: Option<Fault>)
      ensures match ScanFrom(0, pages, 0, id, None)
              case Found(last) => fault.None? && remote == last
              case Broken(why) => fault == Some(why)
    {
      ghost var scan := ScanFrom(0, pages, 0, id, None);
      var cursor := 0;
      remote := None;
      for page := 0 to MAX_PAGES
        invariant page <= |pages| && page < MAX_PAGES
        invariant ScanFrom(cursor, pages[page..], page, id, remote) == scan
      {
        if page == |pages| { return None, Some(NoAnswer); }
        assert pages[page..][1..] == pages[page + 1..];
        var pulled := pages[page];
        if pulled.cursor < cursor || (pulled.hasMore && pulled.cursor <= cursor) { return None, Some(CursorInvalid); }
        ghost var before := remote;
        for i := 0 to |pulled.changes|
          invariant remote == (var last := LastChange(pulled.changes[..i], id); if last.Some? then last else before)
        {
          assert pulled.changes[..i + 1][..i] == pulled.changes[..i];
          if pulled.changes[i].Id() == id { remote := Some(pulled.changes[i]); }
        }
        assert pulled.changes[..|pulled.changes|] == pulled.changes;
        cursor := pulled.cursor;
        if !pulled.hasMore { return remote, None; }
        if page == MAX_PAGES - 1 { return None, Some(PageLimit); }
      }
      assert false;
    }

    /** Nothing is stored unless the whole resolution goes through. */
    method ResolveConflict(id: string, choice: Choice, pages: seq<PullReply>, stamp: CopyStamp)
      returns (missing: bool, fault: Option<Fault>)
      modifies this
      ensures missing <==> id !in old(sync.conflicts)
      ensures var scan := ScanFrom(0, pages, 0, id, None);
              var done := if scan.Found? then Resolve(old(sync), owner, old(items), id, choice, scan.remote, stamp)
                          else Refused(scan.fault);
              if missing then sync == old(sync) && items == old(items)
              else
                match done
                case Refused(why) => fault == Some(why) && sync == old(sync) && items == old(items)
                case Resolved(st, kept) => fault.None? && sync == st && items == kept
    {
      missing, fault := false, None;
      if id !in sync.conflicts { return true, None; }
      var remote;
      remote, fault := FindRemote(id, pages);
      if fault.Some? { return; }
      var local := FindItem(items, id);
      var vault, timestamps, revisions := items, sync.timestamps, sync.revisions;
      if choice == KeepCopy && local.Some? { vault := vault + [CopyOf(local.value, stamp)]; }
      if choice != KeepLocal {
        if remote.Some? && remote.value.Changed? {
          if remote.value.item.ownerUserId != owner { return false, Some(OwnerMismatch); }
          var item := Decrypt(remote.value.item.envelope, id);
          if item.None? { return false, Some(DecryptFailed); }
          vault := Without(vault, id) + [item.value];
          timestamps := timestamps.Put(id, item.value.updatedAt);
        } else {
          vault := Without(vault, id);
          timestamps := timestamps.Drop(id);
        }
      } else {
        timestamps := timestamps.Drop(id);
      }
      if remote.Some? && (choice == KeepLocal || remote.value.Changed?) {
        revisions := revisions.Put(id, remote.value.Revision());
      } else {
        revisions := revisions.Drop(id);
      }
      sync := sync.(timestamps := timestamps, revisions := revisions, pending := sync.pending.Drop(id),
                    conflicts := Filter(sync.conflicts, k => k != id));
      items := vault;
    }
  }
}
