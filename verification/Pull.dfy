/** The paged pull: one change at a time, one page at a time, and the fold both amount to. */
module Pull {
  import opened Seqs
  import opened Records
  import opened ItemSync
  import opened PlanLaws
  import opened PushReplies

  /** The id under which the legacy whole-vault envelope travels. */
  const VAULT_ENVELOPE_ID := "00000000-0000-4000-8000-000000000001"

  const MAX_PAGES: nat := 1000

  datatype RemoteItem = RemoteItem(id: string, ownerUserId: string, revision: int, envelope: Envelope)

  datatype Change = Changed(item: RemoteItem) | Removed(itemId: string, revision: int) {
    function Id(): string { if Changed? then item.id else itemId }
    function Revision(): int { if Changed? then item.revision else revision }
  }

  datatype PullReply = PullReply(serverRevision: int, cursor: int, hasMore: bool, changes: seq<Change>)

  // ---------------------------------------------------------------------------
  // The vault as a record of items
  // ---------------------------------------------------------------------------

  /** `new Map(items.map(item => [item.id, item]))`. */
  function FromItems(items: seq<Item>): Record<Item> {
    if items == [] then Empty()
    else FromItems(items[..|items| - 1]).Put(items[|items| - 1].id, items[|items| - 1])
  }

  ghost predicate KeyedById(r: Record<Item>) {
    r.Valid() && forall k :: k in r.at ==> r.at[k].id == k
  }

  /** `[...items.values()]`. */
  function ToItems(r: Record<Item>): (items: seq<Item>)
    requires forall k :: k in r.keys ==> k in r.at
  {
    seq(|r.keys|, i requires 0 <= i < |r.keys| => r.at[r.keys[i]])
  }

  lemma {:induction false} FromItemsKeys(items: seq<Item>)
    requires UniqueIds(items)
    ensures KeyedById(FromItems(items)) && FromItems(items).keys == ItemIds(items)
  {
    if items != [] {
      var n := |items| - 1;
      FromItemsKeys(items[..n]);
      assert ItemIds(items) == ItemIds(items[..n]) + [items[n].id];
      PutValid(FromItems(items[..n]), items[n].id, items[n]);
      forall i | 0 <= i < n ensures ItemIds(items[..n])[i] != items[n].id {}
    }
  }

  lemma {:induction false} FromItemsAt(items: seq<Item>, i: nat)
    requires UniqueIds(items) && i < |items|
    ensures FromItems(items).Get(items[i].id) == Some(items[i])
  {
    var n := |items| - 1;
    if i < n { FromItemsAt(items[..n], i); }
  }

  lemma FromItemsShape(items: seq<Item>)
    requires UniqueIds(items)
    ensures KeyedById(FromItems(items))
    ensures FromItems(items).keys == ItemIds(items)
    ensures forall x :: x in items ==> FromItems(items).Get(x.id) == Some(x)
  {
    FromItemsKeys(items);
    forall x | x in items ensures FromItems(items).Get(x.id) == Some(x) {
      var i :| 0 <= i < |items| && items[i] == x;
      FromItemsAt(items, i);
    }
  }

  lemma FromToItems(items: seq<Item>)
    requires UniqueIds(items)
    ensures KeyedById(FromItems(items)) && ToItems(FromItems(items)) == items
  {
    FromItemsShape(items);
    var r := FromItems(items);
    forall i | 0 <= i < |items| ensures ToItems(r)[i] == items[i] {
      assert r.keys[i] == items[i].id && items[i] in items;
    }
  }

  lemma ToItemsShape(r: Record<Item>)
    requires KeyedById(r)
    ensures UniqueIds(ToItems(r)) && ItemIds(ToItems(r)) == r.keys
    ensures FromItems(ToItems(r)) == r
    ensures forall x :: x in ToItems(r) <==> r.Get(x.id) == Some(x)
  {
    var items := ToItems(r);
    assert ItemIds(items) == r.keys;
    FromItemsShape(items);
    var r' := FromItems(items);
    forall k | k in r.keys ensures r'.Get(k) == r.Get(k) {
      var i :| 0 <= i < |r.keys| && r.keys[i] == k;
      assert items[i] in items && items[i].id == k;
    }
    assert r'.at.Keys == r.at.Keys;
    assert r'.at == r.at;
    forall x: Item | r.Get(x.id) == Some(x) ensures x in items {
      var i :| 0 <= i < |r.keys| && r.keys[i] == x.id;
      assert items[i] == x;
    }
  }

  // ---------------------------------------------------------------------------
  // Changes
  // ---------------------------------------------------------------------------

  datatype View = View(items: Record<Item>, revisions: Record<int>, timestamps: Record<string>)

  datatype Folded = Done(view: View) | Failed(fault: Fault)

  /** Ids the pull must not touch: unsettled or conflicting ones, and the legacy envelope. */
  predicate Protected(st: SyncState, id: string) {
    id == VAULT_ENVELOPE_ID || st.pending.Has(id) || id in st.conflicts
  }

  function ApplyChange(st: SyncState, userId: string, v: View, change: Change): (f: Folded)
    ensures f.Failed? ==> f.fault.OwnerMismatch? || f.fault.DecryptFailed?
  {
    var id := change.Id();
    if Protected(st, id) then Done(v)
    else
      match change
      case Removed(_, revision) =>
        if v.revisions.Get(id).Or(-1) > revision then Done(v)
        else Done(View(v.items.Drop(id), v.revisions.Drop(id), v.timestamps.Drop(id)))
      case Changed(remote) =>
        if remote.ownerUserId != userId then Failed(OwnerMismatch)
        else if v.revisions.Get(id).Or(-1) > remote.revision then Done(v)
        else
          match Decrypt(remote.envelope, id)
          case None => Failed(DecryptFailed)
          case Some(item) =>
            Done(View(v.items.Put(id, item), v.revisions.Put(id, remote.revision), v.timestamps.Put(id, item.updatedAt)))
  }

  function Fold(st: SyncState, userId: string, v: View, changes: seq<Change>): (f: Folded)
    ensures f.Failed? ==> f.fault.OwnerMismatch? || f.fault.DecryptFailed?
  {
    if changes == [] then Done(v)
    else
      match Fold(st, userId, v, changes[..|changes| - 1])
      case Failed(fault) => Failed(fault)
      case Done(u) => ApplyChange(st, userId, u, changes[|changes| - 1])
  }

  lemma FoldNext(st: SyncState, userId: string, v: View, changes: seq<Change>, c: Change)
    ensures Fold(st, userId, v, changes + [c]) ==
            match Fold(st, userId, v, changes)
            case Failed(fault) => Failed(fault)
            case Done(u) => ApplyChange(st, userId, u, c)
  {
    assert (changes + [c])[..|changes|] == changes;
  }

  lemma {:induction false} FoldConcat(st: SyncState, userId: string, v: View, a: seq<Change>, b: seq<Change>)
    ensures Fold(st, userId, v, a + b) ==
            match Fold(st, userId, v, a)
            case Failed(fault) => Failed(fault)
            case Done(u) => Fold(st, userId, u, b)
  {
    if b == [] {
      assert a + b == a;
    } else {
      var init, last := b[..|b| - 1], b[|b| - 1];
      FoldConcat(st, userId, v, a, init);
      AppendLast(a, init, last);
      assert b == init + [last];
      FoldNext(st, userId, v, a + init, last);
    }
  }

  ghost predicate ViewOk(v: View) {
    KeyedById(v.items) && v.revisions.Valid() && v.timestamps.Valid()
  }

  /** `u` agrees with `v` on every protected id. */
  ghost predicate SameProtected(st: SyncState, u: View, v: View) {
    forall k :: Protected(st, k) ==>
      && u.items.Get(k) == v.items.Get(k)
      && u.revisions.Get(k) == v.revisions.Get(k)
      && u.timestamps.Get(k) == v.timestamps.Get(k)
  }

  ghost predicate NonNegative(revisions: Record<int>) {
    forall k :: k in revisions.at ==> 0 <= revisions.at[k]
  }

  /** An upsert and a delete of an unprotected id. */
  lemma UpdateKeeps(st: SyncState, v: View, id: string, item: Item, revision: int, stamp: string)
    requires ViewOk(v) && !Protected(st, id) && item.id == id
    ensures var put := View(v.items.Put(id, item), v.revisions.Put(id, revision), v.timestamps.Put(id, stamp));
            ViewOk(put) && SameProtected(st, put, v) && (NonNegative(v.revisions) && 0 <= revision ==> NonNegative(put.revisions))
  {
    PutValid(v.items, id, item);
    PutValid(v.revisions, id, revision);
    PutValid(v.timestamps, id, stamp);
    PutElsewhere(v.items, id, item);
    PutElsewhere(v.revisions, id, revision);
    PutElsewhere(v.timestamps, id, stamp);
  }

  lemma PutElsewhere<V>(r: Record<V>, id: string, value: V)
    ensures forall k :: k != id ==> r.Put(id, value).Get(k) == r.Get(k)
  {}

  lemma RemoveKeeps(st: SyncState, v: View, id: string)
    requires ViewOk(v) && !Protected(st, id)
    ensures var cut := View(v.items.Drop(id), v.revisions.Drop(id), v.timestamps.Drop(id));
            ViewOk(cut) && SameProtected(st, cut, v) && (NonNegative(v.revisions) ==> NonNegative(cut.revisions))
  {
    DropValid(v.items, id);
    DropValid(v.revisions, id);
    DropValid(v.timestamps, id);
  }

  lemma ChangeKeeps(st: SyncState, userId: string, v: View, change: Change)
    requires ViewOk(v)
    ensures var f := ApplyChange(st, userId, v, change);
            f.Done? ==> ViewOk(f.view) && SameProtected(st, f.view, v) &&
                        (NonNegative(v.revisions) && 0 <= change.Revision() ==> NonNegative(f.view.revisions))
  {
    var id := change.Id();
    if !Protected(st, id) {
      RemoveKeeps(st, v, id);
      if change.Changed? && Decrypt(change.item.envelope, id).Some? {
        var item := Decrypt(change.item.envelope, id).value;
        UpdateKeeps(st, v, id, item, change.item.revision, item.updatedAt);
      }
    }
  }

  /** A fold keeps the view consistent and never touches a protected id. */
  lemma {:induction false} FoldKeeps(st: SyncState, userId: string, v: View, changes: seq<Change>)
    requires ViewOk(v)
    ensures var f := Fold(st, userId, v, changes);
            f.Done? ==> ViewOk(f.view) && SameProtected(st, f.view, v) &&
                        (NonNegative(v.revisions) && (forall c :: c in changes ==> 0 <= c.Revision()) ==>
                           NonNegative(f.view.revisions))
  {
    if changes != [] {
      var n := |changes| - 1;
      FoldKeeps(st, userId, v, changes[..n]);
      var f := Fold(st, userId, v, changes[..n]);
      if f.Done? { ChangeKeeps(st, userId, f.view, changes[n]); }
    }
  }

  /** What a list of changes can do to an id: nothing, remove it, or put a version there with its timestamp. */
  ghost predicate Fed(st: SyncState, v: View, u: View, k: string) {
    || (u.items.Get(k) == v.items.Get(k) && u.revisions.Get(k) == v.revisions.Get(k) &&
        u.timestamps.Get(k) == v.timestamps.Get(k))
    || (!Protected(st, k) && u.items.Get(k) == None && u.revisions.Get(k) == None && u.timestamps.Get(k) == None)
    || (!Protected(st, k) && u.items.Get(k).Some? && u.timestamps.Get(k) == Some(u.items.Get(k).value.updatedAt))
  }

  lemma ChangeFeeds(st: SyncState, userId: string, v: View, u: View, change: Change, k: string)
    requires Fed(st, v, u, k)
    ensures var f := ApplyChange(st, userId, u, change); f.Done? ==> Fed(st, v, f.view, k)
  {}

  lemma {:induction false} FoldFeeds(st: SyncState, userId: string, v: View, changes: seq<Change>, k: string)
    ensures var f := Fold(st, userId, v, changes); f.Done? ==> Fed(st, v, f.view, k)
  {
    if changes != [] {
      var n := |changes| - 1;
      FoldFeeds(st, userId, v, changes[..n], k);
      var f := Fold(st, userId, v, changes[..n]);
      if f.Done? { ChangeFeeds(st, userId, v, f.view, changes[n], k); }
    }
  }

  // ---------------------------------------------------------------------------
  // Pages
  // ---------------------------------------------------------------------------

  /** What a page commits, or why it commits nothing. */
  datatype Page = Page(st: SyncState, items: seq<Item>, fault: Option<Fault>)

  function ViewOf(st: SyncState, items: seq<Item>): View {
    View(FromItems(items), st.revisions, st.timestamps)
  }

  predicate CursorFault(st: SyncState, page: PullReply) {
    || page.cursor < st.cursor || page.serverRevision < st.serverRevision
    || (page.hasMore && page.cursor <= st.cursor)
  }

  ghost function OnePage(st: SyncState, userId: string, items: seq<Item>, page: PullReply): Page
    requires UniqueIds(items) && WellFormed(st)
  {
    if CursorFault(st, page) then Page(st, items, Some(CursorInvalid))
    else
      match Fold(st, userId, ViewOf(st, items), page.changes)
      case Failed(fault) => Page(st, items, Some(fault))
      case Done(v) =>
        FromItemsShape(items);
        FoldKeeps(st, userId, ViewOf(st, items), page.changes);
        Page(st.(revisions := v.revisions, timestamps := v.timestamps,
                 serverRevision := page.serverRevision, cursor := page.cursor),
             ToItems(v.items), None)
  }

  /** A record that can be listed. */
  ghost predicate Listed(r: Record<Item>) {
    forall k :: k in r.keys ==> k in r.at
  }

  lemma OnePageIs(st: SyncState, userId: string, items: seq<Item>, page: PullReply)
    requires UniqueIds(items) && WellFormed(st)
    ensures CursorFault(st, page) ==> OnePage(st, userId, items, page) == Page(st, items, Some(CursorInvalid))
    ensures !CursorFault(st, page) ==>
              match Fold(st, userId, ViewOf(st, items), page.changes)
              case Failed(fault) => OnePage(st, userId, items, page) == Page(st, items, Some(fault))
              case Done(v) =>
                Listed(v.items) && OnePage(st, userId, items, page) ==
                  Page(SyncState(page.cursor, page.serverRevision, v.revisions, v.timestamps, st.pending, st.conflicts),
                       ToItems(v.items), None)
  {
    FromItemsShape(items);
    FoldKeeps(st, userId, ViewOf(st, items), page.changes);
  }

  /** The facts about one page that the run over all pages needs. */
  ghost predicate PageOk(st: SyncState, userId: string, items: seq<Item>, page: PullReply, p: Page) {
    && WellFormed(p.st) && UniqueIds(p.items)
    && p.st.pending == st.pending && p.st.conflicts == st.conflicts
    && (p.fault.Some? ==> p.st == st && p.items == items && !p.fault.value.PageLimit? && !p.fault.value.NoAnswer?)
    && (p.fault.None? ==>
          && st.serverRevision <= p.st.serverRevision
          && st.cursor <= p.st.cursor && (page.hasMore ==> st.cursor < p.st.cursor)
          && Fold(st, userId, ViewOf(st, items), page.changes) == Done(ViewOf(p.st, p.items)))
  }

  lemma OnePageOk(st: SyncState, userId: string, items: seq<Item>, page: PullReply)
    requires WellFormed(st) && UniqueIds(items)
    ensures PageOk(st, userId, items, page, OnePage(st, userId, items, page))
  {
    var f := Fold(st, userId, ViewOf(st, items), page.changes);
    FromItemsShape(items);
    FoldKeeps(st, userId, ViewOf(st, items), page.changes);
    if f.Done? { ToItemsShape(f.view.items); }
  }

  /** What the pull has committed, and how it ended. */
  datatype Pulled = Pulled(st: SyncState, items: seq<Item>, fault: Option<Fault>, read: nat)

  /** Everything the pages after the first `read` do; a script that runs out is a lost connection. */
  ghost function PullRun(st: SyncState, userId: string, items: seq<Item>, pages: seq<PullReply>, read: nat): Pulled
    requires WellFormed(st) && UniqueIds(items) && read < MAX_PAGES
    decreases |pages|
  {
    if pages == [] then Pulled(st, items, Some(NoAnswer), read)
    else
      OnePageOk(st, userId, items, pages[0]);
      var p := OnePage(st, userId, items, pages[0]);
      if p.fault.Some? then Pulled(st, items, p.fault, read)
      else if !pages[0].hasMore then Pulled(p.st, p.items, None, read + 1)
      else if read + 1 == MAX_PAGES then Pulled(p.st, p.items, Some(PageLimit), read + 1)
      else PullRun(p.st, userId, p.items, pages[1..], read + 1)
  }

  function AllChanges(pages: seq<PullReply>): seq<Change> {
    if pages == [] then [] else pages[0].changes + AllChanges(pages[1..])
  }

  /** Only the protected ids matter to a fold, so a commit of revisions does not change it. */
  lemma {:induction false} FoldSameProtection(st: SyncState, st': SyncState, userId: string, v: View, changes: seq<Change>)
    requires st.pending == st'.pending && st.conflicts == st'.conflicts
    ensures Fold(st, userId, v, changes) == Fold(st', userId, v, changes)
  {
    if changes != [] {
      FoldSameProtection(st, st', userId, v, changes[..|changes| - 1]);
    }
  }

  /**
   * Cursor and server revision never go back, the cursor grew with every page but the last, and no
   * more than a thousand pages are read.
   */
  ghost predicate Progress(st: SyncState, pages: seq<PullReply>, read: nat, e: Pulled) {
    && read <= e.read <= MAX_PAGES && e.read - read <= |pages|
    && st.cursor <= e.st.cursor && st.serverRevision <= e.st.serverRevision
    && (read + 1 < e.read ==> st.cursor + (e.read - read - 1) <= e.st.cursor)
    && (e.fault.None? ==> read < e.read && !pages[e.read - read - 1].hasMore)
    && (e.fault == Some(PageLimit) ==> e.read == MAX_PAGES)
    && (e.fault == Some(NoAnswer) ==> e.read - read == |pages|)
  }

  lemma ProgressNext(st: SyncState, p: Page, pages: seq<PullReply>, read: nat, e: Pulled)
    requires pages != [] && pages[0].hasMore && p.fault.None?
    requires st.cursor < p.st.cursor && st.serverRevision <= p.st.serverRevision
    requires Progress(p.st, pages[1..], read + 1, e)
    ensures Progress(st, pages, read, e)
  {}

  lemma {:induction false} PagesProgress(st: SyncState, userId: string, items: seq<Item>, pages: seq<PullReply>, read: nat)
    requires WellFormed(st) && UniqueIds(items) && read < MAX_PAGES
    ensures Progress(st, pages, read, PullRun(st, userId, items, pages, read))
    decreases |pages|
  {
    if pages != [] {
      OnePageOk(st, userId, items, pages[0]);
      var p := OnePage(st, userId, items, pages[0]);
      if p.fault.None? && pages[0].hasMore && read + 1 < MAX_PAGES {
        PagesProgress(p.st, userId, p.items, pages[1..], read + 1);
        ProgressNext(st, p, pages, read, PullRun(p.st, userId, p.items, pages[1..], read + 1));
      }
    }
  }

  /**
   * What has been committed equals one fold of all committed changes: items in the same order,
   * revisions and timestamps. Pending mutations and conflicts stay as they are.
   */
  ghost predicate OneFold(st: SyncState, userId: string, items: seq<Item>, pages: seq<PullReply>, read: nat, e: Pulled) {
    && read <= e.read && e.read - read <= |pages|
    && WellFormed(e.st) && UniqueIds(e.items)
    && e.st.pending == st.pending && e.st.conflicts == st.conflicts
    && Fold(st, userId, ViewOf(st, items), AllChanges(pages[..e.read - read])) == Done(ViewOf(e.st, e.items))
  }

  /** However the server cuts its change list into pages, the pull is one fold of that list. */
  lemma {:induction false} PagesAreOneFold(st: SyncState, userId: string, items: seq<Item>, pages: seq<PullReply>, read: nat)
    requires WellFormed(st) && UniqueIds(items) && read < MAX_PAGES
    ensures OneFold(st, userId, items, pages, read, PullRun(st, userId, items, pages, read))
    decreases |pages|
  {
    if pages != [] {
      OnePageOk(st, userId, items, pages[0]);
      var p := OnePage(st, userId, items, pages[0]);
      if p.fault.None? {
        if pages[0].hasMore && read + 1 < MAX_PAGES {
          PagesAreOneFold(p.st, userId, p.items, pages[1..], read + 1);
          OneFoldNext(st, userId, items, p, pages, read, PullRun(p.st, userId, p.items, pages[1..], read + 1));
        } else {
          SinglePage(pages);
        }
      }
    }
  }

  lemma SinglePage(pages: seq<PullReply>)
    requires pages != []
    ensures AllChanges(pages[..1]) == pages[0].changes
  {
    assert pages[..1][1..] == [];
    assert pages[0].changes + [] == pages[0].changes;
  }

  lemma OneFoldNext(st: SyncState, userId: string, items: seq<Item>, p: Page, pages: seq<PullReply>, read: nat, e: Pulled)
    requires pages != [] && PageOk(st, userId, items, pages[0], p) && p.fault.None?
    requires OneFold(p.st, userId, p.items, pages[1..], read + 1, e)
    ensures OneFold(st, userId, items, pages, read, e)
  {
    FirstPageThenRest(st, p.st, userId, ViewOf(st, items), pages, e.read - read);
  }

  lemma FirstPageThenRest(st: SyncState, st': SyncState, userId: string, v: View, pages: seq<PullReply>, n: nat)
    requires st.pending == st'.pending && st.conflicts == st'.conflicts && 0 < n <= |pages|
    requires Fold(st, userId, v, pages[0].changes).Done?
    ensures Fold(st, userId, v, AllChanges(pages[..n])) ==
            Fold(st', userId, Fold(st, userId, v, pages[0].changes).view, AllChanges(pages[1..][..n - 1]))
  {
    var rest := AllChanges(pages[1..][..n - 1]);
    assert pages[..n][1..] == pages[1..][..n - 1];
    FoldConcat(st, userId, v, pages[0].changes, rest);
    FoldSameProtection(st, st', userId, Fold(st, userId, v, pages[0].changes).view, rest);
  }

  /** Two ways of paging the same change list end in the same vault, in the same order. */
  lemma SplitsAgree(st: SyncState, userId: string, items: seq<Item>, one: seq<PullReply>, two: seq<PullReply>)
    requires WellFormed(st) && UniqueIds(items)
    ensures var e, f := PullRun(st, userId, items, one, 0), PullRun(st, userId, items, two, 0);
            e.read <= |one| && f.read <= |two| &&
            (AllChanges(one[..e.read]) == AllChanges(two[..f.read]) ==>
               e.items == f.items && e.st.revisions == f.st.revisions && e.st.timestamps == f.st.timestamps)
  {
    PagesAreOneFold(st, userId, items, one, 0);
    PagesAreOneFold(st, userId, items, two, 0);
    FromToItems(PullRun(st, userId, items, one, 0).items);
    FromToItems(PullRun(st, userId, items, two, 0).items);
  }
}
