/** What pulled changes come to, id by id, and how a pull ends. */
module PullLaws {
  import opened Seqs
  import opened Records
  import opened ItemSync
  import opened PlanLaws
  import opened PushReplies
  import opened Pull

  // ---------------------------------------------------------------------------
  // A list of changes
  // ---------------------------------------------------------------------------

  /** Ids a pull may change: nothing is unsettled about them, and they are not the legacy envelope's. */
  predicate Open(st: SyncState, k: string) {
    k != "00000000-0000-4000-8000-000000000001" && !st.pending.Has(k) && k !in st.conflicts
  }

  /** The revision held of an id; below every revision if there is none. */
  function Held(revisions: Record<int>, k: string): int {
    if revisions.Has(k) then revisions.at[k] else -1
  }

  /** No change is about the id, or only changes older than what is held. */
  ghost predicate NothingNew(revisions: Record<int>, changes: seq<Change>, k: string) {
    forall i :: 0 <= i < |changes| && changes[i].Id() == k ==> changes[i].Revision() < Held(revisions, k)
  }

  /** The changes about the id come in order of their revisions, from the held one on. */
  ghost predicate InOrder(revisions: Record<int>, changes: seq<Change>, k: string) {
    && (forall i :: 0 <= i < |changes| && changes[i].Id() == k ==>
          -1 <= changes[i].Revision() && Held(revisions, k) <= changes[i].Revision())
    && forall i, j :: 0 <= i < j < |changes| && changes[i].Id() == k && changes[j].Id() == k ==>
         changes[i].Revision() <= changes[j].Revision()
  }

  ghost predicate LastOf(changes: seq<Change>, i: nat, k: string) {
    i < |changes| && changes[i].Id() == k && forall j :: i < j < |changes| ==> changes[j].Id() != k
  }

  ghost predicate Untouched(v: View, u: View, k: string) {
    u.items.Get(k) == v.items.Get(k) && u.revisions.Get(k) == v.revisions.Get(k) && u.timestamps.Get(k) == v.timestamps.Get(k)
  }

  /** A removal leaves nothing of the id; an upsert leaves what its envelope holds, at its revision and that version. */
  ghost predicate LeftBy(change: Change, u: View, k: string) {
    match change
    case Removed(_, _) => !u.items.Has(k) && !u.revisions.Has(k) && !u.timestamps.Has(k)
    case Changed(remote) =>
      var item := Decrypt(remote.envelope, k);
      && item.Some? && u.items.Get(k) == item && u.revisions.Get(k) == Some(remote.revision)
      && u.timestamps.Get(k) == Some(item.value.updatedAt)
  }

  lemma OtherId(st: SyncState, userId: string, v: View, change: Change, k: string)
    requires change.Id() != k
    ensures var f := ApplyChange(st, userId, v, change); f.Done? ==> Untouched(v, f.view, k)
  {}

  lemma OneChange(st: SyncState, userId: string, v: View, change: Change, k: string)
    requires Open(st, k) && change.Id() == k
    ensures var f := ApplyChange(st, userId, v, change);
            f.Done? ==> if change.Revision() < Held(v.revisions, k) then f.view == v else LeftBy(change, f.view, k)
  {}

  lemma {:induction false} StaleChanges(st: SyncState, userId: string, v: View, changes: seq<Change>, k: string)
    requires Open(st, k) && NothingNew(v.revisions, changes, k)
    ensures var f := Fold(st, userId, v, changes); f.Done? ==> Untouched(v, f.view, k)
  {
    if changes != [] {
      var n := |changes| - 1;
      var before := Fold(st, userId, v, changes[..n]);
      StaleChanges(st, userId, v, changes[..n], k);
      if before.Done? {
        if changes[n].Id() == k {
          OneChange(st, userId, before.view, changes[n], k);
        } else {
          OtherId(st, userId, before.view, changes[n], k);
        }
      }
    }
  }

  /** The last change decides; before the first, nothing has happened. */
  ghost predicate Decided(v: View, u: View, changes: seq<Change>, k: string) {
    && (forall i: nat :: LastOf(changes, i, k) ==> LeftBy(changes[i], u, k))
    && ((forall i :: 0 <= i < |changes| ==> changes[i].Id() != k) ==> Untouched(v, u, k))
  }

  lemma {:induction false} LastExists(changes: seq<Change>, k: string) returns (i: nat)
    requires exists j :: 0 <= j < |changes| && changes[j].Id() == k
    ensures LastOf(changes, i, k)
  {
    i := |changes| - 1;
    if changes[i].Id() != k { i := LastExists(changes[..i], k); }
  }

  /** What is held on the way is not above the changes still to come. */
  lemma NotAbove(v: View, u: View, changes: seq<Change>, n: nat, k: string)
    requires n < |changes| && InOrder(v.revisions, changes, k) && Decided(v, u, changes[..n], k)
    requires changes[n].Id() == k
    ensures Held(u.revisions, k) <= changes[n].Revision()
  {
    if exists j :: 0 <= j < n && changes[..n][j].Id() == k {
      var i := LastExists(changes[..n], k);
      assert LeftBy(changes[..n][i], u, k) && changes[..n][i] == changes[i];
    } else {
      assert Untouched(v, u, k);
    }
  }

  lemma {:induction false} ChangesDecide(st: SyncState, userId: string, v: View, changes: seq<Change>, k: string)
    requires Open(st, k) && InOrder(v.revisions, changes, k)
    ensures var f := Fold(st, userId, v, changes); f.Done? ==> Decided(v, f.view, changes, k)
  {
    if changes != [] {
      var n := |changes| - 1;
      var init := changes[..n];
      var before := Fold(st, userId, v, init);
      ChangesDecide(st, userId, v, init, k);
      if before.Done? {
        if changes[n].Id() == k {
          NotAbove(v, before.view, changes, n, k);
          OneChange(st, userId, before.view, changes[n], k);
        } else {
          OtherId(st, userId, before.view, changes[n], k);
        }
        var f := Fold(st, userId, v, changes);
        if f.Done? { DecidedNext(v, before.view, f.view, changes, k); }
      }
    }
  }

  lemma DecidedNext(v: View, u: View, w: View, changes: seq<Change>, k: string)
    requires changes != [] && Decided(v, u, changes[..|changes| - 1], k)
    requires var c := changes[|changes| - 1]; if c.Id() == k then LeftBy(c, w, k) else Untouched(u, w, k)
    ensures Decided(v, w, changes, k)
  {
    var n := |changes| - 1;
    forall i: nat | LastOf(changes, i, k) ensures LeftBy(changes[i], w, k) {
      if i < n {
        assert changes[n].Id() != k;
        assert LastOf(changes[..n], i, k) && changes[..n][i] == changes[i];
        LeftStays(changes[i], u, w, k);
      }
    }
  }

  lemma LeftStays(change: Change, u: View, w: View, k: string)
    requires LeftBy(change, u, k) && Untouched(u, w, k)
    ensures LeftBy(change, w, k)
  {}

  // ---------------------------------------------------------------------------
  // When a list is refused
  // ---------------------------------------------------------------------------

  /** An upsert of this account that can be opened, or a removal. */
  predicate Usable(change: Change, userId: string) {
    change.Changed? ==> change.item.ownerUserId == userId && Decrypt(change.item.envelope, change.Id()).Some?
  }

  /** Every change about an id that is open comes in order. */
  ghost predicate AllInOrder(st: SyncState, revisions: Record<int>, changes: seq<Change>) {
    forall k :: Open(st, k) ==> InOrder(revisions, changes, k)
  }

  /** The first change that is open and cannot be used, and what is wrong with it. */
  ghost predicate FirstUnusable(st: SyncState, userId: string, changes: seq<Change>, i: nat, fault: Fault) {
    && i < |changes| && Open(st, changes[i].Id()) && !Usable(changes[i], userId)
    && fault == (if changes[i].item.ownerUserId != userId then OwnerMismatch else DecryptFailed)
    && forall j :: 0 <= j < i ==> !Open(st, changes[j].Id()) || Usable(changes[j], userId)
  }

  ghost predicate AllUsable(st: SyncState, userId: string, changes: seq<Change>) {
    forall i :: 0 <= i < |changes| ==> !Open(st, changes[i].Id()) || Usable(changes[i], userId)
  }

  lemma UsableNext(st: SyncState, userId: string, changes: seq<Change>)
    requires changes != []
    ensures var n := |changes| - 1;
            && (AllUsable(st, userId, changes) <==>
                  AllUsable(st, userId, changes[..n]) && (!Open(st, changes[n].Id()) || Usable(changes[n], userId)))
            && (forall i: nat, fault :: FirstUnusable(st, userId, changes[..n], i, fault) ==> FirstUnusable(st, userId, changes, i, fault))
            && (AllUsable(st, userId, changes[..n]) && Open(st, changes[n].Id()) && !Usable(changes[n], userId) ==>
                  FirstUnusable(st, userId, changes, n, if changes[n].item.ownerUserId != userId then OwnerMismatch else DecryptFailed))
  {
    var n := |changes| - 1;
    forall i | 0 <= i < n ensures changes[..n][i] == changes[i] {}
  }

  /** A change in its place is applied if it can be used, and refuses the list if it cannot. */
  lemma ChangeTaken(st: SyncState, userId: string, v: View, change: Change)
    requires Open(st, change.Id()) ==> Held(v.revisions, change.Id()) <= change.Revision()
    ensures var f := ApplyChange(st, userId, v, change);
            && (f.Done? <==> !Open(st, change.Id()) || Usable(change, userId))
            && (f.Failed? ==> f.fault == if change.item.ownerUserId != userId then OwnerMismatch else DecryptFailed)
  {}

  /** What is held of the id of a change in order is not above it. */
  lemma HeldBelow(st: SyncState, userId: string, v: View, changes: seq<Change>)
    requires changes != [] && AllInOrder(st, v.revisions, changes)
    ensures AllInOrder(st, v.revisions, changes[..|changes| - 1])
    ensures var n := |changes| - 1;
            var f, k := Fold(st, userId, v, changes[..n]), changes[n].Id();
            f.Done? && Open(st, k) ==> Held(f.view.revisions, k) <= changes[n].Revision()
  {
    var n := |changes| - 1;
    var f, k := Fold(st, userId, v, changes[..n]), changes[n].Id();
    forall x | Open(st, x) ensures InOrder(v.revisions, changes[..n], x) { assert InOrder(v.revisions, changes, x); }
    if f.Done? && Open(st, k) {
      assert InOrder(v.revisions, changes, k);
      ChangesDecide(st, userId, v, changes[..n], k);
      NotAbove(v, f.view, changes, n, k);
    }
  }

  /**
   * Of changes in order, the list is taken if and only if every upsert of an open id is of this account and can be
   * opened; otherwise the first that is not refuses it, for its owner or else for its envelope.
   */
  lemma {:induction false} TakenExactlyWhen(st: SyncState, userId: string, v: View, changes: seq<Change>)
    requires AllInOrder(st, v.revisions, changes)
    ensures var f := Fold(st, userId, v, changes);
            && (f.Done? <==> AllUsable(st, userId, changes))
            && (f.Failed? ==> exists i: nat :: FirstUnusable(st, userId, changes, i, f.fault))
    decreases |changes|
  {
    if changes != [] {
      var n := |changes| - 1;
      HeldBelow(st, userId, v, changes);
      TakenExactlyWhen(st, userId, v, changes[..n]);
      UsableNext(st, userId, changes);
      var before := Fold(st, userId, v, changes[..n]);
      if before.Done? { ChangeTaken(st, userId, before.view, changes[n]); }
    }
  }

  /** An upsert of another account refuses any list, in order or not. */
  lemma {:induction false} ForeignOwnerRefuses(st: SyncState, userId: string, v: View, changes: seq<Change>, i: nat)
    requires i < |changes| && Open(st, changes[i].Id()) && changes[i].Changed? && changes[i].item.ownerUserId != userId
    ensures Fold(st, userId, v, changes).Failed?
  {
    var n := |changes| - 1;
    if i < n { ForeignOwnerRefuses(st, userId, v, changes[..n], i); }
  }

  // ---------------------------------------------------------------------------
  // A page, and all pages
  // ---------------------------------------------------------------------------

  /** The vault and the state agree with the view of them. */
  lemma HeldItems(items: seq<Item>, k: string)
    requires UniqueIds(items)
    ensures FromItems(items).Has(k) <==> k in ItemIds(items)
    ensures forall x: Item :: x.id == k ==> (x in items <==> FromItems(items).Get(k) == Some(x))
  {
    FromItemsShape(items);
    FromToItems(items);
    ToItemsShape(FromItems(items));
  }

  ghost predicate SameOf(st: SyncState, items: seq<Item>, st': SyncState, items': seq<Item>, k: string) {
    && (forall x: Item :: x.id == k ==> (x in items' <==> x in items))
    && st'.revisions.Get(k) == st.revisions.Get(k) && st'.timestamps.Get(k) == st.timestamps.Get(k)
  }

  ghost predicate LeftIn(change: Change, st: SyncState, items: seq<Item>, k: string) {
    match change
    case Removed(_, _) => k !in ItemIds(items) && !st.revisions.Has(k) && !st.timestamps.Has(k)
    case Changed(remote) =>
      var item := Decrypt(remote.envelope, k);
      && item.Some? && item.value in items && st.revisions.Get(k) == Some(remote.revision)
      && st.timestamps.Get(k) == Some(item.value.updatedAt)
  }

  /** What fault-free changes have made of an open id. */
  ghost predicate Reconciled(st: SyncState, items: seq<Item>, changes: seq<Change>, st': SyncState, items': seq<Item>, k: string) {
    && (NothingNew(st.revisions, changes, k) ==> SameOf(st, items, st', items', k))
    && (InOrder(st.revisions, changes, k) ==> forall i: nat :: LastOf(changes, i, k) ==> LeftIn(changes[i], st', items', k))
  }

  lemma FoldReconciles(st: SyncState, userId: string, items: seq<Item>, changes: seq<Change>, st': SyncState,
                       items': seq<Item>, k: string)
    requires UniqueIds(items) && UniqueIds(items') && Open(st, k)
    requires Fold(st, userId, ViewOf(st, items), changes) == Done(ViewOf(st', items'))
    ensures Reconciled(st, items, changes, st', items', k)
  {
    HeldItems(items, k);
    HeldItems(items', k);
    var v, u := ViewOf(st, items), ViewOf(st', items');
    if NothingNew(st.revisions, changes, k) { StaleChanges(st, userId, v, changes, k); }
    if InOrder(st.revisions, changes, k) {
      ChangesDecide(st, userId, v, changes, k);
      forall i: nat | LastOf(changes, i, k) ensures LeftIn(changes[i], st', items', k) { assert LeftBy(changes[i], u, k); }
    }
  }

  /**
   * One page. It is refused for its cursor exactly when that or the server's revision goes back, or when more is to
   * come without the cursor moving; taken, it moves both to its own, and every open id is as its changes have it.
   */
  lemma PageReconciles(st: SyncState, userId: string, items: seq<Item>, page: PullReply, k: string)
    requires WellFormed(st) && UniqueIds(items)
    ensures var p := OnePage(st, userId, items, page);
            && (p.fault == Some(CursorInvalid) <==>
                  page.cursor < st.cursor || page.serverRevision < st.serverRevision ||
                  (page.hasMore && page.cursor == st.cursor))
            && (p.fault.Some? && !p.fault.value.CursorInvalid? <==>
                  p.fault != Some(CursorInvalid) && Fold(st, userId, ViewOf(st, items), page.changes).Failed?)
            && (p.fault.Some? ==> p.st == st && p.items == items)
            && (p.fault.None? ==>
                  && p.st.cursor == page.cursor && p.st.serverRevision == page.serverRevision
                  && p.st.pending == st.pending && p.st.conflicts == st.conflicts
                  && (Open(st, k) ==> Reconciled(st, items, page.changes, p.st, p.items, k)))
  {
    OnePageOk(st, userId, items, page);
    OnePageIs(st, userId, items, page);
    var p := OnePage(st, userId, items, page);
    if p.fault.None? && Open(st, k) { FoldReconciles(st, userId, items, page.changes, p.st, p.items, k); }
  }

  /** A page of changes in order is taken if and only if its cursor is in order and all its open upserts are usable. */
  lemma PageTakenExactlyWhen(st: SyncState, userId: string, items: seq<Item>, page: PullReply)
    requires WellFormed(st) && UniqueIds(items) && AllInOrder(st, st.revisions, page.changes)
    ensures OnePage(st, userId, items, page).fault.None? <==>
            && st.serverRevision <= page.serverRevision
            && (if page.hasMore then st.cursor < page.cursor else st.cursor <= page.cursor)
            && AllUsable(st, userId, page.changes)
  {
    OnePageIs(st, userId, items, page);
    TakenExactlyWhen(st, userId, ViewOf(st, items), page.changes);
  }

  /** All pages: every open id is as the changes of the pages that were read have it. */
  lemma PullReconciles(st: SyncState, userId: string, items: seq<Item>, pages: seq<PullReply>, k: string)
    requires WellFormed(st) && UniqueIds(items) && Open(st, k)
    ensures var e := PullRun(st, userId, items, pages, 0);
            e.read <= |pages| && Reconciled(st, items, AllChanges(pages[..e.read]), e.st, e.items, k)
  {
    PagesAreOneFold(st, userId, items, pages, 0);
    var e := PullRun(st, userId, items, pages, 0);
    FoldReconciles(st, userId, items, AllChanges(pages[..e.read]), e.st, e.items, k);
  }

  /** How a pull has ended: where it stands, and what the page that stopped it says there. */
  ghost predicate Ended(st: SyncState, userId: string, pages: seq<PullReply>, read: nat, e: Pulled) {
    && read <= e.read && e.read - read <= |pages| && WellFormed(e.st) && UniqueIds(e.items)
    && (e.read > read ==>
          && e.st.cursor == pages[e.read - read - 1].cursor
          && e.st.serverRevision == pages[e.read - read - 1].serverRevision)
    && (forall k :: 0 <= k < e.read - read - 1 ==> pages[k].hasMore)
    && match e.fault
       case None => e.read > read && !pages[e.read - read - 1].hasMore
       case Some(NoAnswer) => e.read - read == |pages| && (e.read > read ==> pages[e.read - read - 1].hasMore)
       case Some(PageLimit) => e.read == 1000 && e.read > read && pages[e.read - read - 1].hasMore
       case Some(fault) =>
         && e.read - read < |pages| && (e.read > read ==> pages[e.read - read - 1].hasMore)
         && OnePage(e.st, userId, e.items, pages[e.read - read]).fault == Some(fault)
  }

  lemma EndedNext(st: SyncState, st': SyncState, userId: string, pages: seq<PullReply>, read: nat, e: Pulled)
    requires pages != [] && pages[0].hasMore && Ended(st', userId, pages[1..], read + 1, e)
    requires e.read == read + 1 ==> e.st == st' && st'.cursor == pages[0].cursor && st'.serverRevision == pages[0].serverRevision
    ensures Ended(st, userId, pages, read, e)
  {
    if e.read > read + 1 { assert pages[e.read - read - 1] == pages[1..][e.read - read - 2]; }
    forall k | 0 <= k < e.read - read - 1 ensures pages[k].hasMore {
      if k > 0 { assert pages[k] == pages[1..][k - 1]; }
    }
  }

  lemma {:induction false} NothingRead(st: SyncState, userId: string, items: seq<Item>, pages: seq<PullReply>, read: nat)
    requires WellFormed(st) && UniqueIds(items) && read < MAX_PAGES
    ensures var e := PullRun(st, userId, items, pages, read); e.read >= read && (e.read == read ==> e.st == st && e.items == items)
    decreases |pages|
  {
    if pages != [] {
      OnePageOk(st, userId, items, pages[0]);
      var p := OnePage(st, userId, items, pages[0]);
      if p.fault.None? && pages[0].hasMore && read + 1 < MAX_PAGES { NothingRead(p.st, userId, p.items, pages[1..], read + 1); }
    }
  }

  lemma PageMoves(st: SyncState, userId: string, items: seq<Item>, page: PullReply)
    requires WellFormed(st) && UniqueIds(items)
    ensures var p := OnePage(st, userId, items, page);
            && WellFormed(p.st) && UniqueIds(p.items)
            && (p.fault.Some? ==> p.fault != Some(NoAnswer) && p.fault != Some(PageLimit))
            && (p.fault.None? ==> p.st.cursor == page.cursor && p.st.serverRevision == page.serverRevision)
  {
    OnePageOk(st, userId, items, page);
    OnePageIs(st, userId, items, page);
  }

  /** The pull ends at this page, or for the lack of one. */
  lemma EndsHere(st: SyncState, userId: string, items: seq<Item>, pages: seq<PullReply>, read: nat)
    requires WellFormed(st) && UniqueIds(items) && read < MAX_PAGES
    requires pages != [] ==> OnePage(st, userId, items, pages[0]).fault.Some? || !pages[0].hasMore || read + 1 == MAX_PAGES
    ensures Ended(st, userId, pages, read, PullRun(st, userId, items, pages, read))
  {
    if pages != [] { PageMoves(st, userId, items, pages[0]); }
  }

  /**
   * The pull ends with the cursor and server revision of the last page taken. It comes through exactly at a page without
   * more; otherwise the answers ran out, a thousand pages were read and more were to come, or the next page is refused.
   */
  lemma {:induction false} PullEnds(st: SyncState, userId: string, items: seq<Item>, pages: seq<PullReply>, read: nat)
    requires WellFormed(st) && UniqueIds(items) && read < MAX_PAGES
    ensures Ended(st, userId, pages, read, PullRun(st, userId, items, pages, read))
    decreases |pages|
  {
    if pages != [] && OnePage(st, userId, items, pages[0]).fault.None? && pages[0].hasMore && read + 1 < MAX_PAGES {
      PageMoves(st, userId, items, pages[0]);
      var p := OnePage(st, userId, items, pages[0]);
      PullEnds(p.st, userId, p.items, pages[1..], read + 1);
      NothingRead(p.st, userId, p.items, pages[1..], read + 1);
      EndedNext(st, p.st, userId, pages, read, PullRun(p.st, userId, p.items, pages[1..], read + 1));
    } else {
      EndsHere(st, userId, items, pages, read);
    }
  }
}
