/**
 * Restoring a vault from its recovery packet in the browser: the storage writes that commit it, each of which may
 * throw, and the roll-back that follows.
 */
module RecoveryCommit {
  import opened Seqs
  import opened Records
  import opened ItemSync
  import Pull

  /** The storage keys the recovery touches. */
  datatype Key = VaultKey | PacketKey | PendingKey | RevisionsKey

  /** The JSON forms of the two stored records; reading may fail on text nobody wrote. */
  datatype Json = Json(writePending: Record<Pending> -> string, readPending: string -> Option<Record<Pending>>,
                       writeRevisions: Record<int> -> string, readRevisions: string -> Option<Record<int>>)

  /** What is written is not empty and reads back; whatever text is read, a key occurs once in what is read. */
  ghost predicate RoundTrips(json: Json) {
    && (forall p: Record<Pending> :: p.Valid() ==>
          json.writePending(p) != "" && json.readPending(json.writePending(p)) == Some(p))
    && (forall r: Record<int> :: r.Valid() ==>
          json.writeRevisions(r) != "" && json.readRevisions(json.writeRevisions(r)) == Some(r))
    && (forall text :: json.readPending(text).Some? ==> json.readPending(text).value.Valid())
    && (forall text :: json.readRevisions(text).Some? ==> json.readRevisions(text).value.Valid())
  }

  function GetItem(items: map<Key, string>, key: Key): Option<string> {
    if key in items then Some(items[key]) else None
  }

  /** `loadPendingItemMutations`: missing, empty or malformed text reads as no pending mutation. */
  function LoadPending(items: map<Key, string>, json: Json): Record<Pending> {
    var raw := GetItem(items, PendingKey).Or("");
    if raw == "" then Empty() else json.readPending(raw).Or(Empty())
  }

  /** `loadItemRevisionMap`; `None` is the exception of malformed text. */
  function LoadRevisions(items: map<Key, string>, json: Json): Option<Record<int>> {
    var raw := GetItem(items, RevisionsKey).Or("");
    if raw == "" then Some(Empty()) else json.readRevisions(raw)
  }

  /** What the application reads back. */
  datatype View = View(vault: Option<string>, packet: Option<string>, pending: Record<Pending>,
                       revisions: Option<Record<int>>)

  function Read(items: map<Key, string>, json: Json): View {
    View(GetItem(items, VaultKey), GetItem(items, PacketKey), LoadPending(items, json), LoadRevisions(items, json))
  }

  /** `window.localStorage`: write number `k` throws, and changes nothing, when `fails(k)`. */
  class LocalStorage {
    var items: map<Key, string>
    var writes: nat
    const fails: nat -> bool

    constructor (given: map<Key, string>, faults: nat -> bool)
      ensures items == given && writes == 0 && fails == faults
    {
      items, writes, fails := given, 0, faults;
    }

    method SetItem(key: Key, value: string) returns (ok: bool)
      modifies this
      ensures writes == old(writes) + 1 && ok == !fails(old(writes))
      ensures items == if ok then old(items)[key := value] else old(items)
    {
      ok := !fails(writes);
      writes := writes + 1;
      if ok { items := items[key := value]; }
    }

    method RemoveItem(key: Key) returns (ok: bool)
      modifies this
      ensures writes == old(writes) + 1 && ok == !fails(old(writes))
      ensures items == if ok then old(items) - {key} else old(items)
    {
      ok := !fails(writes);
      writes := writes + 1;
      if ok { items := items - {key}; }
    }

    /** One turn of the roll-back loop. */
    method Restore(key: Key, value: Option<string>) returns (ok: bool)
      modifies this
      ensures writes == old(writes) + 1 && ok == !fails(old(writes))
      ensures ok ==> GetItem(items, key) == value
      ensures !ok ==> items == old(items)
      ensures forall other :: other != key ==> GetItem(items, other) == GetItem(old(items), other)
    {
      if value.None? { ok := RemoveItem(key); } else { ok := SetItem(key, value.value); }
    }
  }

  /** No two writes fail. */
  ghost predicate OneFault(fails: nat -> bool) {
    forall j: nat, k: nat :: fails(j) && fails(k) ==> j == k
  }

  /** The number of the first write to fail, of the four from `n` on, or `n + 4` if none does. */
  function FirstFault(fails: nat -> bool, n: nat): (f: nat)
    ensures n <= f <= n + 4 && (f < n + 4 ==> fails(f)) && forall k :: n <= k < f ==> !fails(k)
  {
    if fails(n) then n else if fails(n + 1) then n + 1 else if fails(n + 2) then n + 2 else if fails(n + 3) then n + 3 else n + 4
  }

  /** One of the three writes that undo a commit whose write `f` failed fails as well. */
  predicate UndoFails(fails: nat -> bool, f: nat) {
    fails(f + 1) || fails(f + 2) || fails(f + 3)
  }

  /** What reads back once the undoing was tried: a key stays changed if it was written and its own undoing failed. */
  function Undoing(v: View, fails: nat -> bool, n: nat, f: nat, vault: string, packet: string): View {
    View(if f > n + 1 && fails(f + 1) then Some(vault) else v.vault,
         if f > n + 2 && fails(f + 2) then Some(packet) else v.packet,
         if f > n && fails(f + 3) then Empty() else v.pending,
         v.revisions)
  }

  datatype CommitOutcome = Committed | Undone | RollbackFailed

  /** The four writes of the commit, until one throws. */
  method WriteAll(storage: LocalStorage, json: Json, vault: string, packet: string) returns (ok: bool)
    requires RoundTrips(json)
    modifies storage
    ensures var n, f := old(storage.writes), FirstFault(storage.fails, old(storage.writes));
            && ok == (f == n + 4) && storage.writes == (if ok then f else f + 1)
            && GetItem(storage.items, VaultKey) == (if f > n + 1 then Some(vault) else GetItem(old(storage.items), VaultKey))
            && GetItem(storage.items, PacketKey) == (if f > n + 2 then Some(packet) else GetItem(old(storage.items), PacketKey))
            && LoadPending(storage.items, json) == (if f > n then Empty() else LoadPending(old(storage.items), json))
    ensures GetItem(storage.items, RevisionsKey) == GetItem(old(storage.items), RevisionsKey)
  {
    ok := storage.SetItem(PendingKey, json.writePending(Empty()));
    if !ok { return; }
    ok := storage.SetItem(VaultKey, vault);
    if !ok { return; }
    ok := storage.SetItem(PacketKey, packet);
    if !ok { return; }
    ok := storage.SetItem(PendingKey, json.writePending(Empty()));
  }

  /** The roll-back: every write is tried, whether or not the others fail. */
  method RollBack(storage: LocalStorage, json: Json, vault: Option<string>, packet: Option<string>,
                  pending: Record<Pending>)
    returns (failed: bool)
    requires RoundTrips(json) && pending.Valid()
    modifies storage
    ensures GetItem(storage.items, RevisionsKey) == GetItem(old(storage.items), RevisionsKey)
    ensures var n := old(storage.writes);
            && storage.writes == n + 3 && failed == (storage.fails(n) || storage.fails(n + 1) || storage.fails(n + 2))
            && GetItem(storage.items, VaultKey) == (if storage.fails(n) then GetItem(old(storage.items), VaultKey) else vault)
            && GetItem(storage.items, PacketKey) ==
               (if storage.fails(n + 1) then GetItem(old(storage.items), PacketKey) else packet)
            && LoadPending(storage.items, json) ==
               (if storage.fails(n + 2) then LoadPending(old(storage.items), json) else pending)
  {
    failed := false;
    var restored := storage.Restore(VaultKey, vault);
    if !restored { failed := true; }
    restored := storage.Restore(PacketKey, packet);
    if !restored { failed := true; }
    restored := storage.SetItem(PendingKey, json.writePending(pending));
    if !restored { failed := true; }
  }

  /** The commit, and its roll-back when a write throws: all or nothing, unless the roll-back itself fails. */
  method Commit(storage: LocalStorage, json: Json, vault: string, packet: string) returns (r: CommitOutcome)
    requires RoundTrips(json)
    modifies storage
    ensures var n, f := old(storage.writes), FirstFault(storage.fails, old(storage.writes));
            && r == (if f == n + 4 then Committed else if UndoFails(storage.fails, f) then RollbackFailed else Undone)
            && storage.writes == (if f == n + 4 then f else f + 4)
            && Read(storage.items, json) ==
               if f == n + 4 then View(Some(vault), Some(packet), Empty(), LoadRevisions(old(storage.items), json))
               else Undoing(Read(old(storage.items), json), storage.fails, n, f, vault, packet)
    ensures r.Undone? ==> Read(storage.items, json) == Read(old(storage.items), json)
    ensures OneFault(storage.fails) ==> !r.RollbackFailed?
  {
    var previousVault, previousPacket := GetItem(storage.items, VaultKey), GetItem(storage.items, PacketKey);
    var previousPending := LoadPending(storage.items, json);
    var ok := WriteAll(storage, json, vault, packet);
    if ok { return Committed; }
    var rollbackFailed := RollBack(storage, json, previousVault, previousPacket, previousPending);
    r := if rollbackFailed then RollbackFailed else Undone;
  }

  // ---------------------------------------------------------------------------
  // The remote merge that precedes a commit
  // ---------------------------------------------------------------------------

  datatype RemoteItem = RemoteItem(id: string, revision: int, envelope: Envelope)

  datatype Merged = Merged(items: seq<Item>, revisions: Record<int>, failed: seq<string>)

  function IndexOf(items: seq<Item>, id: string): (k: int)
    ensures -1 <= k < |items|
    ensures k >= 0 ==> items[k].id == id
    ensures k < 0 ==> forall i :: 0 <= i < |items| ==> items[i].id != id
  {
    if items == [] then -1
    else if items[0].id == id then 0
    else
      var k := IndexOf(items[1..], id);
      if k < 0 then -1 else k + 1
  }

  /** An item that decrypts replaces the one with its id, or goes last. */
  function MergeOne(m: Merged, remote: RemoteItem): Merged {
    if remote.id == Pull.VAULT_ENVELOPE_ID then m
    else
      match Decrypt(remote.envelope, remote.id)
      case None => m.(failed := m.failed + [remote.id])
      case Some(item) =>
        var k := IndexOf(m.items, item.id);
        Merged(if k >= 0 then m.items[k := item] else m.items + [item], m.revisions.Put(item.id, remote.revision), m.failed)
  }

  function MergeAll(items: seq<Item>, revisions: Record<int>, remotes: seq<RemoteItem>): Merged {
    if remotes == [] then Merged(items, revisions, [])
    else MergeOne(MergeAll(items, revisions, remotes[..|remotes| - 1]), remotes[|remotes| - 1])
  }

  lemma {:induction false} MergeAllValid(items: seq<Item>, revisions: Record<int>, remotes: seq<RemoteItem>)
    requires revisions.Valid()
    ensures MergeAll(items, revisions, remotes).revisions.Valid()
  {
    if remotes != [] {
      var n := |remotes| - 1;
      MergeAllValid(items, revisions, remotes[..n]);
      var before := MergeAll(items, revisions, remotes[..n]);
      match Decrypt(remotes[n].envelope, remotes[n].id) {
        case None =>
        case Some(item) => PutValid(before.revisions, item.id, remotes[n].revision);
      }
    }
  }

  /** `mergeRemoteItems`, up to its one write. */
  method Merge(items: seq<Item>, revisions: Record<int>, remotes: seq<RemoteItem>) returns (m: Merged)
    ensures m == MergeAll(items, revisions, remotes)
  {
    var merged, revisionMap, failed := items, revisions, [];
    for n := 0 to |remotes|
      invariant Merged(merged, revisionMap, failed) == MergeAll(items, revisions, remotes[..n])
    {
      assert remotes[..n + 1][..n] == remotes[..n];
      var remote := remotes[n];
      if remote.id == Pull.VAULT_ENVELOPE_ID { continue; }
      match Decrypt(remote.envelope, remote.id) {
        case None =>
          failed := failed + [remote.id];
        case Some(item) =>
          var k := IndexOf(merged, item.id);
          if k >= 0 { merged := merged[k := item]; } else { merged := merged + [item]; }
          revisionMap := revisionMap.Put(item.id, remote.revision);
      }
    }
    assert remotes[..|remotes|] == remotes;
    m := Merged(merged, revisionMap, failed);
  }

  /** The last entry of the feed for an id, the whole-vault entry aside. */
  function LastEntry(remotes: seq<RemoteItem>, id: string): Option<RemoteItem> {
    if remotes == [] then None
    else
      var last := remotes[|remotes| - 1];
      if last.id == id then Some(last) else LastEntry(remotes[..|remotes| - 1], id)
  }

  ghost predicate HasItem(items: seq<Item>, item: Item) {
    exists k :: 0 <= k < |items| && items[k] == item
  }

  lemma MergeOneUnique(m: Merged, remote: RemoteItem)
    requires UniqueIds(m.items)
    ensures UniqueIds(MergeOne(m, remote).items)
    ensures forall item :: HasItem(m.items, item) && item.id != remote.id ==> HasItem(MergeOne(m, remote).items, item)
  {
    var m' := MergeOne(m, remote);
    forall item | HasItem(m.items, item) && item.id != remote.id ensures HasItem(m'.items, item) {
      var k :| 0 <= k < |m.items| && m.items[k] == item;
      assert m'.items[k] == item;
    }
  }

  ghost predicate AllDecrypt(remotes: seq<RemoteItem>) {
    forall n :: 0 <= n < |remotes| && remotes[n].id != Pull.VAULT_ENVELOPE_ID ==> Decrypt(remotes[n].envelope, remotes[n].id).Some?
  }

  /** Failures are exactly the entries that do not decrypt. */
  lemma {:induction false} MergeFailures(items: seq<Item>, revisions: Record<int>, remotes: seq<RemoteItem>)
    ensures MergeAll(items, revisions, remotes).failed == [] <==> AllDecrypt(remotes)
  {
    if remotes != [] {
      var n := |remotes| - 1;
      MergeFailures(items, revisions, remotes[..n]);
      assert remotes == remotes[..n] + [remotes[n]];
      if AllDecrypt(remotes[..n]) {
        forall j | 0 <= j < n && remotes[j].id != Pull.VAULT_ENVELOPE_ID ensures Decrypt(remotes[j].envelope, remotes[j].id).Some? {
          assert remotes[..n][j] == remotes[j];
        }
      }
    }
  }

  /** The merged vault has the last entry of an id, at its revision. */
  ghost predicate HasLast(m: Merged, last: RemoteItem) {
    && Decrypt(last.envelope, last.id).Some? && HasItem(m.items, Decrypt(last.envelope, last.id).value)
    && m.revisions.Get(last.id) == Some(last.revision)
  }

  lemma MergeOneHas(m: Merged, remote: RemoteItem)
    requires remote.id != Pull.VAULT_ENVELOPE_ID && MergeOne(m, remote).failed == []
    ensures HasLast(MergeOne(m, remote), remote)
  {
    var m' := MergeOne(m, remote);
    var k := IndexOf(m.items, remote.id);
    assert m'.items[if k >= 0 then k else |m.items|] == Decrypt(remote.envelope, remote.id).value;
  }

  lemma MergeOneKeeps(m: Merged, remote: RemoteItem, last: RemoteItem)
    requires UniqueIds(m.items) && remote.id != last.id && HasLast(m, last)
    ensures HasLast(MergeOne(m, remote), last)
  {
    MergeOneUnique(m, remote);
  }

  /**
   * When nothing failed to decrypt, every remote item is in the merged vault, as its last entry has it, at the
   * revision of that entry.
   */
  lemma {:induction false} MergeKeepsLast(items: seq<Item>, revisions: Record<int>, remotes: seq<RemoteItem>, id: string)
    requires UniqueIds(items) && id != Pull.VAULT_ENVELOPE_ID
    ensures var m := MergeAll(items, revisions, remotes);
            && UniqueIds(m.items)
            && (m.failed == [] && LastEntry(remotes, id).Some? ==> HasLast(m, LastEntry(remotes, id).value))
  {
    if remotes != [] {
      var n := |remotes| - 1;
      var before := MergeAll(items, revisions, remotes[..n]);
      MergeKeepsLast(items, revisions, remotes[..n], id);
      MergeOneUnique(before, remotes[n]);
      if MergeOne(before, remotes[n]).failed == [] {
        if remotes[n].id == id {
          MergeOneHas(before, remotes[n]);
        } else if LastEntry(remotes[..n], id).Some? {
          LastEntryId(remotes[..n], id);
          MergeOneKeeps(before, remotes[n], LastEntry(remotes[..n], id).value);
        }
      }
    }
  }

  lemma {:induction false} LastEntryId(remotes: seq<RemoteItem>, id: string)
    requires LastEntry(remotes, id).Some?
    ensures LastEntry(remotes, id).value.id == id
  {
    if remotes[|remotes| - 1].id != id { LastEntryId(remotes[..|remotes| - 1], id); }
  }

  /** An entry of the feed that the merge takes: not the whole-vault envelope, and one that decrypts. */
  predicate Taken(remote: RemoteItem) {
    remote.id != "00000000-0000-4000-8000-000000000001" && Decrypt(remote.envelope, remote.id).Some?
  }

  ghost predicate NoneTaken(remotes: seq<RemoteItem>, id: string) {
    forall n :: 0 <= n < |remotes| && remotes[n].id == id ==> !Taken(remotes[n])
  }

  ghost predicate LastTaken(remotes: seq<RemoteItem>, id: string, n: nat) {
    && n < |remotes| && remotes[n].id == id && Taken(remotes[n])
    && forall j :: n < j < |remotes| && remotes[j].id == id ==> !Taken(remotes[j])
  }

  /** What the vault and the revision map hold for an id after the merge. */
  ghost predicate HoldsFor(m: Merged, id: string, item: Option<Item>, revision: Option<int>) {
    && (forall x: Item :: x.id == id ==> (HasItem(m.items, x) <==> item == Some(x)))
    && m.revisions.Get(id) == revision
  }

  predicate RefusedFor(remote: RemoteItem, id: string) {
    remote.id == id && id != "00000000-0000-4000-8000-000000000001" && !Taken(remote)
  }

  ghost predicate Refused(remotes: seq<RemoteItem>, id: string) {
    exists n :: 0 <= n < |remotes| && RefusedFor(remotes[n], id)
  }

  lemma TakenOne(m: Merged, remote: RemoteItem)
    requires UniqueIds(m.items)
    ensures var m' := MergeOne(m, remote);
            && UniqueIds(m'.items)
            && (Taken(remote) ==> HoldsFor(m', remote.id, Decrypt(remote.envelope, remote.id), Some(remote.revision)))
            && (!Taken(remote) ==> m'.items == m.items && m'.revisions == m.revisions)
  {
    MergeOneUnique(m, remote);
    var m' := MergeOne(m, remote);
    if Taken(remote) {
      var item := Decrypt(remote.envelope, remote.id).value;
      var k := IndexOf(m.items, remote.id);
      assert m'.items[if k >= 0 then k else |m.items|] == item;
    }
  }

  lemma OthersKept(m: Merged, remote: RemoteItem, x: Item)
    requires UniqueIds(m.items) && x.id != remote.id
    ensures HasItem(MergeOne(m, remote).items, x) <==> HasItem(m.items, x)
    ensures MergeOne(m, remote).revisions.Get(x.id) == m.revisions.Get(x.id)
  {
    MergeOneUnique(m, remote);
    var m' := MergeOne(m, remote);
    if HasItem(m'.items, x) {
      var k :| 0 <= k < |m'.items| && m'.items[k] == x;
      assert k < |m.items| && m.items[k] == x;
    }
  }

  lemma KeptFor(m: Merged, remote: RemoteItem, id: string, item: Option<Item>, revision: Option<int>)
    requires UniqueIds(m.items) && HoldsFor(m, id, item, revision) && (remote.id != id || !Taken(remote))
    ensures HoldsFor(MergeOne(m, remote), id, item, revision)
  {
    if remote.id == id {
      TakenOne(m, remote);
    } else {
      forall x: Item | x.id == id
        ensures HasItem(MergeOne(m, remote).items, x) <==> HasItem(m.items, x)
        ensures MergeOne(m, remote).revisions.Get(id) == m.revisions.Get(id)
      {
        OthersKept(m, remote, x);
      }
      OtherRevision(m, remote, id);
    }
  }

  lemma OtherRevision(m: Merged, remote: RemoteItem, id: string)
    requires remote.id != id
    ensures MergeOne(m, remote).revisions.Get(id) == m.revisions.Get(id)
  {}

  /**
   * For every id: the last entry that decrypts decides the item and its revision, and without one both stay what
   * they were locally. The ids reported as failed are those of the entries that do not decrypt.
   */
  lemma {:induction false} MergedExactly(items: seq<Item>, revisions: Record<int>, remotes: seq<RemoteItem>, id: string,
                                         n: nat, item: Option<Item>)
    requires UniqueIds(items) && HoldsFor(Merged(items, revisions, []), id, item, revisions.Get(id))
    ensures var m := MergeAll(items, revisions, remotes);
            && UniqueIds(m.items)
            && (LastTaken(remotes, id, n) ==>
                  HoldsFor(m, id, Decrypt(remotes[n].envelope, id), Some(remotes[n].revision)))
            && (NoneTaken(remotes, id) ==> HoldsFor(m, id, item, revisions.Get(id)))
            && (id in m.failed <==> Refused(remotes, id))
    decreases |remotes|
  {
    if remotes != [] {
      var k := |remotes| - 1;
      var init, last := remotes[..k], remotes[k];
      var before := MergeAll(items, revisions, init);
      MergedExactly(items, revisions, init, id, n, item);
      TakenOne(before, last);
      FailedNext(remotes, id);
      if NoneTaken(remotes, id) {
        NoneBefore(remotes, id);
        KeptFor(before, last, id, item, revisions.Get(id));
      }
      if LastTaken(remotes, id, n) && n < k {
        LastBefore(remotes, id, n);
        KeptFor(before, last, id, Decrypt(remotes[n].envelope, id), Some(remotes[n].revision));
      }
    }
  }

  lemma NoneBefore(remotes: seq<RemoteItem>, id: string)
    requires remotes != [] && NoneTaken(remotes, id)
    ensures NoneTaken(remotes[..|remotes| - 1], id) && (remotes[|remotes| - 1].id != id || !Taken(remotes[|remotes| - 1]))
  {}

  lemma LastBefore(remotes: seq<RemoteItem>, id: string, n: nat)
    requires LastTaken(remotes, id, n) && n < |remotes| - 1
    ensures LastTaken(remotes[..|remotes| - 1], id, n) && remotes[..|remotes| - 1][n] == remotes[n]
    ensures remotes[|remotes| - 1].id != id || !Taken(remotes[|remotes| - 1])
  {}

  lemma FailedNext(remotes: seq<RemoteItem>, id: string)
    requires remotes != []
    ensures var k := |remotes| - 1; Refused(remotes, id) <==> Refused(remotes[..k], id) || RefusedFor(remotes[k], id)
  {
    var k := |remotes| - 1;
    if n :| 0 <= n < k && RefusedFor(remotes[..k][n], id) { assert remotes[n] == remotes[..k][n]; }
    if n :| 0 <= n < |remotes| && RefusedFor(remotes[n], id) {
      if n < k { assert remotes[..k][n] == remotes[n]; }
    }
  }

  /** Merged items take the places of the local ones; items new to the vault come after them. */
  lemma {:induction false} MergeKeepsPlaces(items: seq<Item>, revisions: Record<int>, remotes: seq<RemoteItem>, k: nat)
    requires k < |items|
    ensures var m := MergeAll(items, revisions, remotes);
            k < |m.items| && m.items[k].id == items[k].id
    decreases |remotes|
  {
    if remotes != [] { MergeKeepsPlaces(items, revisions, remotes[..|remotes| - 1], k); }
  }

  // ---------------------------------------------------------------------------
  // The whole recovery
  // ---------------------------------------------------------------------------

  /** `OtherError` stands for every message but the two that report an incomplete roll-back. */
  datatype Outcome = Recovered | ItemsFailed | OtherError | RollbackIncomplete | MetadataNotRolledBack

  /** How a recovery ends, and what then reads back. */
  datatype End = End(outcome: Outcome, view: View)

  /** A failed recovery, after the outer handler has put the revision map back with write `n`. */
  function AbandonEnd(v: View, fails: nat -> bool, n: nat, original: Option<Record<int>>, error: Outcome): End {
    if original.None? then End(error, v)
    else if fails(n) then End(MetadataNotRolledBack, v)
    else End(error, v.(revisions := original))
  }

  /** The recovery from the items on, with `n` the number of the next write. */
  function FinishEnd(v: View, fails: nat -> bool, n: nat, original: Option<Record<int>>, prepared: Option<(string, string)>): End {
    if prepared.None? then AbandonEnd(v, fails, n, original, OtherError)
    else
      var (vault, packet), f := prepared.value, FirstFault(fails, n);
      if f == n + 4 then End(Recovered, View(Some(vault), Some(packet), Empty(), v.revisions))
      else AbandonEnd(Undoing(v, fails, n, f, vault, packet), fails, f + 4, original,
                      if UndoFails(fails, f) then RollbackIncomplete else OtherError)
  }

  /** The whole recovery; `pulled` says that the items come from the feed, and `m` is what they were gathered to. */
  function RecoverEnd(v: View, fails: nat -> bool, n: nat, pulled: bool, m: Option<Merged>,
                      prepare: seq<Item> -> Option<(string, string)>): End {
    if m.None? then End(OtherError, v)
    else if !pulled then FinishEnd(v, fails, n, None, prepare(m.value.items))
    else if fails(n) then AbandonEnd(v, fails, n + 1, v.revisions, OtherError)
    else
      var saved := v.(revisions := Some(m.value.revisions));
      if m.value.failed == [] then FinishEnd(saved, fails, n + 1, v.revisions, prepare(m.value.items))
      else if fails(n + 1) then AbandonEnd(saved, fails, n + 2, v.revisions, OtherError)
      else End(ItemsFailed, v)
  }

  /** Of a pulled feed something is gathered only when the revision map could be read. */
  predicate Gatherable(v: View, pulled: bool, m: Option<Merged>) {
    (pulled && m.Some? ==> v.revisions.Some?) && (!pulled ==> m.Some? && m.value.failed == [])
  }

  /**
   * Exactly when the message is that the local roll-back is incomplete: a write of the commit failed, and one of the
   * three that undo it, and the revision map, if there was one to put back, was put back. What stays is, key by key,
   * what was written and could not be undone.
   */
  lemma RollbackIncompleteExactly(v: View, fails: nat -> bool, n: nat, pulled: bool, m: Option<Merged>,
                                  prepare: seq<Item> -> Option<(string, string)>)
    requires Gatherable(v, pulled, m)
    ensures var first := if pulled then n + 1 else n;
            var e, f := RecoverEnd(v, fails, n, pulled, m, prepare), FirstFault(fails, first);
            && (e.outcome == RollbackIncomplete <==>
                  && m.Some? && m.value.failed == [] && (pulled ==> !fails(n)) && prepare(m.value.items).Some?
                  && f < first + 4 && UndoFails(fails, f) && (pulled ==> !fails(f + 4)))
            && (e.outcome == RollbackIncomplete ==>
                  var (vault, packet) := prepare(m.value.items).value; e.view == Undoing(v, fails, first, f, vault, packet))
  {}

  /**
   * Exactly when the message is that the revision map was not rolled back: the last write tried, the one that puts it
   * back, failed. The map stays as it was if saving the merged one had failed, and is the merged one otherwise; the
   * other keys are as a failed commit leaves them, if there was one.
   */
  lemma MetadataNotRolledBackExactly(v: View, fails: nat -> bool, n: nat, pulled: bool, m: Option<Merged>,
                                     prepare: seq<Item> -> Option<(string, string)>)
    requires Gatherable(v, pulled, m)
    ensures var e, f := RecoverEnd(v, fails, n, pulled, m, prepare), FirstFault(fails, n + 1);
            && (e.outcome == MetadataNotRolledBack <==>
                  && pulled && m.Some?
                  && if fails(n) then fails(n + 1)
                     else if m.value.failed != [] then fails(n + 1) && fails(n + 2)
                     else if prepare(m.value.items).None? then fails(n + 1)
                     else f < n + 5 && fails(f + 4))
            && (e.outcome == MetadataNotRolledBack ==>
                  e.view == if fails(n) then v
                            else if m.value.failed != [] || prepare(m.value.items).None?
                            then v.(revisions := Some(m.value.revisions))
                            else var (vault, packet) := prepare(m.value.items).value;
                                 Undoing(v, fails, n + 1, f, vault, packet).(revisions := Some(m.value.revisions)))
  {}

  /** Success is the new vault, the new packet and nothing pending; any other error leaves everything as it was. */
  lemma OtherwiseAllOrNothing(v: View, fails: nat -> bool, n: nat, pulled: bool, m: Option<Merged>,
                              prepare: seq<Item> -> Option<(string, string)>)
    requires Gatherable(v, pulled, m)
    ensures var e := RecoverEnd(v, fails, n, pulled, m, prepare);
            && (e.outcome == Recovered ==>
                  && m.Some? && m.value.failed == [] && prepare(m.value.items).Some?
                  && e.view == View(Some(prepare(m.value.items).value.0), Some(prepare(m.value.items).value.1), Empty(),
                                    if pulled then Some(m.value.revisions) else v.revisions))
            && (e.outcome == ItemsFailed || e.outcome == OtherError ==> e.view == v)
            && ((forall k :: n <= k ==> !fails(k)) ==>
                  e.outcome == if m.None? then OtherError
                               else if m.value.failed != [] then ItemsFailed
                               else if prepare(m.value.items).None? then OtherError else Recovered)
  {}

  /** One fault alone never leaves the commit half undone, and leaves the merged revision map in one case. */
  lemma OneFaultEnds(v: View, fails: nat -> bool, n: nat, pulled: bool, m: Option<Merged>,
                     prepare: seq<Item> -> Option<(string, string)>)
    requires Gatherable(v, pulled, m) && OneFault(fails)
    ensures var e := RecoverEnd(v, fails, n, pulled, m, prepare);
            && e.outcome != RollbackIncomplete
            && (e.outcome == MetadataNotRolledBack <==>
                  pulled && m.Some? && m.value.failed == [] && prepare(m.value.items).None? && fails(n + 1))
            && (e.outcome == MetadataNotRolledBack ==> e.view == v.(revisions := Some(m.value.revisions)))
  {
    RollbackIncompleteExactly(v, fails, n, pulled, m, prepare);
    MetadataNotRolledBackExactly(v, fails, n, pulled, m, prepare);
  }

  /** What a failed recovery answers. */
  method Abandon(storage: LocalStorage, json: Json, original: Option<Record<int>>, error: Outcome) returns (r: Outcome)
    requires RoundTrips(json) && (original.Some? ==> original.value.Valid())
    requires error == OtherError || error == RollbackIncomplete
    modifies storage
    ensures End(r, Read(storage.items, json)) ==
            AbandonEnd(Read(old(storage.items), json), storage.fails, old(storage.writes), original, error)
  {
    r := error;
    if original.Some? {
      var ok := storage.SetItem(RevisionsKey, json.writeRevisions(original.value));
      if !ok { r := MetadataNotRolledBack; }
    }
  }

  /** What the recovery starts from: the local items, or those merged from the feed; `None` if the revision map is malformed. */
  function Gathered(items: map<Key, string>, json: Json, local: seq<Item>, remotes: Option<seq<RemoteItem>>): Option<Merged> {
    if remotes.None? then Some(Merged(local, Empty(), []))
    else
      var revisions := LoadRevisions(items, json);
      if revisions.None? then None else Some(MergeAll(local, revisions.value, remotes.value))
  }

  /** The merged revision map is saved, and put back when an item did not decrypt; `None` is to go on. */
  method SaveMerged(storage: LocalStorage, json: Json, original: Record<int>, m: Merged) returns (r: Option<Outcome>)
    requires RoundTrips(json) && original.Valid() && m.revisions.Valid()
    requires LoadRevisions(storage.items, json) == Some(original)
    modifies storage
    ensures r.None? <==> m.failed == [] && !storage.fails(old(storage.writes))
    ensures r.None? ==>
              && storage.writes == old(storage.writes) + 1
              && Read(storage.items, json) == Read(old(storage.items), json).(revisions := Some(m.revisions))
    ensures r.Some? ==>
              var v, n := Read(old(storage.items), json), old(storage.writes);
              End(r.value, Read(storage.items, json)) ==
              if storage.fails(n) then AbandonEnd(v, storage.fails, n + 1, v.revisions, OtherError)
              else if storage.fails(n + 1)
              then AbandonEnd(v.(revisions := Some(m.revisions)), storage.fails, n + 2, v.revisions, OtherError)
              else End(ItemsFailed, v)
  {
    var saved := storage.SetItem(RevisionsKey, json.writeRevisions(m.revisions));
    if saved {
      if m.failed == [] { return None; }
      saved := storage.SetItem(RevisionsKey, json.writeRevisions(original));
      if saved { return Some(ItemsFailed); }
    }
    var error := Abandon(storage, json, Some(original), OtherError);
    r := Some(error);
  }

  /** The recovery from `items` on: preparing the new vault and committing it. */
  method Finish(storage: LocalStorage, json: Json, original: Option<Record<int>>, items: seq<Item>,
                prepare: seq<Item> -> Option<(string, string)>)
    returns (r: Outcome)
    requires RoundTrips(json) && (original.Some? ==> original.value.Valid())
    modifies storage
    ensures End(r, Read(storage.items, json)) ==
            FinishEnd(Read(old(storage.items), json), storage.fails, old(storage.writes), original, prepare(items))
  {
    var prepared := prepare(items);
    if prepared.None? { r := Abandon(storage, json, original, OtherError); return; }
    var committed := Commit(storage, json, prepared.value.0, prepared.value.1);
    match committed {
      case Committed => r := Recovered;
      case Undone => r := Abandon(storage, json, original, OtherError);
      case RollbackFailed => r := Abandon(storage, json, original, RollbackIncomplete);
    }
  }

  /** The steps of `Recover`. */
  method RunRecovery(storage: LocalStorage, json: Json, local: seq<Item>, remotes: Option<seq<RemoteItem>>,
                     prepare: seq<Item> -> Option<(string, string)>)
    returns (r: Outcome)
    requires RoundTrips(json)
    modifies storage
    ensures End(r, Read(storage.items, json)) ==
            RecoverEnd(Read(old(storage.items), json), storage.fails, old(storage.writes), remotes.Some?,
                       Gathered(old(storage.items), json, local, remotes), prepare)
  {
    var original, items := None, local;
    if remotes.Some? {
      original := LoadRevisions(storage.items, json);
      if original.None? { return OtherError; }
      MergeAllValid(local, original.value, remotes.value);
      var m := Merge(local, original.value, remotes.value);
      var early := SaveMerged(storage, json, original.value, m);
      if early.Some? { return early.value; }
      items := m.items;
    }
    r := Finish(storage, json, original, items, prepare);
  }

  /**
   * The storage side of `handleRecoverVault`. `remotes` is the pulled feed when there is no local vault; `prepare`
   * stands for opening the packet, creating, sealing and verifying, and throws when it returns `None`. Success is
   * the new vault, the new packet and nothing pending; any error but the two that say so leaves everything as it
   * was. When the two are answered, and what then reads back, is exact in the numbers of the failing writes
   * (`RollbackIncompleteExactly`, `MetadataNotRolledBackExactly`). One failing write alone never causes the first; it
   * causes the second exactly when it is the write that puts the revision map back after `prepare` threw, and the
   * merged map is then what stays.
   */
  method Recover(storage: LocalStorage, json: Json, local: seq<Item>, remotes: Option<seq<RemoteItem>>,
                 prepare: seq<Item> -> Option<(string, string)>)
    returns (r: Outcome)
    requires RoundTrips(json)
    modifies storage
    ensures End(r, Read(storage.items, json)) ==
            RecoverEnd(Read(old(storage.items), json), storage.fails, old(storage.writes), remotes.Some?,
                       Gathered(old(storage.items), json, local, remotes), prepare)
    ensures var m := Gathered(old(storage.items), json, local, remotes);
            r == Recovered ==>
              && m.Some? && m.value.failed == [] && prepare(m.value.items).Some?
              && Read(storage.items, json) ==
                 View(Some(prepare(m.value.items).value.0), Some(prepare(m.value.items).value.1), Empty(),
                      if remotes.Some? then Some(m.value.revisions) else LoadRevisions(old(storage.items), json))
    ensures r == ItemsFailed || r == OtherError ==> Read(storage.items, json) == Read(old(storage.items), json)
    ensures var m := Gathered(old(storage.items), json, local, remotes);
            (forall k :: old(storage.writes) <= k ==> !storage.fails(k)) ==>
              r == if m.None? then OtherError
                   else if m.value.failed != [] then ItemsFailed
                   else if prepare(m.value.items).None? then OtherError else Recovered
    ensures OneFault(storage.fails) ==> r != RollbackIncomplete
    ensures var m := Gathered(old(storage.items), json, local, remotes);
            OneFault(storage.fails) ==>
              (r == MetadataNotRolledBack <==>
                 remotes.Some? && m.Some? && m.value.failed == [] && prepare(m.value.items).None? &&
                 storage.fails(old(storage.writes) + 1))
    ensures var m := Gathered(old(storage.items), json, local, remotes);
            OneFault(storage.fails) && r == MetadataNotRolledBack ==>
              Read(storage.items, json) == Read(old(storage.items), json).(revisions := Some(m.value.revisions))
  {
    ghost var v, n := Read(storage.items, json), storage.writes;
    ghost var gathered := Gathered(storage.items, json, local, remotes);
    r := RunRecovery(storage, json, local, remotes, prepare);
    OtherwiseAllOrNothing(v, storage.fails, n, remotes.Some?, gathered, prepare);
    if OneFault(storage.fails) { OneFaultEnds(v, storage.fails, n, remotes.Some?, gathered, prepare); }
  }
}
