/** The answer to a pushed plan: when it is accepted, and what it does to the client's state. */
module PushReplies {
  import opened Seqs
  import opened ItemSync
  import opened PlanLaws

  datatype Operation = OnUpsert | OnDelete

  function OperationOf(op: Op): Operation { if op.Upsert? then OnUpsert else OnDelete }

  datatype Receipt = Receipt(clientMutationId: string, itemId: string, operation: Operation, appliedItemRevision: int)

  datatype Conflict = Conflict(itemId: string, operation: Operation, reason: string, clientBaseRevision: int,
                               serverItemRevision: Option<int>)

  datatype PushReply = PushReply(serverRevision: int, receipts: seq<Receipt>, conflicts: seq<Conflict>)

  datatype Fault = ReceiptInvalid | ConflictInvalid | ReceiptMissing | NoAnswer
                 | CursorInvalid | OwnerMismatch | DecryptFailed | PageLimit

  // ---------------------------------------------------------------------------
  // Acceptance
  // ---------------------------------------------------------------------------

  predicate ReceiptFits(r: Receipt, op: Op, serverRevision: int) {
    && r.clientMutationId == op.clientMutationId && r.itemId == op.id && r.operation == OperationOf(op)
    && op.baseItemRevision < r.appliedItemRevision <= serverRevision
  }

  predicate ConflictFits(c: Conflict, op: Op) {
    c.itemId == op.id && c.operation == OperationOf(op) && c.clientBaseRevision == op.baseItemRevision
  }

  ghost predicate ReceiptsOk(ops: seq<Op>, receipts: seq<Receipt>, serverRevision: int) {
    && (forall r :: r in receipts ==> exists op :: op in ops && ReceiptFits(r, op, serverRevision))
    && forall i, j :: 0 <= i < j < |receipts| ==> receipts[i].clientMutationId != receipts[j].clientMutationId
  }

  ghost predicate ConflictsOk(ops: seq<Op>, receipts: seq<Receipt>, conflicts: seq<Conflict>) {
    && (forall c :: c in conflicts ==> exists op :: op in ops && ConflictFits(c, op))
    && (forall i, j :: 0 <= i < j < |conflicts| ==> conflicts[i].itemId != conflicts[j].itemId)
    && forall c, r :: c in conflicts && r in receipts ==> c.itemId != r.itemId
  }

  /** What makes a reply unacceptable, in the order the client looks. */
  ghost function ReplyFault(ops: seq<Op>, current: int, reply: PushReply): Option<Fault> {
    if reply.serverRevision < current || !ReceiptsOk(ops, reply.receipts, reply.serverRevision) then Some(ReceiptInvalid)
    else if !ConflictsOk(ops, reply.receipts, reply.conflicts) then Some(ConflictInvalid)
    else if |reply.receipts| + |reply.conflicts| != |ops| then Some(ReceiptMissing)
    else None
  }

  /** Exactly one receipt or exactly one conflict answers the operation, never both. */
  ghost predicate AnsweredOnce(op: Op, reply: PushReply) {
    if exists i :: 0 <= i < |reply.receipts| && reply.receipts[i].clientMutationId == op.clientMutationId
    then
      && (exists i :: 0 <= i < |reply.receipts| && ReceiptFits(reply.receipts[i], op, reply.serverRevision)
            && forall j :: 0 <= j < |reply.receipts| && reply.receipts[j].itemId == op.id ==> j == i)
      && (forall c :: c in reply.conflicts ==> c.itemId != op.id)
    else
      exists i :: 0 <= i < |reply.conflicts| && ConflictFits(reply.conflicts[i], op)
        && (forall j :: 0 <= j < |reply.conflicts| && reply.conflicts[j].itemId == op.id ==> j == i)
        && (forall r :: r in reply.receipts ==> r.itemId != op.id)
  }

  lemma SameOpById(ops: seq<Op>, a: Op, b: Op)
    requires MeetsSchema(ops) && a in ops && b in ops
    requires a.id == b.id || a.clientMutationId == b.clientMutationId
    ensures a == b
  {
    var i :| 0 <= i < |ops| && ops[i] == a;
    var j :| 0 <= j < |ops| && ops[j] == b;
    assert OpIds(ops)[i] == a.id && OpIds(ops)[j] == b.id;
    assert MutationIds(ops)[i] == a.clientMutationId && MutationIds(ops)[j] == b.clientMutationId;
  }

  function ReceiptIds(receipts: seq<Receipt>): seq<string> {
    seq(|receipts|, i requires 0 <= i < |receipts| => receipts[i].itemId)
  }

  function ConflictIds(conflicts: seq<Conflict>): seq<string> {
    seq(|conflicts|, i requires 0 <= i < |conflicts| => conflicts[i].itemId)
  }

  lemma ReceiptItemsDistinct(ops: seq<Op>, receipts: seq<Receipt>, serverRevision: int)
    requires MeetsSchema(ops) && ReceiptsOk(ops, receipts, serverRevision)
    ensures NoDup(ReceiptIds(receipts))
  {
    forall i, j | 0 <= i < j < |receipts| ensures receipts[i].itemId != receipts[j].itemId {
      assert receipts[i] in receipts && receipts[j] in receipts;
      var a :| a in ops && ReceiptFits(receipts[i], a, serverRevision);
      var b :| b in ops && ReceiptFits(receipts[j], b, serverRevision);
      if a.id == b.id { SameOpById(ops, a, b); }
    }
  }

  /** The answers of an accepted reply name every submitted id (a pigeonhole count). */
  lemma AnswersCover(ops: seq<Op>, current: int, reply: PushReply)
    requires MeetsSchema(ops) && ReplyFault(ops, current, reply).None?
    ensures NoDup(ReceiptIds(reply.receipts)) && NoDup(ConflictIds(reply.conflicts))
    ensures Elements(ReceiptIds(reply.receipts)) !! Elements(ConflictIds(reply.conflicts))
    ensures Elements(ReceiptIds(reply.receipts)) + Elements(ConflictIds(reply.conflicts)) == Elements(OpIds(ops))
  {
    var r, c, o := ReceiptIds(reply.receipts), ConflictIds(reply.conflicts), OpIds(ops);
    ReceiptItemsDistinct(ops, reply.receipts, reply.serverRevision);
    NoDupSize(r);
    NoDupSize(c);
    NoDupSize(o);
    forall k | k in r ensures k in o && k !in c {
      var i :| 0 <= i < |r| && r[i] == k;
      assert reply.receipts[i] in reply.receipts;
      var op :| op in ops && ReceiptFits(reply.receipts[i], op, reply.serverRevision);
      OpIdsHas(ops, op);
    }
    forall k | k in c ensures k in o {
      var i :| 0 <= i < |c| && c[i] == k;
      assert reply.conflicts[i] in reply.conflicts;
      var op :| op in ops && ConflictFits(reply.conflicts[i], op);
      OpIdsHas(ops, op);
    }
    assert Elements(r) * Elements(c) == {};
    SubsetFull(Elements(r) + Elements(c), Elements(o));
  }

  lemma OpIdsHas(ops: seq<Op>, op: Op)
    requires op in ops
    ensures op.id in OpIds(ops)
  {
    var i :| 0 <= i < |ops| && ops[i] == op;
    assert OpIds(ops)[i] == op.id;
  }

  lemma SubsetFull<T>(a: set<T>, b: set<T>)
    requires a <= b && |a| == |b|
    ensures a == b
  {
    if x :| x in b && x !in a {
      assert a + {x} <= b;
      SubsetSize(a + {x}, b);
    }
  }

  lemma SubsetSize<T>(a: set<T>, b: set<T>)
    requires a <= b
    ensures |a| <= |b|
  {
    assert b == a + (b - a);
  }

  /** An accepted reply answers every operation exactly once, as a receipt or as a conflict. */
  lemma AcceptedAnswersOnce(ops: seq<Op>, current: int, reply: PushReply)
    requires MeetsSchema(ops) && ReplyFault(ops, current, reply).None?
    ensures forall op :: op in ops ==> AnsweredOnce(op, reply)
  {
    var r, c := ReceiptIds(reply.receipts), ConflictIds(reply.conflicts);
    AnswersCover(ops, current, reply);
    forall op | op in ops ensures AnsweredOnce(op, reply) {
      OpIdsHas(ops, op);
      assert op.id in Elements(r) + Elements(c);
      if op.id in r {
        var i :| 0 <= i < |r| && r[i] == op.id;
        assert reply.receipts[i] in reply.receipts;
        var o :| o in ops && ReceiptFits(reply.receipts[i], o, reply.serverRevision);
        SameOpById(ops, o, op);
        assert forall j :: 0 <= j < |r| && reply.receipts[j].itemId == op.id ==> r[j] == r[i];
        assert forall k :: k in reply.conflicts ==> k.itemId != op.id;
      } else {
        var i :| 0 <= i < |c| && c[i] == op.id;
        assert reply.conflicts[i] in reply.conflicts;
        var o :| o in ops && ConflictFits(reply.conflicts[i], o);
        SameOpById(ops, o, op);
        assert forall j :: 0 <= j < |c| && reply.conflicts[j].itemId == op.id ==> c[j] == c[i];
        forall k | 0 <= k < |r| ensures reply.receipts[k].itemId != op.id && reply.receipts[k].clientMutationId != op.clientMutationId {
          assert r[k] in r && reply.receipts[k] in reply.receipts;
          var p :| p in ops && ReceiptFits(reply.receipts[k], p, reply.serverRevision);
          if p.clientMutationId == op.clientMutationId { SameOpById(ops, p, op); }
        }
      }
    }
  }

  /**
   * Answer number `k` of a reply, receipts first, is about this operation: a receipt with its mutation id, item and
   * kind, at a revision above the one it was made against and not above the server's; or a conflict with its item,
   * kind and base revision.
   */
  predicate Answers(op: Op, reply: PushReply, k: nat)
    requires k < |reply.receipts| + |reply.conflicts|
  {
    if k < |reply.receipts| then
      var r := reply.receipts[k];
      && r.clientMutationId == op.clientMutationId && r.itemId == op.id && (r.operation == OnUpsert <==> op.Upsert?)
      && op.baseItemRevision < r.appliedItemRevision && r.appliedItemRevision <= reply.serverRevision
    else
      var c := reply.conflicts[k - |reply.receipts|];
      c.itemId == op.id && (c.operation == OnUpsert <==> op.Upsert?) && c.clientBaseRevision == op.baseItemRevision
  }

  ghost predicate IsAnswer(ops: seq<Op>, reply: PushReply, k: nat)
    requires k < |reply.receipts| + |reply.conflicts|
  {
    exists op :: op in ops && Answers(op, reply, k)
  }

  lemma AnswerOf(ops: seq<Op>, reply: PushReply, k: nat) returns (op: Op)
    requires k < |reply.receipts| + |reply.conflicts| && IsAnswer(ops, reply, k)
    ensures op in ops && Answers(op, reply, k)
  {
    op :| op in ops && Answers(op, reply, k);
  }

  /** Each of the first `n` answers is about an operation, and no two are about the same. */
  ghost predicate Matched(ops: seq<Op>, reply: PushReply, n: nat)
    requires n <= |reply.receipts| + |reply.conflicts|
  {
    && (forall k :: 0 <= k < n ==> IsAnswer(ops, reply, k))
    && forall op, j, k :: op in ops && 0 <= j < k < n ==> !(Answers(op, reply, j) && Answers(op, reply, k))
  }

  ghost predicate AllAnswered(ops: seq<Op>, reply: PushReply) {
    forall op :: op in ops ==> exists k :: 0 <= k < |reply.receipts| + |reply.conflicts| && Answers(op, reply, k)
  }

  lemma ReceiptsMatched(ops: seq<Op>, reply: PushReply)
    requires MeetsSchema(ops)
    ensures ReceiptsOk(ops, reply.receipts, reply.serverRevision) <==> Matched(ops, reply, |reply.receipts|)
  {
    var n := |reply.receipts|;
    if ReceiptsOk(ops, reply.receipts, reply.serverRevision) {
      forall k | 0 <= k < n ensures IsAnswer(ops, reply, k) {
        assert reply.receipts[k] in reply.receipts;
        var op :| op in ops && ReceiptFits(reply.receipts[k], op, reply.serverRevision);
        assert Answers(op, reply, k);
      }
    } else if Matched(ops, reply, n) {
      forall r | r in reply.receipts ensures exists op :: op in ops && ReceiptFits(r, op, reply.serverRevision) {
        var k :| 0 <= k < n && reply.receipts[k] == r;
        var op := AnswerOf(ops, reply, k);
        assert ReceiptFits(r, op, reply.serverRevision);
      }
      forall j, k | 0 <= j < k < n ensures reply.receipts[j].clientMutationId != reply.receipts[k].clientMutationId {
        var a := AnswerOf(ops, reply, j);
        var b := AnswerOf(ops, reply, k);
        if a.clientMutationId == b.clientMutationId { SameOpById(ops, a, b); }
      }
    }
  }

  /** An answer names the item of the operation it is about. */
  function AnsweredId(reply: PushReply, k: nat): string
    requires k < |reply.receipts| + |reply.conflicts|
  {
    if k < |reply.receipts| then reply.receipts[k].itemId else reply.conflicts[k - |reply.receipts|].itemId
  }

  /** Two answers that are about operations are about the same one exactly when they name the same item. */
  lemma SameItemTwice(ops: seq<Op>, reply: PushReply, j: nat, k: nat)
    requires MeetsSchema(ops) && j < k < |reply.receipts| + |reply.conflicts|
    requires IsAnswer(ops, reply, j) && IsAnswer(ops, reply, k)
    ensures AnsweredId(reply, j) == AnsweredId(reply, k) <==>
            exists op :: op in ops && Answers(op, reply, j) && Answers(op, reply, k)
  {
    var a := AnswerOf(ops, reply, j);
    var b := AnswerOf(ops, reply, k);
    if a.id == b.id { SameOpById(ops, a, b); }
  }

  lemma ConflictAnswers(ops: seq<Op>, reply: PushReply, k: nat)
    requires |reply.receipts| <= k < |reply.receipts| + |reply.conflicts|
    ensures (exists op :: op in ops && ConflictFits(reply.conflicts[k - |reply.receipts|], op)) <==> IsAnswer(ops, reply, k)
  {
    var c := reply.conflicts[k - |reply.receipts|];
    if op :| op in ops && ConflictFits(c, op) { assert Answers(op, reply, k); }
    if op :| op in ops && Answers(op, reply, k) { assert ConflictFits(c, op); }
  }

  ghost predicate AboutDistinctItems(reply: PushReply) {
    forall j, k :: 0 <= j < k < |reply.receipts| + |reply.conflicts| ==> AnsweredId(reply, j) != AnsweredId(reply, k)
  }

  lemma MatchedIs(ops: seq<Op>, reply: PushReply)
    requires MeetsSchema(ops)
    ensures var n := |reply.receipts| + |reply.conflicts|;
            Matched(ops, reply, n) <==>
              (forall k :: 0 <= k < n ==> IsAnswer(ops, reply, k)) && AboutDistinctItems(reply)
  {
    var n := |reply.receipts| + |reply.conflicts|;
    if Matched(ops, reply, n) {
      forall j, k | 0 <= j < k < n ensures AnsweredId(reply, j) != AnsweredId(reply, k) { SameItemTwice(ops, reply, j, k); }
    } else if AboutDistinctItems(reply) {
      forall op, j, k | op in ops && 0 <= j < k < n ensures !(Answers(op, reply, j) && Answers(op, reply, k)) {
        assert AnsweredId(reply, j) != AnsweredId(reply, k);
      }
    }
  }

  lemma ConflictsMatched(ops: seq<Op>, reply: PushReply)
    requires MeetsSchema(ops) && ReceiptsOk(ops, reply.receipts, reply.serverRevision)
    ensures ConflictsOk(ops, reply.receipts, reply.conflicts) <==>
            Matched(ops, reply, |reply.receipts| + |reply.conflicts|)
  {
    var m := |reply.receipts|;
    var n := m + |reply.conflicts|;
    ReceiptsMatched(ops, reply);
    MatchedIs(ops, reply);
    ReceiptItemsDistinct(ops, reply.receipts, reply.serverRevision);
    forall k | m <= k < n
      ensures (exists op :: op in ops && ConflictFits(reply.conflicts[k - m], op)) <==> IsAnswer(ops, reply, k)
    {
      ConflictAnswers(ops, reply, k);
    }
    if ConflictsOk(ops, reply.receipts, reply.conflicts) {
      ConflictsAreMatched(ops, reply);
    } else if Matched(ops, reply, n) {
      MatchedConflicts(ops, reply);
    }
  }

  lemma ConflictsAreMatched(ops: seq<Op>, reply: PushReply)
    requires MeetsSchema(ops) && ConflictsOk(ops, reply.receipts, reply.conflicts)
    requires Matched(ops, reply, |reply.receipts|) && NoDup(ReceiptIds(reply.receipts))
    ensures Matched(ops, reply, |reply.receipts| + |reply.conflicts|)
  {
    var m := |reply.receipts|;
    var n := m + |reply.conflicts|;
    MatchedIs(ops, reply);
    forall k | m <= k < n ensures IsAnswer(ops, reply, k) {
      assert reply.conflicts[k - m] in reply.conflicts;
      ConflictAnswers(ops, reply, k);
    }
    forall j, k | 0 <= j < k < n ensures AnsweredId(reply, j) != AnsweredId(reply, k) {
      if k < m {
        assert ReceiptIds(reply.receipts)[j] != ReceiptIds(reply.receipts)[k];
      } else if j < m {
        assert reply.receipts[j] in reply.receipts && reply.conflicts[k - m] in reply.conflicts;
      }
    }
  }

  lemma MatchedConflicts(ops: seq<Op>, reply: PushReply)
    requires MeetsSchema(ops) && Matched(ops, reply, |reply.receipts| + |reply.conflicts|)
    ensures ConflictsOk(ops, reply.receipts, reply.conflicts)
  {
    var m := |reply.receipts|;
    MatchedIs(ops, reply);
    forall c | c in reply.conflicts ensures exists op :: op in ops && ConflictFits(c, op) {
      var i :| 0 <= i < |reply.conflicts| && reply.conflicts[i] == c;
      ConflictAnswers(ops, reply, m + i);
    }
    forall i, j | 0 <= i < j < |reply.conflicts| ensures reply.conflicts[i].itemId != reply.conflicts[j].itemId {
      assert AnsweredId(reply, m + i) != AnsweredId(reply, m + j);
    }
    forall c, r | c in reply.conflicts && r in reply.receipts ensures c.itemId != r.itemId {
      var i :| 0 <= i < |reply.conflicts| && reply.conflicts[i] == c;
      var j :| 0 <= j < m && reply.receipts[j] == r;
      assert AnsweredId(reply, j) != AnsweredId(reply, m + i);
    }
  }

  function AnsweredIds(reply: PushReply): seq<string> {
    ReceiptIds(reply.receipts) + ConflictIds(reply.conflicts)
  }

  /** Of matched answers there are as many as operations if and only if every operation has one. */
  lemma CountAnswers(ops: seq<Op>, reply: PushReply)
    requires MeetsSchema(ops) && Matched(ops, reply, |reply.receipts| + |reply.conflicts|)
    ensures |reply.receipts| + |reply.conflicts| == |ops| <==> AllAnswered(ops, reply)
  {
    var n, a, o := |reply.receipts| + |reply.conflicts|, AnsweredIds(reply), OpIds(ops);
    MatchedIs(ops, reply);
    forall j, k | 0 <= j < k < n ensures a[j] != a[k] { assert AnsweredId(reply, j) != AnsweredId(reply, k); }
    NoDupSize(a);
    NoDupSize(o);
    forall k | 0 <= k < n ensures a[k] in o {
      var op := AnswerOf(ops, reply, k);
      OpIdsHas(ops, op);
    }
    assert Elements(a) <= Elements(o);
    if |a| == |o| { SubsetFull(Elements(a), Elements(o)); }
    if AllAnswered(ops, reply) {
      forall id | id in o ensures id in a { OpIsAnswered(ops, reply, id); }
      assert Elements(a) == Elements(o);
    } else if |a| == |o| {
      var op :| op in ops && forall k :: 0 <= k < n ==> !Answers(op, reply, k);
      OpIdsHas(ops, op);
      assert op.id in Elements(a);
      var k :| 0 <= k < |a| && a[k] == op.id;
      var p := AnswerOf(ops, reply, k);
      SameOpById(ops, p, op);
    }
  }

  lemma OpIsAnswered(ops: seq<Op>, reply: PushReply, id: string)
    requires AllAnswered(ops, reply) && id in OpIds(ops)
    ensures id in AnsweredIds(reply)
  {
    var i :| 0 <= i < |ops| && OpIds(ops)[i] == id;
    assert ops[i] in ops;
    var k :| 0 <= k < |reply.receipts| + |reply.conflicts| && Answers(ops[i], reply, k);
    assert AnsweredIds(reply)[k] == id;
  }

  /**
   * What is accepted, and why something is not. A reply is accepted if and only if the server's revision has not
   * gone back and its answers and the operations match one to one. An answer that is about no operation, or about one
   * already answered, refuses the reply by the first kind of answer in which it occurs; an operation left without an
   * answer refuses it last.
   */
  lemma RefusedExactlyFor(ops: seq<Op>, current: int, reply: PushReply)
    requires MeetsSchema(ops)
    ensures var f, m := ReplyFault(ops, current, reply), |reply.receipts|;
            var n := m + |reply.conflicts|;
            && (f.None? <==> current <= reply.serverRevision && Matched(ops, reply, n) && AllAnswered(ops, reply))
            && (f == Some(ReceiptInvalid) <==> reply.serverRevision < current || !Matched(ops, reply, m))
            && (f == Some(ConflictInvalid) <==>
                  current <= reply.serverRevision && Matched(ops, reply, m) && !Matched(ops, reply, n))
            && (f == Some(ReceiptMissing) <==>
                  current <= reply.serverRevision && Matched(ops, reply, n) && !AllAnswered(ops, reply))
  {
    ReceiptsMatched(ops, reply);
    if ReceiptsOk(ops, reply.receipts, reply.serverRevision) {
      ConflictsMatched(ops, reply);
      if ConflictsOk(ops, reply.receipts, reply.conflicts) { CountAnswers(ops, reply); }
    }
  }

  /** `[...operations.values()].find(({ item }) => item.id === id)`. */
  method FindById(ops: seq<Op>, id: string) returns (found: Option<Op>)
    ensures found.Some? ==> found.value in ops && found.value.id == id
    ensures found.None? ==> forall op :: op in ops ==> op.id != id
  {
    for i := 0 to |ops|
      invariant forall j :: 0 <= j < i ==> ops[j].id != id
    {
      if ops[i].id == id { return Some(ops[i]); }
    }
    return None;
  }

  /** The checks `syncVault` makes before a reply may touch its state. */
  method CheckReply(ops: seq<Op>, current: int, reply: PushReply) returns (fault: Option<Fault>)
    requires MeetsSchema(ops)
    ensures fault == ReplyFault(ops, current, reply)
    ensures fault.None? <==>
              && current <= reply.serverRevision && Matched(ops, reply, |reply.receipts| + |reply.conflicts|)
              && AllAnswered(ops, reply)
  {
    RefusedExactlyFor(ops, current, reply);
    if reply.serverRevision < current { return Some(ReceiptInvalid); }
    var operations := ByMutation(ops);
    var seen := CheckReceipts(ops, operations, reply);
    if seen.None? { return Some(ReceiptInvalid); }
    var fits := CheckConflicts(ops, seen.value, reply);
    if !fits { return Some(ConflictInvalid); }
    OneEntryPerOp(ops, operations);
    if |reply.receipts| + |reply.conflicts| != |operations| { return Some(ReceiptMissing); }
    return None;
  }

  /** The map from mutation ids to the operations sent. */
  ghost predicate Indexes(operations: map<string, Op>, ops: seq<Op>) {
    && (forall m :: m in operations ==> operations[m] in ops && operations[m].clientMutationId == m)
    && forall op :: op in ops ==> op.clientMutationId in operations
  }

  method ByMutation(ops: seq<Op>) returns (operations: map<string, Op>)
    ensures Indexes(operations, ops)
  {
    operations := map[];
    for i := 0 to |ops|
      invariant Indexes(operations, ops[..i])
    {
      assert ops[..i + 1] == ops[..i] + [ops[i]];
      operations := operations[ops[i].clientMutationId := ops[i]];
    }
    assert ops[..|ops|] == ops;
  }

  /** The mutation ids of the receipts. */
  ghost predicate SeenIn(seen: set<string>, receipts: seq<Receipt>) {
    forall m :: m in seen <==> exists j :: 0 <= j < |receipts| && receipts[j].clientMutationId == m
  }

  lemma SeenNext(seen: set<string>, receipts: seq<Receipt>, receipt: Receipt)
    requires SeenIn(seen, receipts)
    ensures SeenIn(seen + {receipt.clientMutationId}, receipts + [receipt])
  {
    var more := receipts + [receipt];
    forall m | m in seen + {receipt.clientMutationId}
      ensures exists j :: 0 <= j < |more| && more[j].clientMutationId == m
    {
      if m in seen {
        var j :| 0 <= j < |receipts| && receipts[j].clientMutationId == m;
        assert more[j].clientMutationId == m;
      } else {
        assert more[|receipts|].clientMutationId == m;
      }
    }
  }

  /** The loop over the receipts; `None` when one of them is refused. */
  method CheckReceipts(ops: seq<Op>, operations: map<string, Op>, reply: PushReply) returns (r: Option<set<string>>)
    requires MeetsSchema(ops) && Indexes(operations, ops)
    ensures r.Some? <==> ReceiptsOk(ops, reply.receipts, reply.serverRevision)
    ensures r.Some? ==> SeenIn(r.value, reply.receipts)
  {
    var seen: set<string> := {};
    for i := 0 to |reply.receipts|
      invariant SeenIn(seen, reply.receipts[..i])
      invariant ReceiptsOk(ops, reply.receipts[..i], reply.serverRevision)
    {
      var receipt := reply.receipts[i];
      assert reply.receipts[..i + 1] == reply.receipts[..i] + [receipt];
      var id := receipt.clientMutationId;
      if id in operations { OnlyCandidate(ops, operations[id], id); }
      if || id !in operations || id in seen || operations[id].id != receipt.itemId
         || OperationOf(operations[id]) != receipt.operation
         || receipt.appliedItemRevision <= operations[id].baseItemRevision
         || receipt.appliedItemRevision > reply.serverRevision
      {
        BadReceipt(ops, reply, i);
        return None;
      }
      assert ReceiptFits(receipt, operations[id], reply.serverRevision);
      SeenNext(seen, reply.receipts[..i], receipt);
      seen := seen + {id};
    }
    assert reply.receipts[..|reply.receipts|] == reply.receipts;
    r := Some(seen);
  }

  /** The loop over the conflicts. */
  method CheckConflicts(ops: seq<Op>, seen: set<string>, reply: PushReply) returns (fits: bool)
    requires MeetsSchema(ops) && ReceiptsOk(ops, reply.receipts, reply.serverRevision) && SeenIn(seen, reply.receipts)
    ensures fits <==> ConflictsOk(ops, reply.receipts, reply.conflicts)
  {
    var conflicting: set<string> := {};
    for i := 0 to |reply.conflicts|
      invariant forall k :: k in conflicting <==> exists j :: 0 <= j < i && reply.conflicts[j].itemId == k
      invariant ConflictsOk(ops, reply.receipts, reply.conflicts[..i])
    {
      var conflict := reply.conflicts[i];
      assert reply.conflicts[..i + 1] == reply.conflicts[..i] + [conflict];
      var submitted := FindById(ops, conflict.itemId);
      if submitted.Some? { SeenById(ops, reply, submitted.value); }
      if || submitted.None? || conflict.itemId in conflicting || OperationOf(submitted.value) != conflict.operation
         || submitted.value.baseItemRevision != conflict.clientBaseRevision
         || submitted.value.clientMutationId in seen
      {
        BadConflict(ops, reply, i, submitted);
        return false;
      }
      assert ConflictFits(conflict, submitted.value);
      conflicting := conflicting + {conflict.itemId};
    }
    assert reply.conflicts[..|reply.conflicts|] == reply.conflicts;
    fits := true;
  }

  lemma OneEntryPerOp(ops: seq<Op>, operations: map<string, Op>)
    requires MeetsSchema(ops)
    requires Indexes(operations, ops)
    ensures |operations| == |ops|
  {
    var ids := MutationIds(ops);
    NoDupSize(ids);
    forall m ensures m in ids <==> m in operations {
      if m in operations {
        var i :| 0 <= i < |ops| && ops[i] == operations[m];
        assert ids[i] == m;
      }
    }
    assert operations.Keys == Elements(ids);
    assert |operations| == |operations.Keys|;
  }

  lemma OnlyCandidate(ops: seq<Op>, op: Op, mutation: string)
    requires MeetsSchema(ops) && op in ops && op.clientMutationId == mutation
    ensures forall o :: o in ops && o.clientMutationId == mutation ==> o == op
  {
    forall o | o in ops && o.clientMutationId == mutation ensures o == op {
      SameOpById(ops, o, op);
    }
  }

  lemma BadReceipt(ops: seq<Op>, reply: PushReply, i: nat)
    requires MeetsSchema(ops) && i < |reply.receipts|
    requires || (forall op :: op in ops ==> !ReceiptFits(reply.receipts[i], op, reply.serverRevision))
             || exists j :: 0 <= j < i && reply.receipts[j].clientMutationId == reply.receipts[i].clientMutationId
    ensures !ReceiptsOk(ops, reply.receipts, reply.serverRevision)
  {
    assert reply.receipts[i] in reply.receipts;
  }

  /** A mutation id is among the receipts exactly when its item is. */
  lemma SeenById(ops: seq<Op>, reply: PushReply, op: Op)
    requires MeetsSchema(ops) && ReceiptsOk(ops, reply.receipts, reply.serverRevision) && op in ops
    ensures (exists j :: 0 <= j < |reply.receipts| && reply.receipts[j].clientMutationId == op.clientMutationId) <==>
            exists r :: r in reply.receipts && r.itemId == op.id
  {
    forall r | r in reply.receipts ensures r.itemId == op.id <==> r.clientMutationId == op.clientMutationId {
      var o :| o in ops && ReceiptFits(r, o, reply.serverRevision);
      if o.id == op.id || o.clientMutationId == op.clientMutationId { SameOpById(ops, o, op); }
    }
    if j :| 0 <= j < |reply.receipts| && reply.receipts[j].clientMutationId == op.clientMutationId {
      assert reply.receipts[j] in reply.receipts;
    }
  }

  lemma BadConflict(ops: seq<Op>, reply: PushReply, i: nat, submitted: Option<Op>)
    requires MeetsSchema(ops) && i < |reply.conflicts|
    requires submitted.None? ==> forall op :: op in ops ==> op.id != reply.conflicts[i].itemId
    requires submitted.Some? ==> submitted.value in ops && submitted.value.id == reply.conflicts[i].itemId
    requires || submitted.None?
             || !ConflictFits(reply.conflicts[i], submitted.value)
             || (exists j :: 0 <= j < i && reply.conflicts[j].itemId == reply.conflicts[i].itemId)
             || exists r :: r in reply.receipts && r.itemId == reply.conflicts[i].itemId
    ensures !ConflictsOk(ops, reply.receipts, reply.conflicts)
  {
    var c := reply.conflicts[i];
    assert c in reply.conflicts;
    if submitted.Some? && !ConflictFits(c, submitted.value) && ConflictsOk(ops, reply.receipts, reply.conflicts) {
      var op :| op in ops && ConflictFits(c, op);
      SameOpById(ops, op, submitted.value);
    }
  }
}
