/**
 * Session and recovery-proof handles of the native crypto core. Every exported call is a sequence of
 * steps, each under one lock; calls of different threads interleave between the steps.
 */
module NativeHandles {
  import opened Seqs

  type Handle = string
  type Bytes = seq<nat>

  /** Instants are nanoseconds of a clock that never goes back. */
  const SESSION_IDLE_TTL: nat := 3_600_000_000_000
  const RECOVERY_PROOF_TTL: nat := 600_000_000_000
  const MAX_RECOVERY_TRANSCRIPT_BYTES: nat := 65_536

  datatype Session = Session(key: Bytes, lastUsed: nat)

  /** `serial` numbers the proofs as they are issued, to tell them apart; nothing branches on it. */
  datatype Proof = Proof(serial: nat, seed: Bytes, session: Handle, createdAt: nat)

  /** The two locked maps. */
  datatype Store = Store(sessions: map<Handle, Session>, proofs: map<Handle, Proof>)

  /** `duration_since`, which saturates at zero. */
  function Age(now: nat, since: nat): nat {
    if now < since then 0 else now - since
  }

  // ---------------------------------------------------------------------------
  // Steps under one lock
  // ---------------------------------------------------------------------------

  /** `remove_expired_sessions`. */
  function FreshSessions(sessions: map<Handle, Session>, now: nat): map<Handle, Session> {
    map h | h in sessions && Age(now, sessions[h].lastUsed) < SESSION_IDLE_TTL :: sessions[h]
  }

  /** `remove_expired_recovery_proofs`. */
  function FreshProofs(proofs: map<Handle, Proof>, now: nat): map<Handle, Proof> {
    map h | h in proofs && Age(now, proofs[h].createdAt) < RECOVERY_PROOF_TTL :: proofs[h]
  }

  /** `remove_recovery_proofs_for_session`. */
  function ProofsOfOthers(proofs: map<Handle, Proof>, session: Handle): map<Handle, Proof> {
    map h | h in proofs && proofs[h].session != session :: proofs[h]
  }

  function Lookup<V>(entries: map<Handle, V>, h: Handle): Option<V> {
    if h in entries then Some(entries[h]) else None
  }

  /** `with_session`, before the operation runs: sweep, look up, and renew. */
  function Renewed(sessions: map<Handle, Session>, h: Handle, now: nat): map<Handle, Session> {
    var fresh' := FreshSessions(sessions, now);
    if h in fresh' then fresh'[h := fresh'[h].(lastUsed := now)] else fresh'
  }

  predicate TranscriptAccepted(transcript: Bytes, prefix: Bytes) {
    |transcript| <= MAX_RECOVERY_TRANSCRIPT_BYTES && prefix <= transcript
  }

  // ---------------------------------------------------------------------------
  // Calls as sequences of steps
  // ---------------------------------------------------------------------------

  datatype Outcome = Done | Opened(session: Handle, proof: Handle) | Signed | Answer(valid: bool)
                   | InvalidInput | InvalidSession | ProofExpired

  /** What a call does next. */
  datatype Call =
    | OpenSession(key: Bytes, seed: Bytes)
    | OpenProof(session: Handle, seed: Bytes)
    | SignTake(handle: Handle, transcript: Bytes)
    | SignCheck(taken: Proof, takenAt: nat, transcript: Bytes)
    | SignEmit(signature: Signature)
    | DiscardProof(handle: Handle)
    | CancelProof(handle: Handle, session: Handle)
    | CancelProofsOf(session: Handle)
    | CancelSession(session: Handle)
    | LockSession(session: Handle)
    | LockProofsOf(session: Handle, removed: bool)
    | LockAllSessions
    | LockAllProofs
    | UseSession(session: Handle)
    | AskSession(session: Handle)
    | Returned(outcome: Outcome)

  /**
   * A signature, and what was observed on the way: when its proof was taken, and when, and as which step of the
   * run, its session was seen live, with the last use found then.
   */
  datatype Signature = Signature(proof: Proof, transcript: Bytes, takenAt: nat, liveAt: nat, liveStep: nat,
                                 lastUsed: nat)

  /** All threads together. `issued` and `log` keep the history. */
  datatype World = World(store: Store, clock: nat, step: nat, calls: seq<Call>, issued: seq<Proof>,
                         log: seq<Signature>)

  const START: World := World(Store(map[], map[]), 0, 0, [], [], [])

  /** A thread makes a call, or takes a call one step further; `fresh` is the handle drawn if one is needed. */
  datatype Event = Begin(call: Call) | Advance(index: nat, now: nat, handle: Handle)

  /** The entry checks of the exported functions; a call never starts in the middle. */
  function Entered(call: Call): Call {
    match call
    case OpenSession(_, _) => call
    case SignTake(h, _) => if h == "" then Returned(InvalidInput) else call
    case DiscardProof(h) => if h == "" then Returned(InvalidInput) else call
    case CancelProof(h, s) => if h == "" || s == "" then Returned(InvalidInput) else call
    case LockSession(s) => if s == "" then Returned(InvalidInput) else call
    case LockAllSessions => call
    case UseSession(s) => if s == "" then Returned(InvalidInput) else call
    case AskSession(s) => if s == "" then Returned(Answer(false)) else call
    case _ => Returned(InvalidInput)
  }

  /** `new_handle` draws until the handle is not in the swept map. */
  predicate HandleIsNew(store: Store, call: Call, now: nat, h: Handle) {
    && (call.OpenSession? ==> h !in FreshSessions(store.sessions, now))
    && (call.OpenProof? ==> h !in FreshProofs(store.proofs, now))
  }

  predicate Enabled(w: World, e: Event) {
    e.Advance? ==> e.index < |w.calls| && w.clock <= e.now && HandleIsNew(w.store, w.calls[e.index], e.now, e.handle)
  }

  /** An event that cannot happen changes nothing but the step count. */
  function Step(w: World, e: Event, prefix: Bytes): World {
    var next := w.(step := w.step + 1);
    if !Enabled(w, e) then next
    else if e.Begin? then next.(calls := w.calls + [Entered(e.call)])
    else Advanced(next.(clock := e.now), e.index, w.calls[e.index], e.handle, prefix)
  }

  function Advanced(w: World, i: nat, call: Call, h: Handle, prefix: Bytes): World
    requires i < |w.calls|
  {
    var (store, next) := Act(w.store, call, w.clock, h, |w.issued|, w.step, prefix);
    Moved(w, store.sessions, store.proofs, i, next).
      (issued := if call.OpenProof? then w.issued + [Issued(call, w.clock, |w.issued|)] else w.issued,
       log := if call.SignEmit? then w.log + [call.signature] else w.log)
  }

  function Issued(call: Call, now: nat, serial: nat): Proof
    requires call.OpenProof?
  {
    Proof(serial, call.seed, call.session, now)
  }

  /** One step of a call: what it leaves in the two maps, and what the call does next. */
  function Act(store: Store, call: Call, now: nat, h: Handle, serial: nat, step: nat, prefix: Bytes): (Store, Call) {
    var Store(sessions, proofs) := store;
    match call
    case OpenSession(key, seed) =>
      (Store(FreshSessions(sessions, now)[h := Session(key, now)], proofs), OpenProof(h, seed))
    case OpenProof(s, seed) =>
      (Store(sessions, FreshProofs(proofs, now)[h := Issued(call, now, serial)]), Returned(Opened(s, h)))
    case SignTake(handle, transcript) =>
      var kept := FreshProofs(proofs, now);
      (Store(sessions, kept - {handle}),
       if handle !in kept then Returned(ProofExpired)
       else if !TranscriptAccepted(transcript, prefix) then Returned(InvalidInput)
       else SignCheck(kept[handle], now, transcript))
    case SignCheck(proof, takenAt, transcript) =>
      var live := FreshSessions(sessions, now);
      (Store(Renewed(sessions, proof.session, now), proofs),
       if proof.session !in live then Returned(InvalidSession)
       else SignEmit(Signature(proof, transcript, takenAt, now, step, live[proof.session].lastUsed)))
    case SignEmit(signature) => (store, Returned(Signed))
    case DiscardProof(handle) => (Store(sessions, proofs - {handle}), Returned(Done))
    case CancelProof(handle, s) => (Store(sessions, proofs - {handle}), CancelProofsOf(s))
    case CancelProofsOf(s) => (Store(sessions, ProofsOfOthers(proofs, s)), CancelSession(s))
    case CancelSession(s) => (Store(sessions - {s}, proofs), Returned(Done))
    case LockSession(s) => (Store(sessions - {s}, proofs), LockProofsOf(s, s in sessions))
    case LockProofsOf(s, removed) =>
      (Store(sessions, ProofsOfOthers(proofs, s)), Returned(if removed then Done else InvalidSession))
    case LockAllSessions => (Store(map[], proofs), LockAllProofs)
    case LockAllProofs => (Store(sessions, map[]), Returned(Done))
    case UseSession(s) =>
      (Store(Renewed(sessions, s, now), proofs),
       Returned(if s in FreshSessions(sessions, now) then Done else InvalidSession))
    case AskSession(s) =>
      var live := FreshSessions(sessions, now);
      (Store(live, proofs), Returned(Answer(s in live)))
    case Returned(_) => (store, call)
  }

  function Moved(w: World, sessions: map<Handle, Session>, proofs: map<Handle, Proof>, i: nat, call: Call): World
    requires i < |w.calls|
  {
    w.(store := Store(sessions, proofs), calls := w.calls[i := call])
  }

  function Run(w: World, events: seq<Event>, prefix: Bytes): World {
    if events == [] then w
    else Step(Run(w, events[..|events| - 1], prefix), events[|events| - 1], prefix)
  }

  // ---------------------------------------------------------------------------
  // Every issued proof is in at most one place
  // ---------------------------------------------------------------------------

  datatype Place = InStore(handle: Handle) | InCall(index: nat) | InLog(position: nat) | Gone

  /** The proof a call carries. */
  function Carried(call: Call): Option<Proof> {
    match call
    case SignCheck(proof, _, _) => Some(proof)
    case SignEmit(signature) => Some(signature.proof)
    case _ => None
  }

  ghost predicate At(w: World, places: seq<Place>, proof: Proof, place: Place) {
    && |places| == |w.issued| && proof.serial < |places|
    && w.issued[proof.serial] == proof && places[proof.serial] == place
  }

  /** Wherever a proof is found, it was issued, and `places` says it is there. */
  ghost predicate Placed(w: World, places: seq<Place>) {
    && |places| == |w.issued|
    && (forall h :: h in w.store.proofs ==> At(w, places, w.store.proofs[h], InStore(h)))
    && (forall i :: 0 <= i < |w.calls| && Carried(w.calls[i]).Some? ==>
          At(w, places, Carried(w.calls[i]).value, InCall(i)))
    && (forall j :: 0 <= j < |w.log| ==> At(w, places, w.log[j].proof, InLog(j)))
  }

  /** A step that may drop proofs and put calls to rest, but moves no proof. */
  ghost predicate Quiet(w: World, w': World) {
    && w'.issued == w.issued && w'.log == w.log && w.clock <= w'.clock && w.step <= w'.step
    && (forall h :: h in w'.store.proofs ==> h in w.store.proofs && w'.store.proofs[h] == w.store.proofs[h])
    && |w'.calls| >= |w.calls|
    && (forall i :: 0 <= i < |w'.calls| ==>
          Carried(w'.calls[i]) == None || (i < |w.calls| && w'.calls[i] == w.calls[i]))
  }

  predicate MovesProof(call: Call) {
    call.OpenProof? || call.SignTake? || call.SignCheck? || call.SignEmit?
  }

  predicate Moving(w: World, e: Event) {
    Enabled(w, e) && e.Advance? && MovesProof(w.calls[e.index])
  }

  lemma QuietStep(w: World, e: Event, prefix: Bytes)
    requires !Moving(w, e)
    ensures Quiet(w, Step(w, e, prefix))
  {
    QuietProofs(w, e, prefix);
    QuietCalls(w, e, prefix);
  }

  lemma QuietProofs(w: World, e: Event, prefix: Bytes)
    requires !Moving(w, e)
    ensures var now, before := Step(w, e, prefix).store.proofs, w.store.proofs;
            forall h :: h in now ==> h in before && now[h] == before[h]
  {}

  lemma QuietCalls(w: World, e: Event, prefix: Bytes)
    requires !Moving(w, e)
    ensures var w' := Step(w, e, prefix);
            && w'.issued == w.issued && w'.log == w.log && w.clock <= w'.clock && w.step <= w'.step
            && |w'.calls| >= |w.calls|
            && (forall i :: 0 <= i < |w'.calls| ==>
                  Carried(w'.calls[i]) == None || (i < |w.calls| && w'.calls[i] == w.calls[i]))
  {}

  /** Quiet steps leave the proofs that remain where they are. */
  lemma KeptPlaced(w: World, w': World, places: seq<Place>)
    requires Placed(w, places) && Quiet(w, w')
    ensures Placed(w', places)
  {
    forall i | 0 <= i < |w'.calls| && Carried(w'.calls[i]).Some?
      ensures At(w', places, Carried(w'.calls[i]).value, InCall(i))
    {
      assert At(w, places, Carried(w.calls[i]).value, InCall(i));
    }
    forall j | 0 <= j < |w'.log| ensures At(w', places, w'.log[j].proof, InLog(j)) {
      assert At(w, places, w.log[j].proof, InLog(j));
    }
    forall h | h in w'.store.proofs ensures At(w', places, w'.store.proofs[h], InStore(h)) {
      assert At(w, places, w.store.proofs[h], InStore(h));
    }
  }

  lemma IssuePlaced(w: World, w': World, places: seq<Place>, h: Handle, proof: Proof)
    requires Placed(w, places) && proof.serial == |w.issued| && w'.issued == w.issued + [proof]
    requires w'.calls == w.calls && w'.log == w.log && w'.store.proofs == w.store.proofs[h := proof]
    requires h !in w.store.proofs
    ensures Placed(w', places + [InStore(h)])
  {
    var places' := places + [InStore(h)];
    forall p: Proof, at | At(w, places, p, at) ensures At(w', places', p, at) {}
    forall i | 0 <= i < |w'.calls| && Carried(w'.calls[i]).Some?
      ensures At(w', places', Carried(w'.calls[i]).value, InCall(i))
    {
      assert At(w, places, Carried(w.calls[i]).value, InCall(i));
    }
    forall j | 0 <= j < |w'.log| ensures At(w', places', w'.log[j].proof, InLog(j)) {
      assert At(w, places, w.log[j].proof, InLog(j));
    }
  }

  /** Moving one proof elsewhere leaves all the others where they are. */
  lemma OthersStay(w: World, places: seq<Place>, p: Proof, q: Proof, from: Place, to: Place, other: Place)
    requires At(w, places, p, from) && At(w, places, q, other) && from != other
    ensures At(w, places[p.serial := to], q, other)
  {}

  lemma TakePlaced(w: World, places: seq<Place>, h: Handle, i: nat, call: Call)
    requires Placed(w, places) && h in w.store.proofs && i < |w.calls| && Carried(w.calls[i]) == None
    requires Carried(call) == Some(w.store.proofs[h])
    ensures Placed(Moved(w, w.store.sessions, w.store.proofs - {h}, i, call),
                   places[w.store.proofs[h].serial := InCall(i)])
  {
    var p := w.store.proofs[h];
    assert At(w, places, p, InStore(h));
    var w', places' := Moved(w, w.store.sessions, w.store.proofs - {h}, i, call), places[p.serial := InCall(i)];
    forall k | 0 <= k < |w'.calls| && Carried(w'.calls[k]).Some?
      ensures At(w', places', Carried(w'.calls[k]).value, InCall(k))
    {
      if k != i { OthersStay(w, places, p, Carried(w.calls[k]).value, InStore(h), InCall(i), InCall(k)); }
    }
    forall j | 0 <= j < |w'.log| ensures At(w', places', w'.log[j].proof, InLog(j)) {
      OthersStay(w, places, p, w.log[j].proof, InStore(h), InCall(i), InLog(j));
    }
    forall g | g in w'.store.proofs ensures At(w', places', w'.store.proofs[g], InStore(g)) {
      OthersStay(w, places, p, w.store.proofs[g], InStore(h), InCall(i), InStore(g));
    }
  }

  lemma EmitPlaced(w: World, w': World, places: seq<Place>, i: nat)
    requires Placed(w, places) && i < |w.calls| && w.calls[i].SignEmit?
    requires w' == Moved(w, w.store.sessions, w.store.proofs, i, Returned(Signed)).(log := w.log + [w.calls[i].signature])
    ensures w.calls[i].signature.proof.serial < |places|
    ensures Placed(w', places[w.calls[i].signature.proof.serial := InLog(|w.log|)])
  {
    var p := w.calls[i].signature.proof;
    assert Carried(w.calls[i]) == Some(p);
    assert At(w, places, p, InCall(i));
    var to := InLog(|w.log|);
    var places' := places[p.serial := to];
    forall k | 0 <= k < |w'.calls| && Carried(w'.calls[k]).Some?
      ensures At(w', places', Carried(w'.calls[k]).value, InCall(k))
    {
      OthersStay(w, places, p, Carried(w.calls[k]).value, InCall(i), to, InCall(k));
    }
    forall j | 0 <= j < |w'.log| ensures At(w', places', w'.log[j].proof, InLog(j)) {
      if j < |w.log| { OthersStay(w, places, p, w.log[j].proof, InCall(i), to, InLog(j)); }
    }
    forall h | h in w'.store.proofs ensures At(w', places', w'.store.proofs[h], InStore(h)) {
      OthersStay(w, places, p, w.store.proofs[h], InCall(i), to, InStore(h));
    }
  }

  /** A world whose expired proofs have been swept out at `now`. */
  function Swept(w: World, now: nat): World {
    w.(store := w.store.(proofs := FreshProofs(w.store.proofs, now)))
  }

  /** The world as an enabled step finds it, its clock set. */
  function Ticked(w: World, now: nat): World {
    w.(step := w.step + 1, clock := now)
  }

  lemma OpenProofPlaced(w: World, i: nat, now: nat, h: Handle, prefix: Bytes, places: seq<Place>)
    requires Placed(w, places) && Enabled(w, Advance(i, now, h)) && w.calls[i].OpenProof?
    ensures Placed(Step(w, Advance(i, now, h), prefix), places + [InStore(h)])
  {
    var OpenProof(s, seed) := w.calls[i];
    var swept := Swept(Ticked(w, now), now).(calls := w.calls[i := Returned(Opened(s, h))]);
    KeptPlaced(w, swept, places);
    IssuePlaced(swept, Step(w, Advance(i, now, h), prefix), places, h, Proof(|w.issued|, seed, s, now));
  }

  lemma TakeStepPlaced(w: World, i: nat, now: nat, h: Handle, prefix: Bytes, places: seq<Place>)
    returns (places': seq<Place>)
    requires Placed(w, places) && Enabled(w, Advance(i, now, h)) && w.calls[i].SignTake?
    ensures Placed(Step(w, Advance(i, now, h), prefix), places')
  {
    var SignTake(handle, t) := w.calls[i];
    var swept := Swept(Ticked(w, now), now);
    places' := places;
    if handle in swept.store.proofs && TranscriptAccepted(t, prefix) {
      KeptPlaced(w, swept, places);
      TakePlaced(swept, places, handle, i, SignCheck(swept.store.proofs[handle], now, t));
      places' := places[swept.store.proofs[handle].serial := InCall(i)];
    } else {
      KeptPlaced(w, Step(w, Advance(i, now, h), prefix), places);
    }
  }

  lemma CheckStepPlaced(w: World, i: nat, now: nat, h: Handle, prefix: Bytes, places: seq<Place>)
    requires Placed(w, places) && Enabled(w, Advance(i, now, h)) && w.calls[i].SignCheck?
    ensures Placed(Step(w, Advance(i, now, h), prefix), places)
  {
    var w' := Step(w, Advance(i, now, h), prefix);
    assert At(w, places, Carried(w.calls[i]).value, InCall(i));
    forall k | 0 <= k < |w'.calls| && Carried(w'.calls[k]).Some?
      ensures At(w', places, Carried(w'.calls[k]).value, InCall(k))
    {
      assert At(w, places, Carried(w.calls[k]).value, InCall(k));
    }
    forall j | 0 <= j < |w'.log| ensures At(w', places, w'.log[j].proof, InLog(j)) {
      assert At(w, places, w.log[j].proof, InLog(j));
    }
    forall g | g in w'.store.proofs ensures At(w', places, w'.store.proofs[g], InStore(g)) {
      assert At(w, places, w.store.proofs[g], InStore(g));
    }
  }

  lemma StepPlaced(w: World, e: Event, prefix: Bytes, places: seq<Place>) returns (places': seq<Place>)
    requires Placed(w, places)
    ensures Placed(Step(w, e, prefix), places')
  {
    places' := places;
    if !Moving(w, e) {
      QuietStep(w, e, prefix);
      KeptPlaced(w, Step(w, e, prefix), places);
    } else if w.calls[e.index].OpenProof? {
      OpenProofPlaced(w, e.index, e.now, e.handle, prefix, places);
      places' := places + [InStore(e.handle)];
    } else if w.calls[e.index].SignTake? {
      places' := TakeStepPlaced(w, e.index, e.now, e.handle, prefix, places);
    } else if w.calls[e.index].SignCheck? {
      CheckStepPlaced(w, e.index, e.now, e.handle, prefix, places);
    } else {
      KeptPlaced(w, Ticked(w, e.now), places);
      EmitPlaced(Ticked(w, e.now), Step(w, e, prefix), places, e.index);
      places' := places[w.calls[e.index].signature.proof.serial := InLog(|w.log|)];
    }
  }

  lemma {:induction false} RunPlaced(events: seq<Event>, prefix: Bytes) returns (places: seq<Place>)
    ensures Placed(Run(START, events, prefix), places)
  {
    if events == [] {
      places := [];
    } else {
      var init := events[..|events| - 1];
      places := RunPlaced(init, prefix);
      places := StepPlaced(Run(START, init, prefix), events[|events| - 1], prefix, places);
    }
  }

  /** However the steps interleave, a proof signs at most once, with the seed it was issued with. */
  lemma AtMostOneSignature(events: seq<Event>, prefix: Bytes)
    ensures var w := Run(START, events, prefix);
            && (forall j, k :: 0 <= j < k < |w.log| ==> w.log[j].proof.serial != w.log[k].proof.serial)
            && (forall j :: 0 <= j < |w.log| ==>
                  w.log[j].proof.serial < |w.issued| && w.issued[w.log[j].proof.serial] == w.log[j].proof)
  {
    var w := Run(START, events, prefix);
    var places := RunPlaced(events, prefix);
    forall j | 0 <= j < |w.log| ensures At(w, places, w.log[j].proof, InLog(j)) {}
  }

  /** A proof that is neither stored nor carried by a call, because it was consumed, discarded, expired or cancelled. */
  ghost predicate Spent(w: World, serial: nat) {
    && serial < |w.issued|
    && (forall h :: h in w.store.proofs ==> w.store.proofs[h].serial != serial)
    && (forall i :: 0 <= i < |w.calls| && Carried(w.calls[i]).Some? ==> Carried(w.calls[i]).value.serial != serial)
  }

  lemma SpentStep(w: World, e: Event, prefix: Bytes, serial: nat)
    requires Spent(w, serial)
    ensures Spent(Step(w, e, prefix), serial)
    ensures var log := Step(w, e, prefix).log;
            |log| >= |w.log| && log[..|w.log|] == w.log &&
            forall j :: |w.log| <= j < |log| ==> log[j].proof.serial != serial
  {
    if !Moving(w, e) {
      QuietStep(w, e, prefix);
    } else {
      var call := w.calls[e.index];
      assert Carried(call).Some? ==> Carried(call).value.serial != serial;
      SpentSweep(w, e.now, serial);
      match call {
        case OpenProof(_, _) =>
        case SignTake(h, _) =>
        case SignCheck(_, _, _) =>
        case SignEmit(_) =>
      }
    }
  }

  lemma SpentSweep(w: World, now: nat, serial: nat)
    requires Spent(w, serial)
    ensures var kept := FreshProofs(w.store.proofs, now); forall h :: h in kept ==> kept[h].serial != serial
  {}

  /** A spent proof never signs again, whatever the threads go on to do. */
  lemma {:induction false} SpentForever(w: World, events: seq<Event>, prefix: Bytes, serial: nat)
    requires Spent(w, serial)
    ensures Spent(Run(w, events, prefix), serial)
    ensures var log := Run(w, events, prefix).log;
            |log| >= |w.log| && forall j :: |w.log| <= j < |log| ==> log[j].proof.serial != serial
  {
    if events != [] {
      var init := events[..|events| - 1];
      SpentForever(w, init, prefix, serial);
      var before := Run(w, init, prefix);
      SpentStep(before, events[|events| - 1], prefix, serial);
      forall j | |w.log| <= j < |before.log|
        ensures Run(w, events, prefix).log[j].proof.serial != serial
      {
        assert Run(w, events, prefix).log[..|before.log|][j] == before.log[j];
      }
    }
  }

  /**
   * A signing attempt consumes its proof whether or not the transcript is accepted: a rejected transcript
   * leaves the proof spent.
   */
  lemma RejectedTranscriptSpends(events: seq<Event>, prefix: Bytes, i: nat, now: nat)
    requires var w := Run(START, events, prefix);
             && Enabled(w, Advance(i, now, "")) && w.calls[i].SignTake?
             && w.calls[i].handle in FreshProofs(w.store.proofs, now)
             && !TranscriptAccepted(w.calls[i].transcript, prefix)
    ensures var w := Run(START, events, prefix);
            Spent(Step(w, Advance(i, now, ""), prefix), w.store.proofs[w.calls[i].handle].serial)
  {
    var w := Run(START, events, prefix);
    var places := RunPlaced(events, prefix);
    OnlyThere(w, places, w.calls[i].handle);
    TakenIsGone(w, i, now, prefix);
  }

  /** A stored proof is in no other entry and in no call. */
  lemma OnlyThere(w: World, places: seq<Place>, h: Handle)
    requires Placed(w, places) && h in w.store.proofs
    ensures OnlyEntry(w, h)
  {
    var p := w.store.proofs[h];
    assert At(w, places, p, InStore(h));
    forall g | g in w.store.proofs && g != h ensures w.store.proofs[g].serial != p.serial {
      assert At(w, places, w.store.proofs[g], InStore(g));
    }
    forall k | 0 <= k < |w.calls| && Carried(w.calls[k]).Some? ensures Carried(w.calls[k]).value.serial != p.serial {
      assert At(w, places, Carried(w.calls[k]).value, InCall(k));
    }
  }

  ghost predicate OnlyEntry(w: World, h: Handle) {
    && h in w.store.proofs && w.store.proofs[h].serial < |w.issued|
    && (forall g :: g in w.store.proofs && g != h ==> w.store.proofs[g].serial != w.store.proofs[h].serial)
    && (forall k :: 0 <= k < |w.calls| && Carried(w.calls[k]).Some? ==>
          Carried(w.calls[k]).value.serial != w.store.proofs[h].serial)
  }

  lemma TakenIsGone(w: World, i: nat, now: nat, prefix: Bytes)
    requires Enabled(w, Advance(i, now, "")) && w.calls[i].SignTake? && OnlyEntry(w, w.calls[i].handle)
    requires !TranscriptAccepted(w.calls[i].transcript, prefix)
    ensures Spent(Step(w, Advance(i, now, ""), prefix), w.store.proofs[w.calls[i].handle].serial)
  {
    var w', serial := Step(w, Advance(i, now, ""), prefix), w.store.proofs[w.calls[i].handle].serial;
    forall k | 0 <= k < |w'.calls| && Carried(w'.calls[k]).Some? ensures Carried(w'.calls[k]).value.serial != serial {
      assert w'.calls[k] == w.calls[k];
    }
  }

  // ---------------------------------------------------------------------------
  // Times
  // ---------------------------------------------------------------------------

  predicate TakenInTime(p: Proof, takenAt: nat) {
    p.createdAt <= takenAt < p.createdAt + RECOVERY_PROOF_TTL
  }

  /** Taken within its lifetime, and only then seen to belong to a session used less than an hour before. */
  predicate Justified(s: Signature) {
    TakenInTime(s.proof, s.takenAt) && s.takenAt <= s.liveAt && s.lastUsed <= s.liveAt < s.lastUsed + SESSION_IDLE_TTL
  }

  ghost predicate Timely(w: World) {
    && (forall h :: h in w.store.sessions ==> w.store.sessions[h].lastUsed <= w.clock)
    && (forall h :: h in w.store.proofs ==> w.store.proofs[h].createdAt <= w.clock)
    && (forall i :: 0 <= i < |w.calls| ==> CallTimely(w.calls[i], w.clock))
    && (forall j :: 0 <= j < |w.log| ==> Justified(w.log[j]))
  }

  predicate CallTimely(call: Call, clock: nat) {
    && (call.SignCheck? ==> TakenInTime(call.taken, call.takenAt) && call.takenAt <= clock)
    && (call.SignEmit? ==> Justified(call.signature))
  }

  /** Sessions are only ever renewed with the current time. */
  lemma SessionsTimely(w: World, e: Event, prefix: Bytes)
    requires forall h :: h in w.store.sessions ==> w.store.sessions[h].lastUsed <= w.clock
    ensures var w' := Step(w, e, prefix);
            w.clock <= w'.clock && forall h :: h in w'.store.sessions ==> w'.store.sessions[h].lastUsed <= w'.clock
  {}

  lemma TimelyStep(w: World, e: Event, prefix: Bytes)
    requires Timely(w)
    ensures Timely(Step(w, e, prefix))
  {
    SessionsTimely(w, e, prefix);
    var w' := Step(w, e, prefix);
    if !Moving(w, e) {
      QuietStep(w, e, prefix);
      forall i | 0 <= i < |w'.calls| ensures CallTimely(w'.calls[i], w'.clock) {
        if Carried(w'.calls[i]).Some? { assert CallTimely(w.calls[i], w.clock); }
      }
    } else {
      MovingTimely(w, e, prefix);
    }
  }

  lemma MovingTimely(w: World, e: Event, prefix: Bytes)
    requires Timely(w) && Moving(w, e)
    ensures var w' := Step(w, e, prefix);
            && (forall h :: h in w'.store.proofs ==> w'.store.proofs[h].createdAt <= w'.clock)
            && (forall i :: 0 <= i < |w'.calls| ==> CallTimely(w'.calls[i], w'.clock))
            && (forall j :: 0 <= j < |w'.log| ==> Justified(w'.log[j]))
  {
    assert CallTimely(w.calls[e.index], w.clock);
    var w' := Step(w, e, prefix);
    forall i | 0 <= i < |w'.calls| && i != e.index ensures CallTimely(w'.calls[i], w'.clock) {
      assert CallTimely(w.calls[i], w.clock);
    }
    match w.calls[e.index] {
      case OpenProof(_, _) =>
      case SignTake(_, _) =>
      case SignCheck(_, _, _) =>
      case SignEmit(_) =>
    }
  }

  /** Every signature was justified: its proof was taken in time, and its session was live afterwards. */
  lemma {:induction false} SignaturesAreJustified(events: seq<Event>, prefix: Bytes)
    ensures Timely(Run(START, events, prefix))
  {
    if events != [] {
      var init := events[..|events| - 1];
      SignaturesAreJustified(init, prefix);
      TimelyStep(Run(START, init, prefix), events[|events| - 1], prefix);
    }
  }

  /** The signature's numbers were seen: its check was event `liveStep - 1`, and found the session with that last use. */
  ghost predicate Seen(events: seq<Event>, prefix: Bytes, sig: Signature) {
    && 1 <= sig.liveStep <= |events|
    && var before, e := Run(START, events[..sig.liveStep - 1], prefix), events[sig.liveStep - 1];
       && e.Advance? && e.now == sig.liveAt && Enabled(before, e)
       && before.calls[e.index].SignCheck? && before.calls[e.index].taken == sig.proof
       && sig.proof.session in before.store.sessions
       && before.store.sessions[sig.proof.session].lastUsed == sig.lastUsed
  }

  lemma SeenLater(events: seq<Event>, e: Event, prefix: Bytes, sig: Signature)
    requires Seen(events, prefix, sig)
    ensures Seen(events + [e], prefix, sig)
  {
    var k := sig.liveStep - 1;
    assert (events + [e])[..k] == events[..k] && (events + [e])[k] == events[k];
  }

  lemma SeenNow(events: seq<Event>, e: Event, prefix: Bytes)
    requires var w := Run(START, events, prefix); Enabled(w, e) && e.Advance? && w.calls[e.index].SignCheck?
    ensures var w := Run(START, events, prefix);
            var call := Step(w, e, prefix).calls[e.index];
            call.SignEmit? ==> Seen(events + [e], prefix, call.signature)
  {
    RunStepped(events, prefix);
    assert (events + [e])[..|events|] == events;
  }

  ghost predicate AllSeen(w: World, events: seq<Event>, prefix: Bytes) {
    && (forall sig :: Pending(w, sig) ==> Seen(events, prefix, sig))
    && (forall j :: 0 <= j < |w.log| ==> Seen(events, prefix, w.log[j]))
  }

  /** Every signature on its way or in the log was seen live in its run, at the step it names. */
  lemma {:induction false} LivenessWasSeen(events: seq<Event>, prefix: Bytes)
    ensures AllSeen(Run(START, events, prefix), events, prefix)
  {
    if events != [] {
      var init, e := events[..|events| - 1], events[|events| - 1];
      assert events == init + [e];
      LivenessWasSeen(init, prefix);
      SeenStep(Run(START, init, prefix), init, e, prefix);
    }
  }

  lemma SeenStep(w: World, init: seq<Event>, e: Event, prefix: Bytes)
    requires w == Run(START, init, prefix) && AllSeen(w, init, prefix)
    ensures AllSeen(Step(w, e, prefix), init + [e], prefix)
  {
    var w' := Step(w, e, prefix);
    forall sig | Pending(w', sig) ensures Seen(init + [e], prefix, sig) {
      PendingFrom(init, e, prefix, sig);
      if Pending(w, sig) { SeenLater(init, e, prefix, sig); }
    }
    forall j | 0 <= j < |w'.log| ensures Seen(init + [e], prefix, w'.log[j]) {
      LoggedFrom(w, e, prefix, j);
      SeenLater(init, e, prefix, w'.log[j]);
    }
  }

  /** A call has passed its liveness check and is about to return this signature. */
  ghost predicate Pending(w: World, sig: Signature) {
    exists i :: 0 <= i < |w.calls| && w.calls[i] == SignEmit(sig)
  }

  /** A signature comes on its way only by the step of its check. */
  lemma PendingFrom(init: seq<Event>, e: Event, prefix: Bytes, sig: Signature)
    requires Pending(Step(Run(START, init, prefix), e, prefix), sig)
    ensures Pending(Run(START, init, prefix), sig) || Seen(init + [e], prefix, sig)
  {
    var w := Run(START, init, prefix);
    var w' := Step(w, e, prefix);
    var i :| 0 <= i < |w'.calls| && w'.calls[i] == SignEmit(sig);
    if Checks(w, e, i) {
      SeenNow(init, e, prefix);
    } else {
      NotNewlyPast(w, e, prefix, i);
    }
  }

  predicate Checks(w: World, e: Event, i: nat) {
    Enabled(w, e) && e.Advance? && e.index == i && w.calls[i].SignCheck?
  }

  lemma NotNewlyPast(w: World, e: Event, prefix: Bytes, i: nat)
    requires !Checks(w, e, i)
    requires var w' := Step(w, e, prefix); i < |w'.calls| && w'.calls[i].SignEmit?
    ensures i < |w.calls| && w.calls[i] == Step(w, e, prefix).calls[i]
  {}

  /** Every entry of the log was there or was on its way. */
  lemma LoggedFrom(w: World, e: Event, prefix: Bytes, j: nat)
    requires j < |Step(w, e, prefix).log|
    ensures var sig := Step(w, e, prefix).log[j];
            (j < |w.log| && sig == w.log[j]) || Pending(w, sig)
  {}

  /** The steps that count as a use of a session. */
  predicate Uses(call: Call, s: Handle) {
    (call.UseSession? && call.session == s) || (call.SignCheck? && call.taken.session == s)
  }

  /**
   * Only a use renews a session: any other step keeps it as it was or removes it. Asking whether it is valid, in
   * particular, does not keep it alive, and answers for exactly the sessions that would still be found.
   */
  lemma OnlyUseRenews(w: World, e: Event, prefix: Bytes, s: Handle)
    requires Enabled(w, e) && e.Advance? && s in w.store.sessions && !Uses(w.calls[e.index], s) && e.handle != s
    ensures var w' := Step(w, e, prefix);
            s in w'.store.sessions ==> w'.store.sessions[s] == w.store.sessions[s]
    ensures var w' := Step(w, e, prefix);
            w.calls[e.index] == AskSession(s) ==>
              w'.calls[e.index] == Returned(Answer(Age(e.now, w.store.sessions[s].lastUsed) < SESSION_IDLE_TTL))
  {}

  // ---------------------------------------------------------------------------
  // After lock or cancel
  // ---------------------------------------------------------------------------

  /** No step of `events` draws the session handle again: handles are 128 random bits. */
  predicate NotRedrawn(events: seq<Event>, s: Handle) {
    forall k :: 0 <= k < |events| && events[k].Advance? ==> events[k].handle != s
  }

  /** The session is gone, and its proofs were seen live, if ever, before step `since`. */
  ghost predicate Silenced(w: World, s: Handle, since: nat) {
    && s !in w.store.sessions && since <= w.step
    && (forall i :: 0 <= i < |w.calls| && w.calls[i].SignEmit? && w.calls[i].signature.proof.session == s ==>
          w.calls[i].signature.liveStep <= since)
    && (forall j :: 0 <= j < |w.log| && w.log[j].proof.session == s ==> w.log[j].liveStep <= since)
  }

  /** The liveness checks seen so far happened in earlier steps. */
  ghost predicate Stepped(w: World) {
    && (forall i :: 0 <= i < |w.calls| && w.calls[i].SignEmit? ==> w.calls[i].signature.liveStep <= w.step)
    && (forall j :: 0 <= j < |w.log| ==> w.log[j].liveStep <= w.step)
  }

  lemma SteppedStep(w: World, e: Event, prefix: Bytes)
    requires Stepped(w)
    ensures Stepped(Step(w, e, prefix))
  {
    if !Moving(w, e) {
      QuietStep(w, e, prefix);
      QuietStepped(w, Step(w, e, prefix));
    } else if w.calls[e.index].SignEmit? {
      assert w.calls[e.index].signature.liveStep <= w.step;
    }
  }

  lemma QuietStepped(w: World, w': World)
    requires Quiet(w, w') && Stepped(w)
    ensures Stepped(w')
  {
    forall i | 0 <= i < |w'.calls| && w'.calls[i].SignEmit? ensures w'.calls[i].signature.liveStep <= w'.step {
      assert Carried(w'.calls[i]).Some?;
    }
  }

  lemma {:induction false} RunStepped(events: seq<Event>, prefix: Bytes)
    ensures Stepped(Run(START, events, prefix)) && Run(START, events, prefix).step == |events|
  {
    if events != [] {
      var init := events[..|events| - 1];
      RunStepped(init, prefix);
      SteppedStep(Run(START, init, prefix), events[|events| - 1], prefix);
    }
  }

  /** A session that is gone comes back only by being drawn again. */
  lemma SessionStaysGone(w: World, e: Event, prefix: Bytes, s: Handle)
    requires s !in w.store.sessions && (e.Advance? ==> e.handle != s)
    ensures s !in Step(w, e, prefix).store.sessions && w.step <= Step(w, e, prefix).step
  {}

  lemma SilencedStep(w: World, e: Event, prefix: Bytes, s: Handle, since: nat)
    requires Silenced(w, s, since) && (e.Advance? ==> e.handle != s)
    ensures Silenced(Step(w, e, prefix), s, since)
  {
    var w' := Step(w, e, prefix);
    SessionStaysGone(w, e, prefix, s);
    if !Moving(w, e) {
      QuietStep(w, e, prefix);
      forall i | 0 <= i < |w'.calls| && w'.calls[i].SignEmit? && w'.calls[i].signature.proof.session == s
        ensures w'.calls[i].signature.liveStep <= since
      {
        assert Carried(w'.calls[i]).Some?;
      }
    } else if w.calls[e.index].SignEmit? {
      assert w'.log == w.log + [w.calls[e.index].signature];
    }
  }

  lemma {:induction false} SilencedForever(w: World, events: seq<Event>, prefix: Bytes, s: Handle, since: nat)
    requires Silenced(w, s, since) && NotRedrawn(events, s)
    ensures Silenced(Run(w, events, prefix), s, since)
  {
    if events != [] {
      var init := events[..|events| - 1];
      SilencedForever(w, init, prefix, s, since);
      SilencedStep(Run(w, init, prefix), events[|events| - 1], prefix, s, since);
    }
  }

  /** The steps that remove a session: of a lock, of a cancel, or of locking everything. */
  predicate Removes(call: Call, s: Handle) {
    call == LockSession(s) || call == CancelSession(s) || call == LockAllSessions
  }

  /**
   * Once lock or cancel has removed a session, none of its proofs passes the liveness check: every signature of
   * the session, in any continuation, had passed it in an earlier step.
   */
  lemma NoSignatureAfterRemoval(events: seq<Event>, i: nat, now: nat, more: seq<Event>, prefix: Bytes, s: Handle)
    requires var w := Run(START, events, prefix);
             Enabled(w, Advance(i, now, "")) && Removes(w.calls[i], s)
    requires NotRedrawn(more, s)
    ensures var w := Run(START, events + [Advance(i, now, "")] + more, prefix);
            && s !in w.store.sessions
            && forall j :: 0 <= j < |w.log| && w.log[j].proof.session == s ==> w.log[j].liveStep <= |events|
  {
    var w := Run(START, events, prefix);
    var e := Advance(i, now, "");
    RunStepped(events, prefix);
    assert (events + [e])[..|events|] == events;
    assert Silenced(Step(w, e, prefix), s, |events|);
    SilencedForever(Step(w, e, prefix), more, prefix, s, |events|);
    RunConcat(START, events + [e], more, prefix);
  }

  lemma {:induction false} RunConcat(w: World, a: seq<Event>, b: seq<Event>, prefix: Bytes)
    ensures Run(w, a + b, prefix) == Run(Run(w, a, prefix), b, prefix)
  {
    if b == [] {
      assert a + b == a;
    } else {
      RunConcat(w, a, b[..|b| - 1], prefix);
      assert (a + b)[..|a + b| - 1] == a + b[..|b| - 1];
    }
  }

  // ---------------------------------------------------------------------------
  // Exactly when a removed session, or a lapsed proof, is silent
  // ---------------------------------------------------------------------------

  /** Some call has passed the liveness check for a proof of the session and has not signed yet. */
  ghost predicate PastCheck(w: World, s: Handle) {
    exists i :: 0 <= i < |w.calls| && w.calls[i].SignEmit? && w.calls[i].signature.proof.session == s
  }

  /** The log grew by no signature of the session. */
  ghost predicate NoneOf(w: World, w': World, s: Handle) {
    |w.log| <= |w'.log| && forall j :: |w.log| <= j < |w'.log| ==> w'.log[j].proof.session != s
  }

  lemma QuietSession(w: World, e: Event, prefix: Bytes, s: Handle)
    requires s !in w.store.sessions && !PastCheck(w, s) && (e.Advance? ==> e.handle != s)
    ensures var w' := Step(w, e, prefix); s !in w'.store.sessions && !PastCheck(w', s) && NoneOf(w, w', s)
    ensures Step(w, e, prefix).log[..|w.log|] == w.log
  {
    var w' := Step(w, e, prefix);
    SessionStaysGone(w, e, prefix, s);
    if !Moving(w, e) {
      QuietStep(w, e, prefix);
      forall i | 0 <= i < |w'.calls| && w'.calls[i].SignEmit? ensures w'.calls[i].signature.proof.session != s {
        assert Carried(w'.calls[i]).Some? && w'.calls[i] == w.calls[i];
      }
    } else {
      forall i | 0 <= i < |w'.calls| && w'.calls[i].SignEmit? ensures w'.calls[i].signature.proof.session != s {
        if i != e.index { assert w'.calls[i] == w.calls[i]; }
      }
      if w.calls[e.index].SignEmit? { assert w'.log == w.log + [w.calls[e.index].signature]; }
    }
  }

  lemma {:induction false} QuietSessionForever(w: World, more: seq<Event>, prefix: Bytes, s: Handle)
    requires s !in w.store.sessions && !PastCheck(w, s) && NotRedrawn(more, s)
    ensures var w' := Run(w, more, prefix); s !in w'.store.sessions && !PastCheck(w', s) && NoneOf(w, w', s)
  {
    if more != [] {
      var k := |more| - 1;
      var before := Run(w, more[..k], prefix);
      QuietSessionForever(w, more[..k], prefix, s);
      QuietSession(before, more[k], prefix, s);
      NoneThenNone(w, before, Step(before, more[k], prefix), s);
    }
  }

  lemma NoneThenNone(w: World, before: World, w': World, s: Handle)
    requires NoneOf(w, before, s) && NoneOf(before, w', s) && w'.log[..|before.log|] == before.log
    ensures NoneOf(w, w', s)
  {
    forall j | |w.log| <= j < |w'.log| ensures w'.log[j].proof.session != s {
      if j < |before.log| { assert w'.log[..|before.log|][j] == before.log[j]; }
    }
  }

  /** A handle that is not `s`. */
  function Other(s: Handle): (h: Handle)
    ensures h != s
  {
    if s == "" then "x" else ""
  }

  /** A call past its check signs whenever its thread goes on. */
  lemma Emits(w: World, prefix: Bytes, i: nat, s: Handle) returns (e: Event)
    requires i < |w.calls| && w.calls[i].SignEmit?
    ensures NotRedrawn([e], s) && Run(w, [e], prefix) == Step(w, e, prefix)
    ensures Run(w, [e], prefix).log == w.log + [w.calls[i].signature]
  {
    e := Advance(i, w.clock, Other(s));
    assert [e][..0] == [];
    assert Run(w, [], prefix) == w;
  }

  /**
   * A session that is gone is silent from now on if and only if no call is past the liveness check for a proof of
   * it: otherwise the thread of that call need only go on.
   */
  lemma SilentExactlyWhen(w: World, prefix: Bytes, s: Handle)
    requires s !in w.store.sessions
    ensures !PastCheck(w, s) <==> forall more :: NotRedrawn(more, s) ==> NoneOf(w, Run(w, more, prefix), s)
  {
    if PastCheck(w, s) {
      var i :| 0 <= i < |w.calls| && w.calls[i].SignEmit? && w.calls[i].signature.proof.session == s;
      var e := Emits(w, prefix, i, s);
      assert Run(w, [e], prefix).log[|w.log|].proof.session == s;
      assert NotRedrawn([e], s) && !NoneOf(w, Run(w, [e], prefix), s);
    } else {
      forall more | NotRedrawn(more, s) ensures NoneOf(w, Run(w, more, prefix), s) {
        QuietSessionForever(w, more, prefix, s);
      }
    }
  }

  /**
   * So lock and cancel silence a session if and only if no signing call of it is past its check when they remove it.
   */
  lemma RemovalSilencesExactlyWhen(w: World, i: nat, now: nat, prefix: Bytes, s: Handle)
    requires Enabled(w, Advance(i, now, "")) && Removes(w.calls[i], s)
    ensures var w' := Step(w, Advance(i, now, ""), prefix);
            !PastCheck(w, s) <==> forall more :: NotRedrawn(more, s) ==> NoneOf(w', Run(w', more, prefix), s)
  {
    var w' := Step(w, Advance(i, now, ""), prefix);
    SilentExactlyWhen(w', prefix, s);
    forall k | 0 <= k < |w.calls| ensures w'.calls[k].SignEmit? == w.calls[k].SignEmit? {
      if k != i { assert w'.calls[k] == w.calls[k]; }
    }
    if PastCheck(w, s) {
      var k :| 0 <= k < |w.calls| && w.calls[k].SignEmit? && w.calls[k].signature.proof.session == s;
      assert w'.calls[k] == w.calls[k];
    }
    if PastCheck(w', s) {
      var k :| 0 <= k < |w'.calls| && w'.calls[k].SignEmit? && w'.calls[k].signature.proof.session == s;
      assert w'.calls[k] == w.calls[k];
    }
  }

  // The same for a proof whose lifetime is over.

  /** Every stored entry of the proof is past its lifetime, so no call can take it any more. */
  ghost predicate Lapsed(w: World, serial: nat) {
    && serial < |w.issued|
    && forall h :: h in w.store.proofs && w.store.proofs[h].serial == serial ==>
         w.store.proofs[h].createdAt + RECOVERY_PROOF_TTL <= w.clock
  }

  /** The session would still pass a liveness check. */
  predicate Live(w: World, s: Handle) {
    s in FreshSessions(w.store.sessions, w.clock)
  }

  /** The call has the proof, and its session passed, or would pass, the check. */
  predicate CanSign(w: World, call: Call, serial: nat) {
    || (call.SignEmit? && call.signature.proof.serial == serial)
    || (call.SignCheck? && call.taken.serial == serial && Live(w, call.taken.session))
  }

  ghost predicate MaySign(w: World, serial: nat) {
    exists i :: 0 <= i < |w.calls| && CanSign(w, w.calls[i], serial)
  }

  ghost predicate NoneBy(w: World, w': World, serial: nat) {
    |w.log| <= |w'.log| && forall j :: |w.log| <= j < |w'.log| ==> w'.log[j].proof.serial != serial
  }

  /** A proof that no call can sign with, and none can take: whoever holds it waits for a check it cannot pass. */
  ghost predicate Mute(w: World, serial: nat, s: Handle) {
    && Lapsed(w, serial)
    && forall i :: 0 <= i < |w.calls| && Carried(w.calls[i]).Some? && Carried(w.calls[i]).value.serial == serial ==>
         w.calls[i].SignCheck? && w.calls[i].taken.session == s && !Live(w, s)
  }

  lemma LapsedStep(w: World, e: Event, prefix: Bytes, serial: nat)
    requires Lapsed(w, serial)
    ensures Lapsed(Step(w, e, prefix), serial)
  {
    if !Moving(w, e) { QuietStep(w, e, prefix); }
  }

  lemma StaleStays(w: World, e: Event, prefix: Bytes, s: Handle)
    requires !Live(w, s) && (e.Advance? ==> e.handle != s)
    ensures !Live(Step(w, e, prefix), s)
  {}

  lemma MuteStep(w: World, e: Event, prefix: Bytes, serial: nat, s: Handle)
    requires Mute(w, serial, s) && (e.Advance? ==> e.handle != s)
    ensures Mute(Step(w, e, prefix), serial, s) && NoneBy(w, Step(w, e, prefix), serial)
    ensures Step(w, e, prefix).log[..|w.log|] == w.log
  {
    var w' := Step(w, e, prefix);
    LapsedStep(w, e, prefix, serial);
    if !Live(w, s) { StaleStays(w, e, prefix, s); }
    if !Moving(w, e) {
      QuietStep(w, e, prefix);
      forall i | 0 <= i < |w'.calls| && Carried(w'.calls[i]).Some? && Carried(w'.calls[i]).value.serial == serial
        ensures w'.calls[i].SignCheck? && w'.calls[i].taken.session == s && !Live(w', s)
      {
        assert w'.calls[i] == w.calls[i];
      }
    } else {
      MuteMoves(w, e, prefix, serial, s);
    }
  }

  lemma MuteMoves(w: World, e: Event, prefix: Bytes, serial: nat, s: Handle)
    requires Mute(w, serial, s) && Moving(w, e) && (!Live(w, s) ==> !Live(Step(w, e, prefix), s))
    ensures var w' := Step(w, e, prefix);
            && (forall i :: 0 <= i < |w'.calls| && Carried(w'.calls[i]).Some? && Carried(w'.calls[i]).value.serial == serial ==>
                  w'.calls[i].SignCheck? && w'.calls[i].taken.session == s && !Live(w', s))
            && NoneBy(w, w', serial) && w'.log[..|w.log|] == w.log
  {
    var w', call := Step(w, e, prefix), w.calls[e.index];
    forall i | 0 <= i < |w'.calls| && Carried(w'.calls[i]).Some? && Carried(w'.calls[i]).value.serial == serial
      ensures w'.calls[i].SignCheck? && w'.calls[i].taken.session == s && !Live(w', s)
    {
      if i != e.index {
        assert w'.calls[i] == w.calls[i];
      } else {
        CannotGoOn(w, e, prefix, serial, s);
      }
    }
    if call.SignEmit? {
      assert Carried(call).Some?;
      assert w'.log == w.log + [call.signature];
    }
  }

  /** The call that moves does not come to carry the proof. */
  lemma CannotGoOn(w: World, e: Event, prefix: Bytes, serial: nat, s: Handle)
    requires Mute(w, serial, s) && Moving(w, e)
    ensures var call := Step(w, e, prefix).calls[e.index]; Carried(call).Some? ==> Carried(call).value.serial != serial
  {
    var call := w.calls[e.index];
    if call.SignTake? && call.handle in FreshProofs(w.store.proofs, e.now) {
      assert w.store.proofs[call.handle].serial != serial;
    } else if call.SignCheck? && call.taken.serial == serial {
      assert Carried(call).Some?;
      StillStale(w, e.now, s);
    }
  }

  lemma StillStale(w: World, now: nat, s: Handle)
    requires !Live(w, s) && w.clock <= now
    ensures s !in FreshSessions(w.store.sessions, now)
  {}

  lemma {:induction false} MuteForever(w: World, more: seq<Event>, prefix: Bytes, serial: nat, s: Handle)
    requires Mute(w, serial, s) && NotRedrawn(more, s)
    ensures var w' := Run(w, more, prefix); Mute(w', serial, s) && NoneBy(w, w', serial)
  {
    if more != [] {
      var k := |more| - 1;
      var before := Run(w, more[..k], prefix);
      MuteForever(w, more[..k], prefix, serial, s);
      MuteStep(before, more[k], prefix, serial, s);
      var w' := Step(before, more[k], prefix);
      forall j | |w.log| <= j < |w'.log| ensures w'.log[j].proof.serial != serial {
        if j < |before.log| { assert w'.log[..|before.log|][j] == before.log[j]; }
      }
    }
  }

  lemma ChecksAndEmits(w: World, prefix: Bytes, i: nat, s: Handle) returns (more: seq<Event>)
    requires i < |w.calls| && w.calls[i].SignCheck? && Live(w, w.calls[i].taken.session)
    ensures NotRedrawn(more, s)
    ensures var log := Run(w, more, prefix).log; |log| == |w.log| + 1 && log[|w.log|].proof == w.calls[i].taken
  {
    var e := Advance(i, w.clock, Other(s));
    var w1 := Step(w, e, prefix);
    assert w1.calls[i].SignEmit? && w1.log == w.log;
    var e1 := Emits(w1, prefix, i, s);
    more := [e, e1];
    assert [e, e1][..1] == [e] && [e][..0] == [];
    assert Run(w, [], prefix) == w;
    assert Run(w, [e], prefix) == w1;
    assert Run(w, more, prefix) == Step(w1, e1, prefix);
  }

  /**
   * After its lifetime a proof signs no more, whatever happens, if and only if no call holds it past the liveness
   * check, or before the check with its session still live.
   */
  lemma LateExactlyWhen(events: seq<Event>, prefix: Bytes, serial: nat)
    requires var w := Run(START, events, prefix);
             serial < |w.issued| && w.issued[serial].createdAt + RECOVERY_PROOF_TTL <= w.clock
    ensures var w := Run(START, events, prefix);
            !MaySign(w, serial) <==>
            forall more :: NotRedrawn(more, w.issued[serial].session) ==> NoneBy(w, Run(w, more, prefix), serial)
  {
    var w := Run(START, events, prefix);
    var s := w.issued[serial].session;
    var places := RunPlaced(events, prefix);
    forall h | h in w.store.proofs && w.store.proofs[h].serial == serial ensures w.store.proofs[h] == w.issued[serial] {
      assert At(w, places, w.store.proofs[h], InStore(h));
    }
    forall i | 0 <= i < |w.calls| && Carried(w.calls[i]).Some? && Carried(w.calls[i]).value.serial == serial
      ensures Carried(w.calls[i]).value == w.issued[serial]
    {
      assert At(w, places, Carried(w.calls[i]).value, InCall(i));
    }
    if MaySign(w, serial) {
      MaySignDoes(w, prefix, serial, s);
    } else {
      forall i | 0 <= i < |w.calls| && Carried(w.calls[i]).Some? && Carried(w.calls[i]).value.serial == serial
        ensures w.calls[i].SignCheck? && w.calls[i].taken.session == s && !Live(w, s)
      {
        assert !CanSign(w, w.calls[i], serial);
      }
      forall more | NotRedrawn(more, s) ensures NoneBy(w, Run(w, more, prefix), serial) {
        MuteForever(w, more, prefix, serial, s);
      }
    }
  }

  lemma MaySignDoes(w: World, prefix: Bytes, serial: nat, s: Handle)
    requires MaySign(w, serial)
    ensures exists more :: NotRedrawn(more, s) && !NoneBy(w, Run(w, more, prefix), serial)
  {
    var i :| 0 <= i < |w.calls| && CanSign(w, w.calls[i], serial);
    if w.calls[i].SignEmit? {
      var e := Emits(w, prefix, i, s);
      assert Run(w, [e], prefix).log[|w.log|].proof.serial == serial;
      assert NotRedrawn([e], s) && !NoneBy(w, Run(w, [e], prefix), serial);
    } else {
      var more := ChecksAndEmits(w, prefix, i, s);
      assert !NoneBy(w, Run(w, more, prefix), serial);
    }
  }

  /** No stored proof of the session, and no call that will still add one. */
  ghost predicate Erased(w: World, s: Handle) {
    && (forall h :: h in w.store.proofs ==> w.store.proofs[h].session != s)
    && (forall i :: 0 <= i < |w.calls| ==> !AddsProofOf(w.calls[i], s))
  }

  predicate AddsProofOf(call: Call, s: Handle) {
    call.OpenProof? && call.session == s
  }

  /** The steps that drop the proofs of a session. */
  predicate DropsProofs(call: Call, s: Handle) {
    call == CancelProofsOf(s) || call == LockAllProofs || (call.LockProofsOf? && call.session == s)
  }

  lemma ErasedStep(w: World, e: Event, prefix: Bytes, s: Handle)
    requires Erased(w, s) && (e.Advance? ==> e.handle != s)
    ensures Erased(Step(w, e, prefix), s)
  {
    if Enabled(w, e) && e.Advance? {
      assert !AddsProofOf(w.calls[e.index], s);
      ErasedStore(w, e, prefix, s);
    }
  }

  lemma ErasedStore(w: World, e: Event, prefix: Bytes, s: Handle)
    requires Enabled(w, e) && e.Advance? && !AddsProofOf(w.calls[e.index], s)
    requires forall h :: h in w.store.proofs ==> w.store.proofs[h].session != s
    ensures var proofs := Step(w, e, prefix).store.proofs; forall h :: h in proofs ==> proofs[h].session != s
  {}

  /** Erased proofs stay erased: the seed of a locked session is not in memory again. */
  lemma {:induction false} ErasedForever(w: World, events: seq<Event>, prefix: Bytes, s: Handle)
    requires Erased(w, s) && NotRedrawn(events, s)
    ensures Erased(Run(w, events, prefix), s)
  {
    if events != [] {
      var init := events[..|events| - 1];
      ErasedForever(w, init, prefix, s);
      ErasedStep(Run(w, init, prefix), events[|events| - 1], prefix, s);
    }
  }

  /** A handle longer than all of these. */
  lemma {:induction false} LongerThan(handles: set<Handle>) returns (h: Handle)
    ensures forall g :: g in handles ==> |g| < |h|
  {
    h := "x";
    if g :| g in handles {
      var k := LongerThan(handles - {g});
      h := k + g + "x";
      forall f | f in handles ensures |f| < |h| {
        if f != g { assert f in handles - {g}; }
      }
    }
  }

  /** No stored proof of the session. */
  ghost predicate NoneStored(w: World, s: Handle) {
    forall h :: h in w.store.proofs ==> w.store.proofs[h].session != s
  }

  /** An opening call that still has its proof to add puts the seed back whenever its thread goes on. */
  lemma PutsBack(w: World, k: nat, prefix: Bytes, s: Handle) returns (more: seq<Event>)
    requires k < |w.calls| && AddsProofOf(w.calls[k], s)
    ensures NotRedrawn(more, s) && !NoneStored(Run(w, more, prefix), s)
  {
    var h := LongerThan(w.store.proofs.Keys + {s});
    var e := Advance(k, w.clock, h);
    more := [e];
    assert s in w.store.proofs.Keys + {s};
    assert h !in w.store.proofs.Keys;
    assert [e][..0] == [] && Run(w, [], prefix) == w;
    var w' := Step(w, e, prefix);
    assert h in w'.store.proofs && w'.store.proofs[h].session == s;
  }

  lemma DropStep(w: World, i: nat, now: nat, prefix: Bytes, s: Handle)
    requires Enabled(w, Advance(i, now, "")) && DropsProofs(w.calls[i], s)
    ensures var w' := Step(w, Advance(i, now, ""), prefix);
            && NoneStored(w', s) && |w'.calls| == |w.calls|
            && forall k :: 0 <= k < |w.calls| ==> (AddsProofOf(w'.calls[k], s) <==> AddsProofOf(w.calls[k], s))
  {}

  /**
   * A step that drops the proofs of a session leaves none of them stored, and none comes back however the threads go
   * on, if and only if no opening call is at that moment still to add its proof.
   */
  lemma DroppingErases(w: World, i: nat, now: nat, prefix: Bytes, s: Handle)
    requires Enabled(w, Advance(i, now, "")) && DropsProofs(w.calls[i], s)
    ensures NoneStored(Step(w, Advance(i, now, ""), prefix), s)
    ensures var w' := Step(w, Advance(i, now, ""), prefix);
            (forall k :: 0 <= k < |w.calls| ==> !AddsProofOf(w.calls[k], s)) <==>
            forall more :: NotRedrawn(more, s) ==> NoneStored(Run(w', more, prefix), s)
  {
    var w' := Step(w, Advance(i, now, ""), prefix);
    DropStep(w, i, now, prefix, s);
    if k :| 0 <= k < |w.calls| && AddsProofOf(w.calls[k], s) {
      var more := PutsBack(w', k, prefix, s);
    } else {
      forall k | 0 <= k < |w'.calls| ensures !AddsProofOf(w'.calls[k], s) { assert !AddsProofOf(w.calls[k], s); }
      forall more | NotRedrawn(more, s) ensures NoneStored(Run(w', more, prefix), s) {
        ErasedForever(w', more, prefix, s);
      }
    }
  }

  // ---------------------------------------------------------------------------
  // What does not hold
  // ---------------------------------------------------------------------------

  lemma RunThree(w: World, a: Event, b: Event, c: Event, x: World, y: World, z: World, prefix: Bytes)
    requires x == Step(w, a, prefix) && y == Step(x, b, prefix) && z == Step(y, c, prefix)
    ensures Run(w, [a, b, c], prefix) == z
  {
    assert [a, b, c][..2] == [a, b] && [a, b][..1] == [a] && [a][..0] == [];
    assert Run(w, [], prefix) == w;
    assert Run(w, [a], prefix) == x;
    assert Run(w, [a, b], prefix) == y;
  }

  function OpenDuringLockAll(key: Bytes, seed: Bytes): seq<Event> {
    [Begin(OpenSession(key, seed)), Advance(0, 0, "s"), Begin(LockAllSessions)] +
    [Advance(1, 0, ""), Advance(1, 0, ""), Advance(0, 0, "p")]
  }

  lemma OpenedHalfway(prefix: Bytes, key: Bytes, seed: Bytes)
    ensures Run(START, [Begin(OpenSession(key, seed)), Advance(0, 0, "s"), Begin(LockAllSessions)], prefix) ==
            World(Store(map["s" := Session(key, 0)], map[]), 0, 3, [OpenProof("s", seed), LockAllSessions], [], [])
  {
    var a, b, c := Begin(OpenSession(key, seed)), Advance(0, 0, "s"), Begin(LockAllSessions);
    var x := Step(START, a, prefix);
    var y := Step(x, b, prefix);
    RunThree(START, a, b, c, x, y, Step(y, c, prefix), prefix);
  }

  /** It happens: locking everything while a session is being opened returns, and then the recovery seed is stored. */
  lemma SeedOutlivesLockAll(prefix: Bytes, key: Bytes, seed: Bytes)
    ensures Run(START, OpenDuringLockAll(key, seed), prefix) ==
            World(Store(map[], map["p" := Proof(0, seed, "s", 0)]), 0, 6,
                  [Returned(Opened("s", "p")), Returned(Done)], [Proof(0, seed, "s", 0)], [])
  {
    var w := World(Store(map["s" := Session(key, 0)], map[]), 0, 3, [OpenProof("s", seed), LockAllSessions], [], []);
    var x := World(Store(map[], map[]), 0, 4, [OpenProof("s", seed), LockAllProofs], [], []);
    var y := World(Store(map[], map[]), 0, 5, [OpenProof("s", seed), Returned(Done)], [], []);
    OpenedHalfway(prefix, key, seed);
    RunThree(w, Advance(1, 0, ""), Advance(1, 0, ""), Advance(0, 0, "p"), x, y, Step(y, Advance(0, 0, "p"), prefix), prefix);
    RunConcat(START, [Begin(OpenSession(key, seed)), Advance(0, 0, "s"), Begin(LockAllSessions)],
              [Advance(1, 0, ""), Advance(1, 0, ""), Advance(0, 0, "p")], prefix);
  }

  function OpenAndTake(prefix: Bytes, key: Bytes, seed: Bytes): seq<Event> {
    [Begin(OpenSession(key, seed)), Advance(0, 0, "s"), Advance(0, 0, "p")] +
    [Begin(SignTake("p", prefix)), Advance(1, 0, ""), Advance(1, 0, "")]
  }

  function LockDuring(): seq<Event> {
    [Begin(LockSession("s")), Advance(2, 0, ""), Advance(2, 0, "")]
  }

  lemma Opening(prefix: Bytes, key: Bytes, seed: Bytes)
    ensures var proof := Proof(0, seed, "s", 0);
            Run(START, [Begin(OpenSession(key, seed)), Advance(0, 0, "s"), Advance(0, 0, "p")], prefix) ==
            World(Store(map["s" := Session(key, 0)], map["p" := proof]), 0, 3, [Returned(Opened("s", "p"))], [proof], [])
  {
    var a, b, c := Begin(OpenSession(key, seed)), Advance(0, 0, "s"), Advance(0, 0, "p");
    var x := Step(START, a, prefix);
    var y := Step(x, b, prefix);
    RunThree(START, a, b, c, x, y, Step(y, c, prefix), prefix);
  }

  lemma TakeStep(prefix: Bytes, session: Session, proof: Proof, done: Outcome)
    requires |prefix| <= MAX_RECOVERY_TRANSCRIPT_BYTES && proof.createdAt == 0
    ensures Step(World(Store(map["s" := session], map["p" := proof]), 0, 4,
                       [Returned(done), SignTake("p", prefix)], [proof], []), Advance(1, 0, ""), prefix) ==
            World(Store(map["s" := session], map[]), 0, 5, [Returned(done), SignCheck(proof, 0, prefix)], [proof], [])
  {
    var proofs := map["p" := proof];
    assert FreshProofs(proofs, 0) == proofs;
    assert proofs - {"p"} == map[];
  }

  lemma CheckStep(prefix: Bytes, session: Session, proof: Proof, done: Outcome)
    requires proof.session == "s" && session.lastUsed == 0
    ensures Step(World(Store(map["s" := session], map[]), 0, 5,
                       [Returned(done), SignCheck(proof, 0, prefix)], [proof], []), Advance(1, 0, ""), prefix) ==
            World(Store(map["s" := session], map[]), 0, 6,
                  [Returned(done), SignEmit(Signature(proof, prefix, 0, 0, 6, 0))], [proof], [])
  {
    var sessions := map["s" := session];
    assert FreshSessions(sessions, 0) == sessions;
    assert Renewed(sessions, "s", 0) == sessions;
  }

  lemma Taking(prefix: Bytes, key: Bytes, seed: Bytes)
    requires |prefix| <= MAX_RECOVERY_TRANSCRIPT_BYTES
    ensures var proof := Proof(0, seed, "s", 0);
            Run(START, OpenAndTake(prefix, key, seed), prefix) ==
            World(Store(map["s" := Session(key, 0)], map[]), 0, 6,
                  [Returned(Opened("s", "p")), SignEmit(Signature(proof, prefix, 0, 0, 6, 0))], [proof], [])
  {
    var proof, session, done := Proof(0, seed, "s", 0), Session(key, 0), Opened("s", "p");
    var w := World(Store(map["s" := session], map["p" := proof]), 0, 3, [Returned(done)], [proof], []);
    var x := w.(step := 4, calls := [Returned(done), SignTake("p", prefix)]);
    var y := World(Store(map["s" := session], map[]), 0, 5, [Returned(done), SignCheck(proof, 0, prefix)], [proof], []);
    var z := World(Store(map["s" := session], map[]), 0, 6,
                   [Returned(done), SignEmit(Signature(proof, prefix, 0, 0, 6, 0))], [proof], []);
    Opening(prefix, key, seed);
    TakeStep(prefix, session, proof, done);
    CheckStep(prefix, session, proof, done);
    RunThree(w, Begin(SignTake("p", prefix)), Advance(1, 0, ""), Advance(1, 0, ""), x, y, z, prefix);
    RunConcat(START, [Begin(OpenSession(key, seed)), Advance(0, 0, "s"), Advance(0, 0, "p")],
              [Begin(SignTake("p", prefix)), Advance(1, 0, ""), Advance(1, 0, "")], prefix);
  }

  /**
   * Only the taking of a proof is timed: a thread that pauses before it signs emits a signature any time after
   * the proof's lifetime, and after its session was locked.
   */
  lemma LateSignature(prefix: Bytes, key: Bytes, seed: Bytes, late: nat)
    requires |prefix| <= MAX_RECOVERY_TRANSCRIPT_BYTES
    ensures var w := Run(START, OpenAndTake(prefix, key, seed) + LockDuring(), prefix);
            && |w.calls| == 3 && w.calls[2] == Returned(Done) && w.store == Store(map[], map[]) && w.log == []
            && var w' := Step(w, Advance(1, late, ""), prefix);
               w'.clock == late && |w'.log| == 1 && w'.log[0].proof == Proof(0, seed, "s", 0)
  {
    var taking, session, proof := OpenAndTake(prefix, key, seed), Session(key, 0), Proof(0, seed, "s", 0);
    Taking(prefix, key, seed);
    var w := Run(START, taking, prefix);
    var x := w.(step := 7, calls := w.calls + [LockSession("s")]);
    var y := x.(step := 8, store := Store(map[], map[]), calls := w.calls + [LockProofsOf("s", true)]);
    var z := y.(step := 9, calls := w.calls + [Returned(Done)]);
    LockSteps(w, session, x, y, z, prefix);
    RunThree(w, Begin(LockSession("s")), Advance(2, 0, ""), Advance(2, 0, ""), x, y, z, prefix);
    RunConcat(START, taking, LockDuring(), prefix);
  }

  lemma LockSteps(w: World, session: Session, x: World, y: World, z: World, prefix: Bytes)
    requires w.step == 6 && w.store == Store(map["s" := session], map[]) && |w.calls| == 2 && w.clock == 0
    requires x == w.(step := 7, calls := w.calls + [LockSession("s")])
    requires y == x.(step := 8, store := Store(map[], map[]), calls := w.calls + [LockProofsOf("s", true)])
    requires z == y.(step := 9, calls := w.calls + [Returned(Done)])
    ensures x == Step(w, Begin(LockSession("s")), prefix)
    ensures y == Step(x, Advance(2, 0, ""), prefix)
    ensures z == Step(y, Advance(2, 0, ""), prefix)
  {
    assert map["s" := session] - {"s"} == map[];
    assert ProofsOfOthers(map[], "s") == map[];
  }

  // ---------------------------------------------------------------------------
  // The two maps, updated in place
  // ---------------------------------------------------------------------------

  /** `new_handle`: draws until a handle is new; `None` when the given draws run out first. */
  method NewHandle<V>(existing: map<Handle, V>, draws: seq<Handle>) returns (r: Option<Handle>)
    ensures r.None? ==> forall h :: h in draws ==> h in existing
    ensures r.Some? ==> r.value !in existing
    ensures r.Some? ==> exists k :: 0 <= k < |draws| && draws[k] == r.value && forall j :: 0 <= j < k ==> draws[j] in existing
  {
    for k := 0 to |draws|
      invariant forall j :: 0 <= j < k ==> draws[j] in existing
    {
      if draws[k] !in existing { return Some(draws[k]); }
    }
    r := None;
  }

  /** The effect of a call whose steps no other call interrupts, as far as the given clock readings and draws reach. */
  function Alone(store: Store, call: Call, times: seq<nat>, draws: seq<Handle>, serial: nat, prefix: Bytes): (Store, Call)
    requires |times| == |draws|
    decreases |times|
  {
    if times == [] || call.Returned? then (store, call)
    else
      var (next, then') := Act(store, call, times[0], draws[0], serial, 0, prefix);
      Alone(next, then', times[1..], draws[1..], serial, prefix)
  }

  lemma OpenAlone(store: Store, key: Bytes, seed: Bytes, t: nat, s: Handle, u: nat, p: Handle, serial: nat)
    ensures Alone(store, OpenSession(key, seed), [t, u], [s, p], serial, []) ==
            (Store(FreshSessions(store.sessions, t)[s := Session(key, t)],
                   FreshProofs(store.proofs, u)[p := Proof(serial, seed, s, u)]), Returned(Opened(s, p)))
  {
    var (next, then') := Act(store, OpenSession(key, seed), t, s, serial, 0, []);
    assert [t, u][1..] == [u] && [s, p][1..] == [p];
    assert Alone(next, then', [u], [p], serial, []) == Act(next, then', u, p, serial, 0, []);
  }

  lemma SignAlone(store: Store, handle: Handle, transcript: Bytes, prefix: Bytes, t: nat, u: nat)
    requires handle != ""
    ensures var kept := FreshProofs(store.proofs, t);
            Alone(store, SignTake(handle, transcript), [t, u, u], ["", "", ""], 0, prefix) ==
            if handle !in kept then (store.(proofs := kept - {handle}), Returned(ProofExpired))
            else if !TranscriptAccepted(transcript, prefix) then (store.(proofs := kept - {handle}), Returned(InvalidInput))
            else (Store(Renewed(store.sessions, kept[handle].session, u), kept - {handle}),
                  Returned(if kept[handle].session in FreshSessions(store.sessions, u) then Signed else InvalidSession))
  {
    var (taken, check) := Act(store, SignTake(handle, transcript), t, "", 0, 0, prefix);
    var (renewed, emit) := Act(taken, check, u, "", 0, 0, prefix);
    assert [t, u, u][1..] == [u, u] && [u, u][1..] == [u];
    assert ["", "", ""][1..] == ["", ""] && ["", ""][1..] == [""];
    assert Alone(renewed, emit, [u], [""], 0, prefix) == Act(renewed, emit, u, "", 0, 0, prefix);
    assert Alone(taken, check, [u, u], ["", ""], 0, prefix) == Alone(renewed, emit, [u], [""], 0, prefix);
  }

  lemma CancelAlone(store: Store, handle: Handle, s: Handle)
    ensures Alone(store, CancelProof(handle, s), [0, 0, 0], ["", "", ""], 0, []) ==
            (Store(store.sessions - {s}, ProofsOfOthers(store.proofs - {handle}, s)), Returned(Done))
  {
    assert [0, 0, 0][1..] == [0, 0] && [0, 0][1..] == [0];
    assert ["", "", ""][1..] == ["", ""] && ["", ""][1..] == [""];
  }

  lemma LockAlone(store: Store, s: Handle)
    ensures Alone(store, LockSession(s), [0, 0], ["", ""], 0, []) ==
            (Store(store.sessions - {s}, ProofsOfOthers(store.proofs, s)),
             Returned(if s in store.sessions then Done else InvalidSession))
  {
    assert [0, 0][1..] == [0] && ["", ""][1..] == [""];
  }

  lemma OneTimedStep(store: Store, call: Call, now: nat)
    requires !call.Returned?
    ensures Alone(store, call, [now], [""], 0, []) == Act(store, call, now, "", 0, 0, [])
  {}

  // ---------------------------------------------------------------------------
  // What an undisturbed call answers and leaves, entry by entry
  // ---------------------------------------------------------------------------

  /** Last used less than an hour ago. */
  predicate Alive(sessions: map<Handle, Session>, h: Handle, now: nat) {
    h in sessions && now < sessions[h].lastUsed + 3_600_000_000_000
  }

  /** Issued less than ten minutes ago. */
  predicate InTime(proofs: map<Handle, Proof>, h: Handle, now: nat) {
    h in proofs && now < proofs[h].createdAt + 600_000_000_000
  }

  /** The sessions that were alive, as they were, but for the one that is used now. */
  ghost predicate AliveLeft(before: map<Handle, Session>, after: map<Handle, Session>, now: nat, used: Option<Handle>) {
    forall h ::
      && (h in after <==> Alive(before, h, now))
      && (h in after ==> after[h].key == before[h].key &&
                         after[h].lastUsed == if used == Some(h) then now else before[h].lastUsed)
  }

  /** The proofs that meet a condition, as they were. */
  ghost predicate Left(before: map<Handle, Proof>, after: map<Handle, Proof>, kept: Handle -> bool) {
    forall h :: (h in after <==> h in before && kept(h)) && (h in after ==> after[h] == before[h])
  }

  /**
   * Signing: expired exactly when there is no proof of less than ten minutes; refused exactly when there is, but the
   * transcript is over 64 KiB or does not begin with the prefix; signed exactly when the proof's session was used
   * less than an hour ago, and is used now. The proof is gone in every case, and so are expired ones.
   */
  lemma SignOutcome(store: Store, handle: Handle, transcript: Bytes, prefix: Bytes, t: nat, u: nat)
    ensures var (after, r) := Alone(store, Entered(SignTake(handle, transcript)), [t, u, u], ["", "", ""], 0, prefix);
            var held, fits := InTime(store.proofs, handle, t), |transcript| <= 65_536 && prefix <= transcript;
            && (handle == "" ==> r == Returned(InvalidInput) && after == store)
            && (handle != "" ==>
                  && (r == Returned(ProofExpired) <==> !held)
                  && (r == Returned(InvalidInput) <==> held && !fits)
                  && (r == Returned(Signed) <==> held && fits && Alive(store.sessions, store.proofs[handle].session, u))
                  && (r.Returned? && r.outcome in {ProofExpired, InvalidInput, InvalidSession, Signed})
                  && Left(store.proofs, after.proofs, h => h != handle && InTime(store.proofs, h, t))
                  && (if held && fits then AliveLeft(store.sessions, after.sessions, u, Some(store.proofs[handle].session))
                      else after.sessions == store.sessions))
  {
    if handle == "" {
      assert Alone(store, Returned(InvalidInput), [t, u, u], ["", "", ""], 0, prefix) == (store, Returned(InvalidInput));
    } else {
      SignAlone(store, handle, transcript, prefix, t, u);
    }
  }

  /** Opening: the new session and proof are added to the sessions alive and the proofs in time. */
  lemma OpenOutcome(store: Store, key: Bytes, seed: Bytes, t: nat, s: Handle, u: nat, p: Handle, serial: nat)
    requires !Alive(store.sessions, s, t) && !InTime(store.proofs, p, u)
    ensures var (after, r) := Alone(store, Entered(OpenSession(key, seed)), [t, u], [s, p], serial, []);
            && r == Returned(Opened(s, p))
            && s in after.sessions && after.sessions[s] == Session(key, t) && AliveLeft(store.sessions, after.sessions - {s}, t, None)
            && p in after.proofs && after.proofs[p] == Proof(serial, seed, s, u)
            && Left(store.proofs, after.proofs - {p}, h => InTime(store.proofs, h, u))
  {
    OpenAlone(store, key, seed, t, s, u, p, serial);
  }

  /** Discarding and cancelling answer the same whether or not anything was there; both need non-empty handles. */
  lemma CancelOutcome(store: Store, handle: Handle, s: Handle)
    ensures var (after, r) := Alone(store, Entered(DiscardProof(handle)), [0], [""], 0, []);
            && r == Returned(if handle == "" then InvalidInput else Done) && after.sessions == store.sessions
            && Left(store.proofs, after.proofs, h => handle == "" || h != handle)
    ensures var (after, r) := Alone(store, Entered(CancelProof(handle, s)), [0, 0, 0], ["", "", ""], 0, []);
            && (handle == "" || s == "" ==> r == Returned(InvalidInput) && after == store)
            && (handle != "" && s != "" ==>
                  && r == Returned(Done) && after.sessions == store.sessions - {s}
                  && Left(store.proofs, after.proofs, h => h != handle && h in store.proofs && store.proofs[h].session != s))
  {
    if handle != "" {
      OneTimedStep(store, DiscardProof(handle), 0);
      if s != "" { CancelAlone(store, handle, s); }
    }
  }

  /** Locking removes the session and its proofs, and tells whether it was there, alive or not. */
  lemma LockOutcome(store: Store, s: Handle)
    ensures var (after, r) := Alone(store, Entered(LockSession(s)), [0, 0], ["", ""], 0, []);
            && (s == "" ==> r == Returned(InvalidInput) && after == store)
            && (s != "" ==>
                  && r == Returned(if s in store.sessions then Done else InvalidSession)
                  && after.sessions == store.sessions - {s}
                  && Left(store.proofs, after.proofs, h => h in store.proofs && store.proofs[h].session != s))
  {
    if s != "" { LockAlone(store, s); }
  }

  /** Using a session and asking for it both find it exactly when it is alive; only using it renews it. */
  lemma UseOutcome(store: Store, s: Handle, now: nat)
    ensures var (after, r) := Alone(store, Entered(UseSession(s)), [now], [""], 0, []);
            && (s == "" ==> r == Returned(InvalidInput) && after == store)
            && (s != "" ==>
                  && r == Returned(if Alive(store.sessions, s, now) then Done else InvalidSession)
                  && AliveLeft(store.sessions, after.sessions, now, Some(s)) && after.proofs == store.proofs)
    ensures var (after, r) := Alone(store, Entered(AskSession(s)), [now], [""], 0, []);
            && (s == "" ==> r == Returned(Answer(false)) && after == store)
            && (s != "" ==>
                  && r == Returned(Answer(Alive(store.sessions, s, now)))
                  && AliveLeft(store.sessions, after.sessions, now, None) && after.proofs == store.proofs)
  {
    if s != "" {
      OneTimedStep(store, UseSession(s), now);
      OneTimedStep(store, AskSession(s), now);
    }
  }

  class HandleStore {
    var sessions: map<Handle, Session>
    var proofs: map<Handle, Proof>
    var issued: nat

    function Contents(): Store
      reads this
    {
      Store(sessions, proofs)
    }

    constructor ()
      ensures Contents() == START.store && issued == 0
    {
      sessions, proofs, issued := map[], map[], 0;
    }

    method InsertSession(key: Bytes, now: nat, draws: seq<Handle>) returns (handle: Option<Handle>)
      modifies this`sessions
      ensures handle.None? ==> sessions == FreshSessions(old(sessions), now) && forall h :: h in draws ==> h in sessions
      ensures handle.Some? ==> handle.value !in FreshSessions(old(sessions), now)
      ensures handle.Some? ==> sessions == FreshSessions(old(sessions), now)[handle.value := Session(key, now)]
    {
      sessions := FreshSessions(sessions, now);
      handle := NewHandle(sessions, draws);
      if handle.Some? { sessions := sessions[handle.value := Session(key, now)]; }
    }

    method InsertRecoveryProof(session: Handle, seed: Bytes, now: nat, draws: seq<Handle>)
      returns (handle: Option<Handle>)
      modifies this`proofs, this`issued
      ensures handle.None? ==> proofs == FreshProofs(old(proofs), now) && forall h :: h in draws ==> h in proofs
      ensures handle.None? ==> issued == old(issued)
      ensures handle.Some? ==> handle.value !in FreshProofs(old(proofs), now) && issued == old(issued) + 1
      ensures handle.Some? ==>
                proofs == FreshProofs(old(proofs), now)[handle.value := Proof(old(issued), seed, session, now)]
    {
      proofs := FreshProofs(proofs, now);
      handle := NewHandle(proofs, draws);
      if handle.Some? {
        proofs, issued := proofs[handle.value := Proof(issued, seed, session, now)], issued + 1;
      }
    }

    /** The two inserts of `mobile_open_recovery_v2`, after the packet has been decrypted. */
    method Open(key: Bytes, seed: Bytes, t: nat, sessionDraws: seq<Handle>, u: nat, proofDraws: seq<Handle>)
      returns (outcome: Option<Outcome>)
      modifies this
      ensures outcome.Some? ==>
                && outcome.value.Opened?
                && HandleIsNew(old(Contents()), OpenSession(key, seed), t, outcome.value.session)
                && (Contents(), Returned(outcome.value)) ==
                   Alone(old(Contents()), OpenSession(key, seed), [t, u], [outcome.value.session, outcome.value.proof],
                         old(issued), [])
      ensures outcome.None? ==>
                (forall h :: h in sessionDraws ==> h in old(sessions)) || (forall h :: h in proofDraws ==> h in old(proofs))
    {
      ghost var before := Contents();
      var session := InsertSession(key, t, sessionDraws);
      if session.None? { return None; }
      var proof := InsertRecoveryProof(session.value, seed, u, proofDraws);
      if proof.None? { return None; }
      outcome := Some(Opened(session.value, proof.value));
      OpenAlone(before, key, seed, t, session.value, u, proof.value, old(issued));
    }

    method TakeRecoveryProof(handle: Handle, now: nat) returns (proof: Option<Proof>)
      modifies this`proofs
      ensures proofs == FreshProofs(old(proofs), now) - {handle}
      ensures proof == Lookup(FreshProofs(old(proofs), now), handle)
    {
      proofs := FreshProofs(proofs, now);
      proof := Lookup(proofs, handle);
      proofs := proofs - {handle};
    }

    /** `with_session`, up to the operation it runs. */
    method WithSession(handle: Handle, now: nat) returns (session: Option<Session>)
      modifies this`sessions
      ensures sessions == Renewed(old(sessions), handle, now)
      ensures session == Lookup(Renewed(old(sessions), handle, now), handle)
    {
      sessions := FreshSessions(sessions, now);
      session := Lookup(sessions, handle);
      if session.Some? {
        session := Some(session.value.(lastUsed := now));
        sessions := sessions[handle := session.value];
      }
    }

    /** `mobile_sign_recovery_finish`; the signature itself is the seed and the transcript it is made from. */
    method SignRecoveryFinish(handle: Handle, transcript: Bytes, prefix: Bytes, t: nat, u: nat)
      returns (outcome: Outcome, signed: Option<(Bytes, Bytes)>)
      modifies this`sessions, this`proofs
      ensures (Contents(), Returned(outcome)) ==
              Alone(old(Contents()), Entered(SignTake(handle, transcript)), [t, u, u], ["", "", ""], 0, prefix)
      ensures outcome.Signed? <==> signed.Some?
      ensures signed.Some? ==>
                handle in old(proofs) && handle !in proofs && signed == Some((old(proofs)[handle].seed, transcript))
    {
      signed := None;
      ghost var before := Contents();
      if handle == "" { return InvalidInput, None; }
      var proof := TakeRecoveryProof(handle, t);
      if proof.None? {
        outcome := ProofExpired;
      } else if !TranscriptAccepted(transcript, prefix) {
        outcome := InvalidInput;
      } else {
        var session := WithSession(proof.value.session, u);
        outcome := if session.None? then InvalidSession else Signed;
        if session.Some? { signed := Some((proof.value.seed, transcript)); }
      }
      SignAlone(before, handle, transcript, prefix, t, u);
    }

    method DiscardProof(handle: Handle) returns (outcome: Outcome)
      modifies this`proofs
      ensures (Contents(), Returned(outcome)) ==
              Alone(old(Contents()), Entered(Call.DiscardProof(handle)), [0], [""], 0, [])
    {
      if handle == "" { return InvalidInput; }
      proofs := proofs - {handle};
      outcome := Done;
      OneTimedStep(old(Contents()), Call.DiscardProof(handle), 0);
    }

    method CancelRecovery(handle: Handle, session: Handle) returns (outcome: Outcome)
      modifies this`sessions, this`proofs
      ensures (Contents(), Returned(outcome)) ==
              Alone(old(Contents()), Entered(CancelProof(handle, session)), [0, 0, 0], ["", "", ""], 0, [])
    {
      if handle == "" || session == "" { return InvalidInput; }
      CancelAlone(Contents(), handle, session);
      proofs := proofs - {handle};
      proofs := ProofsOfOthers(proofs, session);
      sessions := sessions - {session};
      outcome := Done;
    }

    method LockVault(session: Handle) returns (outcome: Outcome)
      modifies this`sessions, this`proofs
      ensures (Contents(), Returned(outcome)) ==
              Alone(old(Contents()), Entered(LockSession(session)), [0, 0], ["", ""], 0, [])
      ensures session != "" ==> (outcome == Done <==> session in old(sessions))
    {
      if session == "" { return InvalidInput; }
      LockAlone(Contents(), session);
      var removed := session in sessions;
      sessions := sessions - {session};
      proofs := ProofsOfOthers(proofs, session);
      outcome := if removed then Done else InvalidSession;
    }

    method LockAllVaults()
      modifies this`sessions, this`proofs
      ensures Contents() == START.store
    {
      sessions := map[];
      proofs := map[];
    }

    /** Asking does not renew the session. */
    method SessionIsValid(session: Handle, now: nat) returns (valid: bool)
      modifies this`sessions
      ensures (Contents(), Returned(Answer(valid))) ==
              Alone(old(Contents()), Entered(AskSession(session)), [now], [""], 0, [])
    {
      if session == "" { return false; }
      OneTimedStep(Contents(), AskSession(session), now);
      sessions := FreshSessions(sessions, now);
      valid := session in sessions;
    }
  }

}
