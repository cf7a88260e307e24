/** The life of a client: synchronising, dying on the way, resolving conflicts and editing, in any order. */
module ClientRuns {
  import opened Seqs
  import opened ItemSync
  import opened PlanLaws
  import opened PushReplies
  import opened Pull
  import opened SyncRuns
  import opened ConflictResolution
  import CrashRuns

  datatype Client = Client(st: SyncState, items: seq<Item>, pos: nat)

  datatype Act =
    | Synchronise(replies: seq<PushReply>, pages: seq<PullReply>)
    | ResolveOne(id: string, choice: Choice, pages: seq<PullReply>, stamp: CopyStamp)
    | Interrupted(event: CrashRuns.Event)
    | Edit(items: seq<Item>)

  ghost predicate ClientOk(c: Client, rng: Entropy) {
    StateOk(c.st, rng, c.pos) && UniqueIds(c.items)
  }

  ghost predicate SchemaPages(pages: seq<PullReply>) {
    forall c :: c in AllChanges(pages) ==> 0 <= c.Revision()
  }

  /**
   * What the surroundings guarantee: feed pages pass their schema, a new id is unused, and an edited
   * vault has one item for each id. Server replies to a push are not restricted at all.
   */
  ghost predicate Allowed(c: Client, act: Act) {
    match act
    case Synchronise(_, pages) => SchemaPages(pages)
    case ResolveOne(id, _, pages, stamp) => SchemaPages(pages) && UnusedId(c.st, c.items, stamp.id) && stamp.id != id
    case Interrupted(_) => true
    case Edit(items) => UniqueIds(items)
  }

  ghost function Perform(c: Client, userId: string, rng: Entropy, act: Act): (c': Client)
    requires ClientOk(c, rng)
    ensures ClientOk(c', rng)
  {
    if !Allowed(c, act) then c
    else
      match act
      case Synchronise(replies, pages) =>
        SyncStateOk(c.st, userId, c.items, rng, c.pos, replies, pages);
        var r := SyncRun(c.st, userId, c.items, rng, c.pos, replies, pages);
        Client(r.st, r.items, r.pos)
      case ResolveOne(id, choice, pages, stamp) =>
        ResolveKeepsOk(c, userId, rng, id, choice, pages, stamp);
        var scan := ScanFrom(0, pages, 0, id, None);
        if id !in c.st.conflicts || scan.Broken? then c
        else
          var r := Resolve(c.st, userId, c.items, id, choice, scan.remote, stamp);
          if r.Refused? then c else Client(r.st, r.items, c.pos)
      case Interrupted(event) =>
        var w := CrashRuns.Step(CrashRuns.World(c.st, c.items, c.pos, []), userId, rng, event);
        Client(w.disk, w.items, w.pos)
      case Edit(items) => Client(c.st, items, c.pos)
  }

  lemma ResolveKeepsOk(c: Client, userId: string, rng: Entropy, id: string, choice: Choice, pages: seq<PullReply>,
                       stamp: CopyStamp)
    requires ClientOk(c, rng) && Allowed(c, ResolveOne(id, choice, pages, stamp))
    ensures var scan := ScanFrom(0, pages, 0, id, None);
            scan.Found? ==>
              var r := Resolve(c.st, userId, c.items, id, choice, scan.remote, stamp);
              r.Resolved? ==> ClientOk(Client(r.st, r.items, c.pos), rng)
  {
    var scan := ScanFrom(0, pages, 0, id, None);
    if scan.Found? {
      var n := ScanFinds(0, pages, 0, id, None);
      LastChangeIsLast(AllChanges(pages[..n]), id);
      AllChangesPrefix(pages, n);
      ResolutionFixesNextPush(c.st, userId, c.items, id, choice, scan.remote, stamp, rng, c.pos);
    }
  }

  ghost function Live(c: Client, userId: string, rng: Entropy, acts: seq<Act>): (c': Client)
    requires ClientOk(c, rng)
    ensures ClientOk(c', rng)
    decreases |acts|
  {
    if acts == [] then c else Live(Perform(c, userId, rng, acts[0]), userId, rng, acts[1..])
  }

  /**
   * From the empty state, whatever is synchronised, resolved or edited in between, whatever the server answers, and
   * wherever a push round or a page dies between two writes of its commit, the next plan has at most a hundred
   * operations on distinct items under distinct mutation ids, and can be rebuilt identically from what it stored.
   */
  lemma EveryPlanMeetsSchema(items: seq<Item>, userId: string, rng: Entropy, acts: seq<Act>, rng': Entropy, pos': nat)
    requires UniqueIds(items) && forall m: nat, n: nat :: m < n ==> rng(m).uuid != rng(n).uuid
    ensures var start := Client(EMPTY_SYNC_STATE, items, 0);
            ClientOk(start, rng) &&
            var c := Live(start, userId, rng, acts);
            var b := BuildPlan(c.st, userId, c.items, rng, c.pos);
            && MeetsSchema(b.ops)
            && BuildPlan(c.st.(pending := b.pending), userId, c.items, rng', pos') == Built(b.ops, b.pending, pos')
  {
    var c := Live(Client(EMPTY_SYNC_STATE, items, 0), userId, rng, acts);
    PlanMeetsSchema(c.st, userId, c.items, rng, c.pos);
    PlanIdempotent(c.st, userId, c.items, rng, c.pos, rng', pos');
  }
}
