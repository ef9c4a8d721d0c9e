/** Whole runs of an established row: no durable copy is lost or written twice, and none is written early or late. */
module LiveRuns {
  import opened Chain
  import opened Fragment
  import opened HealRow
  import opened HealSearch
  import opened LiveRow
  import opened Numbers
  import opened Packets
  import opened SendPositions
  import opened Tags
  import opened Wrappers

  // ---------------------------------------------------------------- the queue

  /** The position after an entry's copies, and the position of its first copy. */
  function To(p: Pending): nat { Depth(p.sealedTo.c) }

  function From(p: Pending): int { To(p) - |p.bodies| }

  /** The position after a whole queue that starts at `at`. */
  function Tip(pending: seq<Pending>, at: nat): nat {
    if pending == [] then at else To(pending[|pending| - 1])
  }

  ghost predicate EntryOk(joined: SendChain, p: Pending) {
    && p.acks == 0 && p.needed == 1
    && 0 < |p.bodies| <= To(p)
    && p.sealedTo == StepN(joined, To(p))
    && IsRun(joined, From(p), p.bodies)
  }

  /** Entries hold runs of the chain, each past the one before. Gaps remain where entries were released. */
  ghost predicate QueueOk(joined: SendChain, at: nat, pending: seq<Pending>) {
    pending == [] ||
    var n := |pending| - 1;
    && QueueOk(joined, at, pending[..n])
    && EntryOk(joined, pending[n])
    && Tip(pending[..n], at) <= From(pending[n])
  }

  /** The clock only moves forward, so entries stand in the order they were sent. */
  ghost predicate SentInOrder(pending: seq<Pending>, now: Option<U64>) {
    && (pending != [] ==> now.Some?)
    && (forall i :: 0 <= i < |pending| ==> pending[i].sentAt <= now.value)
    && (forall i, j :: 0 <= i < j < |pending| ==> pending[i].sentAt <= pending[j].sentAt)
  }

  function PostedBodies(posts: seq<Post>): seq<Body> {
    if posts == [] then [] else PostedBodies(posts[..|posts| - 1]) + [posts[|posts| - 1].body]
  }

  /** Every copy ever sealed is in exactly one place. */
  ghost predicate Conserved(row: Live) {
    multiset(row.sealed)
    == multiset(Bodies(row.pending)) + multiset(row.released) + multiset(PostedBodies(row.posted))
  }

  function LiveOrigin(route: Route, row: Live): SendChain {
    if row.send.Some? then row.send.value else route.joined
  }

  function LiveAt(route: Route, row: Live): nat { Depth(LiveOrigin(route, row).c) }

  ghost predicate LiveInv(route: Route, row: Live) {
    && Depth(route.joined.c) == 0
    && LiveOrigin(route, row) == StepN(route.joined, LiveAt(route, row))
    && Increasing(route.joined, row.posted, LiveAt(route, row))
    && QueueOk(route.joined, LiveAt(route, row), row.pending)
    && SentInOrder(row.pending, row.ticked)
    && (route.ephemeral == [] ==> row.pending == [])
    && Conserved(row)
  }

  // ---------------------------------------------------------------- facts about queues

  lemma {:induction false} QueueStands(joined: SendChain, at: nat, pending: seq<Pending>)
    requires QueueOk(joined, at, pending)
    ensures at <= Tip(pending, at)
    ensures pending != [] ==> pending[|pending| - 1].sealedTo == StepN(joined, Tip(pending, at))
  {
    if pending != [] {
      QueueStands(joined, at, pending[..|pending| - 1]);
    }
  }

  lemma {:induction false} EntryStands(joined: SendChain, at: nat, pending: seq<Pending>, p: Pending)
    requires QueueOk(joined, at, pending) && p in pending
    ensures EntryOk(joined, p) && at <= From(p)
  {
    var n := |pending| - 1;
    QueueStands(joined, at, pending[..n]);
    if p != pending[n] {
      assert pending == pending[..n] + [pending[n]];
      EntryStands(joined, at, pending[..n], p);
    }
  }

  lemma {:induction false} QueueSplits(joined: SendChain, at: nat, a: seq<Pending>, b: seq<Pending>)
    requires QueueOk(joined, at, a + b)
    ensures QueueOk(joined, at, a) && QueueOk(joined, Tip(a, at), b)
  {
    if b == [] {
      assert a + b == a;
    } else {
      var n := |b| - 1;
      assert (a + b)[..|a + b| - 1] == a + b[..n];
      QueueSplits(joined, at, a, b[..n]);
      assert n > 0 ==> (a + b[..n])[|a + b[..n]| - 1] == b[n - 1];
      assert n == 0 ==> a + b[..n] == a;
    }
  }

  lemma {:induction false} BodiesJoin(a: seq<Pending>, b: seq<Pending>)
    ensures Bodies(a + b) == Bodies(a) + Bodies(b)
  {
    if b == [] {
      assert a + b == a;
    } else {
      assert (a + b)[..|a + b| - 1] == a + b[..|b| - 1];
      BodiesJoin(a, b[..|b| - 1]);
    }
  }

  lemma {:induction false} PostedJoin(a: seq<Post>, b: seq<Post>)
    ensures PostedBodies(a + b) == PostedBodies(a) + PostedBodies(b)
  {
    if b == [] {
      assert a + b == a;
    } else {
      assert (a + b)[..|a + b| - 1] == a + b[..|b| - 1];
      PostedJoin(a, b[..|b| - 1]);
    }
  }

  lemma {:induction false} PostedOfWritten(channels: seq<nat>, bodies: seq<Body>)
    ensures PostedBodies(Written(channels, bodies)) == bodies
  {
    if bodies != [] {
      var n := |bodies| - 1;
      assert Written(channels, bodies)[..n] == Written(channels, bodies[..n]);
      PostedOfWritten(channels, bodies[..n]);
      assert bodies == bodies[..n] + [bodies[n]];
    }
  }

  lemma WrittenJoin(channels: seq<nat>, a: seq<Body>, b: seq<Body>)
    ensures Written(channels, a + b) == Written(channels, a) + Written(channels, b)
  {
  }

  // ---------------------------------------------------------------- writing keeps positions increasing

  lemma WriteRun(joined: SendChain, posted: seq<Post>, at: nat, from: nat, bodies: seq<Body>, channels: seq<nat>)
    requires Depth(joined.c) == 0 && Increasing(joined, posted, at) && at <= from && IsRun(joined, from, bodies)
    ensures Increasing(joined, posted + Written(channels, bodies), from + |bodies|)
  {
    var more := Written(channels, bodies);
    forall i | 0 <= i < |more|
      ensures PositionOf(more[i]) == from + i && more[i].body.Sealed? && more[i].body.key == KeyAt(joined, from + i)
    {
      StepNFacts(joined, from + i);
    }
    assert forall i :: |posted| <= i < |posted + more| ==> (posted + more)[i] == more[i - |posted|];
  }

  lemma {:induction false} WriteQueue(joined: SendChain, posted: seq<Post>, at: nat, due: seq<Pending>, channels: seq<nat>)
    requires Depth(joined.c) == 0 && Increasing(joined, posted, at) && QueueOk(joined, at, due)
    ensures Increasing(joined, posted + Written(channels, Bodies(due)), Tip(due, at))
  {
    if due == [] {
      assert posted + Written(channels, []) == posted;
    } else {
      var n := |due| - 1;
      WriteQueue(joined, posted, at, due[..n], channels);
      WriteEntry(joined, posted, Tip(due[..n], at), Bodies(due[..n]), due[n], channels);
    }
  }

  lemma WriteEntry(joined: SendChain, posted: seq<Post>, at: nat, done: seq<Body>, p: Pending, channels: seq<nat>)
    requires Depth(joined.c) == 0 && Increasing(joined, posted + Written(channels, done), at)
    requires EntryOk(joined, p) && at <= From(p)
    ensures Increasing(joined, posted + Written(channels, done + p.bodies), To(p))
  {
    var before := posted + Written(channels, done);
    WriteRun(joined, before, at, From(p), p.bodies, channels);
    WrittenJoin(channels, done, p.bodies);
    assert before + Written(channels, p.bodies) == posted + Written(channels, done + p.bodies);
  }

  // ---------------------------------------------------------------- due entries are a prefix

  lemma {:induction false} AllDue(pending: seq<Pending>, now: U64)
    requires forall i :: 0 <= i < |pending| ==> IsDue(pending[i], now)
    ensures Due(pending, now) == pending && NotDue(pending, now) == []
  {
    if pending != [] {
      var n := |pending| - 1;
      AllDue(pending[..n], now);
      assert pending == pending[..n] + [pending[n]];
    }
  }

  /** What a tick writes is a prefix of the queue, and what it leaves is the rest. */
  lemma {:induction false} DueIsPrefix(pending: seq<Pending>, now: U64)
    requires forall i, j :: 0 <= i < j < |pending| ==> pending[i].sentAt <= pending[j].sentAt
    ensures pending == Due(pending, now) + NotDue(pending, now)
    ensures forall p :: p in Due(pending, now) ==> IsDue(p, now)
    ensures forall p :: p in NotDue(pending, now) ==> !IsDue(p, now)
  {
    if pending != [] {
      var n := |pending| - 1;
      var front, last := pending[..n], pending[n];
      assert pending == front + [last];
      if IsDue(last, now) {
        AllDue(pending, now);
      } else {
        DueIsPrefix(front, now);
        assert Due(front, now) + (NotDue(front, now) + [last]) == front + [last];
      }
    }
  }

  // ---------------------------------------------------------------- acknowledgements

  /** An acknowledgement leaves exactly the entries whose fingerprint it does not match, unchanged and in order. */
  lemma {:induction false} KeptStands(joined: SendChain, at: nat, pending: seq<Pending>, xor: Tag)
    requires QueueOk(joined, at, pending)
    ensures QueueOk(joined, at, Kept(pending, xor))
    ensures Tip(Kept(pending, xor), at) <= Tip(pending, at)
    ensures forall p :: p in Kept(pending, xor) <==> p in pending && p.setXor != xor
  {
    if pending != [] {
      var n := |pending| - 1;
      KeptStands(joined, at, pending[..n], xor);
      QueueStands(joined, at, pending[..n]);
      assert pending == pending[..n] + [pending[n]];
      var rest := Kept(pending[..n], xor);
      assert (rest + [pending[n]])[..|rest|] == rest;
    }
  }

  lemma OrderGrows(pending: seq<Pending>, p: Pending, now: Option<U64>)
    requires SentInOrder(pending, now) && now.Some? && p.sentAt <= now.value
    requires forall q :: q in pending ==> q.sentAt <= p.sentAt
    ensures SentInOrder(pending + [p], now)
  {
    assert forall i :: 0 <= i < |pending| ==> pending[i] in pending;
  }

  lemma {:induction false} KeptInOrder(joined: SendChain, at: nat, pending: seq<Pending>, xor: Tag, now: Option<U64>)
    requires QueueOk(joined, at, pending) && SentInOrder(pending, now)
    ensures SentInOrder(Kept(pending, xor), now)
  {
    if pending != [] {
      var n := |pending| - 1;
      var front, last := pending[..n], pending[n];
      KeptInOrder(joined, at, front, xor, now);
      KeptStands(joined, at, front, xor);
      assert forall p :: p in front ==> p.sentAt <= last.sentAt;
      OrderGrows(Kept(front, xor), last, now);
    }
  }

  /** Nothing is lost on the way: what leaves the queue and what stays are what was there. */
  lemma {:induction false} SettleConserves(joined: SendChain, at: nat, pending: seq<Pending>, xor: Tag)
    requires QueueOk(joined, at, pending)
    ensures multiset(Bodies(pending)) == multiset(Bodies(Kept(pending, xor))) + multiset(Bodies(Dropped(pending, xor)))
  {
    if pending != [] {
      var n := |pending| - 1;
      SettleConserves(joined, at, pending[..n], xor);
      BodiesOfOne(Kept(pending[..n], xor), pending[n]);
      BodiesOfOne(Dropped(pending[..n], xor), pending[n]);
    }
  }

  lemma BodiesOfOne(a: seq<Pending>, p: Pending)
    ensures Bodies(a + [p]) == Bodies(a) + p.bodies
  {
    assert (a + [p])[..|a|] == a;
  }

  // ---------------------------------------------------------------- what each step keeps

  lemma ChainTip(route: Route, row: Live)
    requires LiveInv(route, row)
    ensures SendingChain(route, row) == StepN(route.joined, Tip(row.pending, LiveAt(route, row)))
  {
    QueueStands(route.joined, LiveAt(route, row), row.pending);
  }

  lemma SettleKeeps(route: Route, row: Live, xor: Tag, now: U64)
    requires LiveInv(route, row)
    ensures LiveInv(route, SettleLive(row, xor, now))
  {
    var at := LiveAt(route, row);
    KeptStands(route.joined, at, row.pending, xor);
    KeptInOrder(route.joined, at, row.pending, xor, row.ticked);
    SettleConserves(route.joined, at, row.pending, xor);
  }

  lemma FlushConserves(route: Route, row: Live, now: U64)
    requires LiveInv(route, row)
    ensures Conserved(FlushLive(route, row, now))
  {
    DueIsPrefix(row.pending, now);
    if Due(row.pending, now) != [] {
      WrittenIsConserved(row, FlushLive(route, row, now), Due(row.pending, now), NotDue(row.pending, now), route.durable);
    }
  }

  /** Writing the first entries of the queue moves their copies, and loses none. */
  lemma WrittenIsConserved(row: Live, next: Live, due: seq<Pending>, rest: seq<Pending>, channels: seq<nat>)
    requires Conserved(row) && row.pending == due + rest
    requires next.pending == rest && next.posted == row.posted + Written(channels, Bodies(due))
    requires next.sealed == row.sealed && next.released == row.released
    ensures Conserved(next)
  {
    BodiesJoin(due, rest);
    PostedJoin(row.posted, Written(channels, Bodies(due)));
    PostedOfWritten(channels, Bodies(due));
  }

  lemma TailInOrder(a: seq<Pending>, b: seq<Pending>, now: Option<U64>)
    requires SentInOrder(a + b, now)
    ensures SentInOrder(b, now)
  {
    assert forall i :: 0 <= i < |b| ==> b[i] == (a + b)[|a| + i];
  }

  lemma RestInOrder(row: Live, now: U64)
    requires SentInOrder(row.pending, row.ticked)
    ensures SentInOrder(NotDue(row.pending, now), row.ticked)
  {
    DueIsPrefix(row.pending, now);
    TailInOrder(Due(row.pending, now), NotDue(row.pending, now), row.ticked);
  }

  lemma FlushMoves(route: Route, row: Live, now: U64)
    requires LiveInv(route, row) && Due(row.pending, now) != []
    ensures var next := FlushLive(route, row, now); var at := Tip(Due(row.pending, now), LiveAt(route, row));
            && LiveAt(route, next) == at && LiveOrigin(route, next) == StepN(route.joined, at)
            && Increasing(route.joined, next.posted, at)
            && QueueOk(route.joined, at, next.pending)
  {
    var at := LiveAt(route, row);
    var due, rest := Due(row.pending, now), NotDue(row.pending, now);
    DueIsPrefix(row.pending, now);
    QueueSplits(route.joined, at, due, rest);
    WriteQueue(route.joined, row.posted, at, due, route.durable);
    QueueStands(route.joined, at, due);
  }

  lemma FlushKeeps(route: Route, row: Live, now: U64)
    requires LiveInv(route, row)
    ensures LiveInv(route, FlushLive(route, row, now))
  {
    if Due(row.pending, now) != [] {
      FlushMoves(route, row, now);
      FlushConserves(route, row, now);
      RestInOrder(row, now);
    }
  }

  lemma SealsFrom(joined: SendChain, at: nat, packets: seq<PacketPlain>)
    requires Depth(joined.c) == 0
    ensures IsRun(joined, at, SealPackets(StepN(joined, at), packets))
    ensures StepN(StepN(joined, at), |packets|) == StepN(joined, at + |packets|)
    ensures Depth(StepN(joined, at + |packets|).c) == at + |packets|
  {
    SealPacketsIsRun(joined, at, packets);
    StepNAdds(joined, at, |packets|);
    StepNFacts(joined, at + |packets|);
  }

  /** One more entry that starts where the queue ends. */
  lemma QueueGrows(joined: SendChain, at: nat, pending: seq<Pending>, p: Pending)
    requires QueueOk(joined, at, pending) && EntryOk(joined, p) && From(p) == Tip(pending, at)
    ensures QueueOk(joined, at, pending + [p])
  {
    assert (pending + [p])[..|pending|] == pending;
  }

  /** The entry that holds back these packets, sealed from position `at` on. */
  function EntryFor(row: Live, chain: SendChain, packets: seq<PacketPlain>, now: U64): Pending {
    Pending(RangeXorOf(row.ids, ZERO, INF), now, SealPackets(chain, packets), StepN(chain, |packets|), 0, 1)
  }

  lemma WaitIs(route: Route, row: Live, chain: SendChain, packets: seq<PacketPlain>, now: U64)
    requires route.ephemeral != []
    ensures var next, p := AfterPost(route, row, chain, packets, now), EntryFor(row, chain, packets, now);
            && next.pending == row.pending + [p] && next.sealed == row.sealed + p.bodies
            && next.posted == row.posted && next.released == row.released
            && next.send == row.send && next.ticked == row.ticked
  {
  }

  lemma EntryFits(route: Route, row: Live, packets: seq<PacketPlain>, now: U64)
    requires LiveInv(route, row) && packets != []
    ensures var p := EntryFor(row, SendingChain(route, row), packets, now);
            EntryOk(route.joined, p) && From(p) == Tip(row.pending, LiveAt(route, row))
  {
    ChainTip(route, row);
    SealsFrom(route.joined, Tip(row.pending, LiveAt(route, row)), packets);
  }

  lemma ConservedGrows(row: Live, next: Live, p: Pending)
    requires Conserved(row) && next.pending == row.pending + [p] && next.sealed == row.sealed + p.bodies
    requires next.posted == row.posted && next.released == row.released
    ensures Conserved(next)
  {
    BodiesOfOne(row.pending, p);
  }

  lemma WaitKeeps(route: Route, row: Live, packets: seq<PacketPlain>)
    requires LiveInv(route, row) && row.ticked.Some? && packets != [] && route.ephemeral != []
    ensures LiveInv(route, AfterPost(route, row, SendingChain(route, row), packets, row.ticked.value))
  {
    var chain, now := SendingChain(route, row), row.ticked.value;
    var next, p := AfterPost(route, row, chain, packets, now), EntryFor(row, chain, packets, now);
    WaitIs(route, row, chain, packets, now);
    EntryFits(route, row, packets, now);
    assert p.sentAt == now;
    PendingGrows(route, row, next, p);
  }

  lemma PendingGrows(route: Route, row: Live, next: Live, p: Pending)
    requires LiveInv(route, row) && row.ticked == Some(p.sentAt) && route.ephemeral != []
    requires EntryOk(route.joined, p) && From(p) == Tip(row.pending, LiveAt(route, row))
    requires next.pending == row.pending + [p] && next.sealed == row.sealed + p.bodies
    requires next.posted == row.posted && next.released == row.released
    requires next.send == row.send && next.ticked == row.ticked
    ensures LiveInv(route, next)
  {
    QueueGrows(route.joined, LiveAt(route, row), row.pending, p);
    assert forall q :: q in row.pending ==> q.sentAt <= p.sentAt;
    OrderGrows(row.pending, p, row.ticked);
    ConservedGrows(row, next, p);
  }

  lemma DirectKeeps(route: Route, row: Live, packets: seq<PacketPlain>)
    requires LiveInv(route, row) && row.ticked.Some? && packets != [] && route.ephemeral == []
    ensures LiveInv(route, AfterPost(route, row, SendingChain(route, row), packets, row.ticked.value))
  {
    var chain := SendingChain(route, row);
    var sealed := SealPackets(chain, packets);
    ChainTip(route, row);
    SealsFrom(route.joined, LiveAt(route, row), packets);
    var at := LiveAt(route, row);
    WriteRun(route.joined, row.posted, at, at, sealed, route.durable);
    PostedJoin(row.posted, Written(route.durable, sealed));
    PostedOfWritten(route.durable, sealed);
  }

  lemma PostKeeps(route: Route, row: Live, tx: Tag)
    requires LiveInv(route, row) && row.ticked.Some?
    ensures var next := PostLive(route, row, tx); next.Some? ==> LiveInv(route, next.value)
  {
    var chain, now := SendingChain(route, row), row.ticked.value;
    var r := Fragments(LiveCarrier(route, row, tx), route.packedTx(tx), chain.packetSeq, 0);
    if PostLive(route, row, tx).Some? {
      if route.ephemeral != [] {
        var shown := ProbePresence(route, row, chain, now);
        SameChain(route, row, shown);
        WaitKeeps(route, shown, r.value);
      } else {
        DirectKeeps(route, row, r.value);
      }
    }
  }

  /** What a row sends next does not depend on presence. */
  lemma SameChain(route: Route, row: Live, shown: Live)
    requires LiveInv(route, row) && shown == row.(ephPosted := shown.ephPosted, presenceSent := shown.presenceSent)
    ensures LiveInv(route, shown) && SendingChain(route, shown) == SendingChain(route, row)
  {
  }

  // ---------------------------------------------------------------- whole runs

  datatype LiveEvent =
    | Merged(id: Tag)
    | SendNew(tx: Tag)
    | AckSeen(xor: Tag)
    | TickTo(now: U64)

  function Merge(row: Live, id: Tag): Live {
    if id in row.ids then row else row.(ids := WithId(row.ids, id))
  }

  /** One event. An operation that fails drops the state it was changing. */
  function LiveApply(route: Route, row: Live, e: LiveEvent): Live {
    match e
    case Merged(id) => Merge(row, id)
    case SendNew(tx) =>
      if row.ticked.None? || PostLive(route, Merge(row, tx), tx).None? then row
      else PostLive(route, Merge(row, tx), tx).value
    case AckSeen(xor) => if row.ticked.None? then row else SettleLive(row, xor, row.ticked.value)
    case TickTo(now) =>
      if row.ticked.Some? && now < row.ticked.value then row else FlushLive(route, row.(ticked := Some(now)), now)
  }

  function LiveRun(route: Route, row: Live, events: seq<LiveEvent>): Live
    decreases |events|
  {
    if events == [] then row else LiveRun(route, LiveApply(route, row, events[0]), events[1..])
  }

  function NewLive(): Live { Live([], None, [], None, false, None, [], [], [], []) }

  lemma TickKeepsOrder(route: Route, row: Live, now: U64)
    requires LiveInv(route, row) && (row.ticked.Some? ==> row.ticked.value <= now)
    ensures LiveInv(route, row.(ticked := Some(now)))
  {
  }

  lemma MergeKeeps(route: Route, row: Live, id: Tag)
    requires LiveInv(route, row)
    ensures LiveInv(route, Merge(row, id))
  {
  }

  lemma SendKeeps(route: Route, row: Live, tx: Tag)
    requires LiveInv(route, row)
    ensures LiveInv(route, LiveApply(route, row, SendNew(tx)))
  {
    if row.ticked.Some? {
      MergeKeeps(route, row, tx);
      PostKeeps(route, Merge(row, tx), tx);
    }
  }

  lemma TickKeeps(route: Route, row: Live, now: U64)
    requires LiveInv(route, row)
    ensures LiveInv(route, LiveApply(route, row, TickTo(now)))
  {
    if row.ticked.None? || row.ticked.value <= now {
      TickKeepsOrder(route, row, now);
      FlushKeeps(route, row.(ticked := Some(now)), now);
      TickIsFlush(route, row, now);
    }
  }

  lemma LiveEventKeeps(route: Route, row: Live, e: LiveEvent)
    requires LiveInv(route, row)
    ensures LiveInv(route, LiveApply(route, row, e))
  {
    match e
    case Merged(id) => MergeKeeps(route, row, id);
    case SendNew(tx) => SendKeeps(route, row, tx);
    case AckSeen(xor) =>
      if row.ticked.Some? {
        SettleKeeps(route, row, xor, row.ticked.value);
      }
    case TickTo(now) => TickKeeps(route, row, now);
  }

  lemma {:induction false} LiveRunKeeps(route: Route, row: Live, events: seq<LiveEvent>)
    requires LiveInv(route, row)
    ensures LiveInv(route, LiveRun(route, row, events))
    decreases |events|
  {
    if events != [] {
      LiveEventKeeps(route, row, events[0]);
      LiveRunKeeps(route, LiveApply(route, row, events[0]), events[1..]);
    }
  }

  lemma NewLiveFits(route: Route)
    requires Depth(route.joined.c) == 0
    ensures LiveInv(route, NewLive())
  {
    assert StepN(route.joined, 0) == route.joined;
  }

  /** In every run each durable copy ever sealed is in exactly one place: waiting, released, or written. */
  lemma CopiesAreConserved(secret: nat, sort: Sort, route: Route, events: seq<LiveEvent>)
    requires !sort.Engine? && route.joined == Join(secret, sort, route.actorId).value
    ensures Conserved(LiveRun(route, NewLive(), events))
  {
    NewLiveFits(route);
    LiveRunKeeps(route, NewLive(), events);
  }

  /** In every run written copies stand at strictly increasing positions of the chain, whatever was released between them. */
  lemma WrittenPositionsGrow(secret: nat, sort: Sort, route: Route, events: seq<LiveEvent>)
    requires !sort.Engine? && route.joined == Join(secret, sort, route.actorId).value
    ensures var posted := LiveRun(route, NewLive(), events).posted;
            forall i, j :: 0 <= i < j < |posted| ==>
              && posted[i].body.Sealed? && posted[j].body.Sealed?
              && posted[i].body.key == KeyAt(route.joined, PositionOf(posted[i]))
              && PositionOf(posted[i]) < PositionOf(posted[j])
  {
    NewLiveFits(route);
    LiveRunKeeps(route, NewLive(), events);
  }

  // ---------------------------------------------------------------- written on time, released only when acknowledged

  /** Nothing in the events acknowledges the entry, and no tick reaches its fallback. */
  ghost predicate Undisturbed(p: Pending, events: seq<LiveEvent>) {
    forall i :: 0 <= i < |events| ==>
      && (events[i].AckSeen? ==> events[i].xor != p.setXor)
      && (events[i].TickTo? ==> events[i].now < SatAdd(p.sentAt, 3))
  }

  lemma StaysInQueue(route: Route, row: Live, p: Pending, e: LiveEvent)
    requires LiveInv(route, row) && p in row.pending && Undisturbed(p, [e])
    ensures p in LiveApply(route, row, e).pending
  {
    assert [e][0] == e;
    match e
    case Merged(id) =>
    case SendNew(tx) =>
    case AckSeen(xor) => KeptStands(route.joined, LiveAt(route, row), row.pending, xor);
    case TickTo(now) => DueIsPrefix(row.pending, now);
  }

  /** An entry stays in the queue, untouched, until its acknowledgement or its fallback. */
  lemma {:induction false} WaitsWhileUndisturbed(route: Route, row: Live, p: Pending, events: seq<LiveEvent>)
    requires LiveInv(route, row) && p in row.pending && Undisturbed(p, events)
    ensures p in LiveRun(route, row, events).pending
    decreases |events|
  {
    if events != [] {
      assert Undisturbed(p, [events[0]]);
      StaysInQueue(route, row, p, events[0]);
      LiveEventKeeps(route, row, events[0]);
      WaitsWhileUndisturbed(route, LiveApply(route, row, events[0]), p, events[1..]);
    }
  }

  lemma NotYetPosted(route: Route, row: Live, p: Pending, k: nat)
    requires LiveInv(route, row) && p in row.pending && k < |p.bodies|
    ensures forall i :: 0 <= i < |row.posted| ==> row.posted[i].body != p.bodies[k]
  {
    EntryStands(route.joined, LiveAt(route, row), row.pending, p);
    StepNFacts(route.joined, From(p) + k);
  }

  lemma {:induction false} InBodies(pending: seq<Pending>, p: Pending, b: Body)
    requires p in pending && b in p.bodies
    ensures b in Bodies(pending)
  {
    var n := |pending| - 1;
    assert pending == pending[..n] + [pending[n]];
    if p != pending[n] {
      InBodies(pending[..n], p, b);
    }
  }

  lemma FlushWrites(route: Route, row: Live, p: Pending, now: U64, k: nat)
    requires LiveInv(route, row) && p in row.pending && IsDue(p, now) && k < |p.bodies|
    ensures p !in FlushLive(route, row, now).pending
    ensures Post(route.durable, p.bodies[k]) in FlushLive(route, row, now).posted
  {
    DueIsPrefix(row.pending, now);
    assert p in Due(row.pending, now);
    var bodies := Bodies(Due(row.pending, now));
    InBodies(Due(row.pending, now), p, p.bodies[k]);
    var i :| 0 <= i < |bodies| && bodies[i] == p.bodies[k];
    assert Written(route.durable, bodies)[i] == Post(route.durable, p.bodies[k]);
  }

  /**
    * An unacknowledged entry is still unwritten just before the first tick that reaches three seconds after it
    * was sent, and that tick writes all of it and takes it out of the queue.
    */
  lemma WrittenOnTime(route: Route, row: Live, p: Pending, events: seq<LiveEvent>, now: U64, k: nat)
    requires LiveInv(route, row) && p in row.pending && Undisturbed(p, events) && k < |p.bodies|
    requires now >= SatAdd(p.sentAt, 3)
    requires var before := LiveRun(route, row, events); before.ticked.Some? ==> before.ticked.value <= now
    ensures var before := LiveRun(route, row, events);
            var after := LiveApply(route, before, TickTo(now));
            && (forall i :: 0 <= i < |before.posted| ==> before.posted[i].body != p.bodies[k])
            && Post(route.durable, p.bodies[k]) in after.posted
            && p !in after.pending
  {
    var before := LiveRun(route, row, events);
    WaitsWhileUndisturbed(route, row, p, events);
    LiveRunKeeps(route, row, events);
    NotYetPosted(route, before, p, k);
    TickWrites(route, before, p, now, k);
  }

  lemma TickWrites(route: Route, row: Live, p: Pending, now: U64, k: nat)
    requires LiveInv(route, row) && p in row.pending && IsDue(p, now) && k < |p.bodies|
    requires row.ticked.Some? ==> row.ticked.value <= now
    ensures var after := LiveApply(route, row, TickTo(now));
            p !in after.pending && Post(route.durable, p.bodies[k]) in after.posted
  {
    var t := row.(ticked := Some(now));
    TickKeepsOrder(route, row, now);
    FlushWrites(route, t, p, now, k);
    TickIsFlush(route, row, now);
  }

  lemma TickIsFlush(route: Route, row: Live, now: U64)
    requires row.ticked.Some? ==> row.ticked.value <= now
    ensures LiveApply(route, row, TickTo(now)) == FlushLive(route, row.(ticked := Some(now)), now)
  {
  }

  lemma {:induction false} KeptIsAll(joined: SendChain, at: nat, pending: seq<Pending>, xor: Tag)
    requires QueueOk(joined, at, pending)
    ensures |Kept(pending, xor)| == |pending| <==> forall p :: p in pending ==> p.setXor != xor
    ensures (forall p :: p in pending ==> p.setXor != xor) ==> Kept(pending, xor) == pending && Dropped(pending, xor) == []
  {
    if pending != [] {
      var n := |pending| - 1;
      assert pending == pending[..n] + [pending[n]];
      KeptIsAll(joined, at, pending[..n], xor);
    }
  }

  lemma SettlesWhenMatched(route: Route, row: Live, p: Pending, xor: Tag)
    requires LiveInv(route, row) && p in row.pending && row.ticked.Some?
    ensures p.setXor == xor ==> SettleLive(row, xor, row.ticked.value).liveUntil == Some(SatAdd(row.ticked.value, 30))
    ensures (forall q :: q in row.pending ==> q.setXor != xor) ==> SettleLive(row, xor, row.ticked.value) == row
  {
    KeptIsAll(route.joined, LiveAt(route, row), row.pending, xor);
    assert row.released + [] == row.released;
  }

  /** An acknowledgement takes an entry out of the queue exactly when it carries the fingerprint the entry was sent under.
      The peer then counts as live for half a minute. One that matches no entry changes nothing. */
  lemma ReleasedExactlyWhenAcked(route: Route, row: Live, p: Pending, xor: Tag)
    requires LiveInv(route, row) && p in row.pending && row.ticked.Some?
    ensures p in LiveApply(route, row, AckSeen(xor)).pending <==> p.setXor != xor
    ensures LiveApply(route, row, AckSeen(xor)).posted == row.posted
    ensures p.setXor == xor ==> LiveApply(route, row, AckSeen(xor)).liveUntil == Some(SatAdd(row.ticked.value, 30))
    ensures (forall q :: q in row.pending ==> q.setXor != xor) ==> LiveApply(route, row, AckSeen(xor)) == row
  {
    SettlesWhenMatched(route, row, p, xor);
    KeptStands(route.joined, LiveAt(route, row), row.pending, xor);
  }
}
