/** What a send puts on its channels, and that a receiver makes the transaction out of it. */
module Delivery {
  import opened Chain
  import opened Fragment
  import opened HealRow
  import opened HealSearch
  import opened LiveRow
  import opened LiveRuns
  import opened Numbers
  import opened Packets
  import opened Reassemble
  import opened Tags
  import opened Wrappers

  // ---------------------------------------------------------------- a receiver that is fed what was posted

  /** The receiver takes in the posts at these indices, one after another. What is not a fragment does not concern it. */
  function Fed<B(==)>(st: State<B>, decode: seq<Byte> -> Option<B>, posts: seq<Post>, order: seq<nat>): State<B>
    requires forall k :: k in order ==> k < |posts|
    decreases |order|
  {
    if order == [] then st
    else
      assert order[0] in order;
      var body := posts[order[0]].body;
      assert forall k :: k in order[1..] ==> k in order;
      var part := if body.Sealed? then PartOf(body.plain) else None;
      Fed(if part.Some? then Accept(st, decode, part.value).0 else st, decode, posts, order[1..])
  }

  /** These posts carry exactly these packets, in order, on these channels. */
  ghost predicate CarryInOrder(posts: seq<Post>, channels: seq<nat>, packets: seq<PacketPlain>) {
    && |posts| == |packets|
    && forall k :: 0 <= k < |posts| ==>
         posts[k].channels == channels && posts[k].body.Sealed? && posts[k].body.plain == packets[k]
  }

  lemma {:induction false} FeedingStores<B>(st: State<B>, decode: seq<Byte> -> Option<B>, posts: seq<Post>, tx: Tag,
                                            pieces: seq<seq<Byte>>, body: B, order: seq<nat>, seen: set<nat>)
    requires pieces != [] && seen != AllOf(pieces) && Holds(st.frags, tx, pieces, seen)
    requires decode(Concat(pieces)) == Some(body) && (tx in st.bodies ==> st.bodies[tx] == body)
    requires |posts| == |pieces| && forall k :: k in order ==> k < |posts|
    requires forall k: nat :: k < |posts| ==> posts[k].body.Sealed? && PartOf(posts[k].body.plain) == Some(PieceOf(tx, pieces, k))
    requires tx in st.bodies || forall k: nat :: k < |pieces| ==> k in seen || k in order
    ensures tx in Fed(st, decode, posts, order).bodies && Fed(st, decode, posts, order).bodies[tx] == body
    decreases |order|
  {
    if order == [] {
      if tx !in st.bodies {
        AllSeen(pieces, seen);
      }
    } else {
      var i, rest := order[0], order[1..];
      assert order == [i] + rest;
      assert i in order && forall k :: k in rest ==> k in order;
      PieceArrives(st, decode, tx, pieces, body, seen, i);
      var after := Accept(st, decode, PieceOf(tx, pieces, i)).0;
      assert 0 in AllOf(pieces);
      FeedingStores(after, decode, posts, tx, pieces, body, rest, if seen + {i} == AllOf(pieces) then {} else seen + {i});
    }
  }

  lemma AllSeen(pieces: seq<seq<Byte>>, seen: set<nat>)
    requires seen <= AllOf(pieces) && forall k: nat :: k < |pieces| ==> k in seen
    ensures seen == AllOf(pieces)
  {
  }

  /** Posts that carry the packets of a split in order: a receiver that gets each at least once, in any order, ends up with
      the transaction that was split. */
  lemma SplitIsDelivered<B>(c: Carrier, packed: seq<Byte>, startSeq: U64, decode: seq<Byte> -> Option<B>, body: B,
                            channels: seq<nat>, posts: seq<Post>, order: seq<nat>)
    requires Fragments(c, packed, startSeq, 0).Ok? && decode(packed) == Some(body)
    requires CarryInOrder(posts, channels, Fragments(c, packed, startSeq, 0).value)
    requires (forall k :: k in order ==> k < |posts|) && forall k: nat :: k < |posts| ==> k in order
    ensures var end := Fed(State(map[], map[]), decode, posts, order);
            c.frame.txId in end.bodies && end.bodies[c.frame.txId] == body
  {
    var packets := Fragments(c, packed, startSeq, 0).value;
    SplitIsComplete(c, packed, startSeq);
    ConcatIsCarried(packets);
    assert 0 in AllOf(PiecesOf(packets));
    FeedingStores(State(map[], map[]), decode, posts, c.frame.txId, PiecesOf(packets), body, order, {});
  }

  // ---------------------------------------------------------------- copies

  lemma {:induction false} EphCopiesAt(chain: SendChain, packets: seq<PacketPlain>, k: nat)
    requires k < |packets|
    ensures EphCopies(chain, packets)[k] == Sealed(EphMk(chain), packets[k])
  {
    if k < |packets| - 1 {
      EphCopiesAt(chain, packets[..|packets| - 1], k);
    }
  }

  lemma {:induction false} SealedAt(chain: SendChain, packets: seq<PacketPlain>, k: nat)
    requires k < |packets|
    ensures SealPackets(chain, packets)[k] == Sealed(KeyAt(chain, k), packets[k])
  {
    if k < |packets| - 1 {
      SealedAt(chain, packets[..|packets| - 1], k);
    }
  }

  /** The packets of one transaction of one sender: numbered and counted up from these, and only the final one is marked as
      last and carries the fingerprint. */
  ghost predicate Tell(packets: seq<PacketPlain>, actorId: seq<Byte>, tx: Tag, setXor: Tag, startSeq: U64) {
    && packets != []
    && forall k :: 0 <= k < |packets| ==>
         && packets[k].actorId == actorId && packets[k].packetSeq == SatAdd(startSeq, k)
         && if k == |packets| - 1
            then packets[k].TxFragLast? && packets[k].txId == tx && packets[k].fragI == k && packets[k].setXor == setXor
            else packets[k].TxFragMore? && packets[k].txId == tx && packets[k].fragI == k
  }

  lemma SplitTells(c: Carrier, packed: seq<Byte>, startSeq: U64)
    requires Fragments(c, packed, startSeq, 0).Ok?
    ensures Tell(Fragments(c, packed, startSeq, 0).value, c.frame.actorId, c.frame.txId, c.frame.setXor, startSeq)
  {
    FragmentsAreInOrder(c, packed, startSeq, 0);
  }

  // ---------------------------------------------------------------- live sends

  function LiveSplit(route: Route, row: Live, tx: Tag): Result<seq<PacketPlain>, FragmentError> {
    Fragments(LiveCarrier(route, row, tx), route.packedTx(tx), SendingChain(route, row).packetSeq, 0)
  }

  /** The announcement, which goes out before a send that waits unless one went out before or the peer counts as live. */
  function Announcement(route: Route, row: Live): seq<Post>
    requires row.ticked.Some?
  {
    var now, chain := row.ticked.value, SendingChain(route, row);
    if row.presenceSent || (row.liveUntil.Some? && now < row.liveUntil.value) then []
    else
      [Post(route.ephemeral,
            Sealed(EphMk(chain), if route.visible then PresenceActive(route.actorId, chain.packetSeq, route.cid, now)
                                 else Presence(route.actorId, chain.packetSeq, route.cid)))]
  }

  /**
    * A send that waits. After the announcement, if there is one, the ephemeral channels get every packet of the split once
    * and in order, all under the ephemeral key of the position where the row stands. Nothing is written durably.
    */
  lemma WaitingSendPosts(route: Route, row: Live, tx: Tag)
    requires row.ticked.Some? && route.ephemeral != [] && PostLive(route, row, tx).Some?
    ensures LiveSplit(route, row, tx).Ok?
    ensures var next, packets := PostLive(route, row, tx).value, LiveSplit(route, row, tx).value;
            var before, chain := row.ephPosted + Announcement(route, row), SendingChain(route, row);
            && next.posted == row.posted && next.send == row.send
            && (next.presenceSent <==> row.presenceSent || Announcement(route, row) != [])
            && Tell(packets, route.actorId, tx, RangeXorOf(row.ids, ZERO, INF), chain.packetSeq)
            && before <= next.ephPosted
            && CarryInOrder(next.ephPosted[|before|..], route.ephemeral, packets)
            && forall k :: |before| <= k < |next.ephPosted| ==> next.ephPosted[k].body.key == EphMk(chain)
  {
    var packets, chain := LiveSplit(route, row, tx).value, SendingChain(route, row);
    SplitTells(LiveCarrier(route, row, tx), route.packedTx(tx), chain.packetSeq);
    WaitingIs(route, row, packets, row.ephPosted + Announcement(route, row));
    WrittenInOrder(row.ephPosted + Announcement(route, row), route.ephemeral, chain, packets);
  }

  lemma WrittenInOrder(before: seq<Post>, channels: seq<nat>, chain: SendChain, packets: seq<PacketPlain>)
    ensures var all := before + Written(channels, EphCopies(chain, packets));
            && CarryInOrder(all[|before|..], channels, packets)
            && forall k :: |before| <= k < |all| ==> all[k].body.key == EphMk(chain)
  {
    forall k | 0 <= k < |packets|
      ensures EphCopies(chain, packets)[k] == Sealed(EphMk(chain), packets[k])
    {
      EphCopiesAt(chain, packets, k);
    }
  }

  /** Its durable copies wait: the queue gets one more entry with the same packets, each under the message key of its own
      position from where the row stands, and the next send starts past them. */
  lemma WaitingSendQueues(route: Route, row: Live, tx: Tag)
    requires row.ticked.Some? && route.ephemeral != [] && PostLive(route, row, tx).Some?
    ensures LiveSplit(route, row, tx).Ok?
    ensures var next, packets := PostLive(route, row, tx).value, LiveSplit(route, row, tx).value;
            var chain := SendingChain(route, row);
            && |next.pending| == |row.pending| + 1 && row.pending <= next.pending
            && SendingChain(route, next) == StepN(chain, |packets|)
            && var entry := next.pending[|row.pending|];
               && entry.setXor == RangeXorOf(row.ids, ZERO, INF) && entry.sentAt == row.ticked.value
               && entry.acks == 0 && entry.needed == 1 && entry.sealedTo == StepN(chain, |packets|)
               && |entry.bodies| == |packets|
               && forall k :: 0 <= k < |packets| ==> entry.bodies[k] == Sealed(KeyAt(chain, k), packets[k])
  {
    var packets, chain := LiveSplit(route, row, tx).value, SendingChain(route, row);
    WaitingIs(route, row, packets, row.ephPosted + Announcement(route, row));
    forall k | 0 <= k < |packets|
      ensures SealPackets(chain, packets)[k] == Sealed(KeyAt(chain, k), packets[k])
    {
      SealedAt(chain, packets, k);
    }
  }

  /** The whole row after such a send. */
  lemma WaitingIs(route: Route, row: Live, packets: seq<PacketPlain>, before: seq<Post>)
    requires row.ticked.Some? && route.ephemeral != []
    requires before == row.ephPosted + Announcement(route, row)
    ensures var chain, now := SendingChain(route, row), row.ticked.value;
            var next := AfterPost(route, ProbePresence(route, row, chain, now), chain, packets, now);
            && next.posted == row.posted && next.send == row.send
            && (next.presenceSent <==> row.presenceSent || Announcement(route, row) != [])
            && next.ephPosted == before + Written(route.ephemeral, EphCopies(chain, packets))
            && next.pending == row.pending
               + [LiveRow.Pending.Pending(RangeXorOf(row.ids, ZERO, INF), now, SealPackets(chain, packets), StepN(chain, |packets|), 0, 1)]
  {
    AnnouncedIs(route, row);
  }

  lemma AnnouncedIs(route: Route, row: Live)
    requires row.ticked.Some?
    ensures var shown := ProbePresence(route, row, SendingChain(route, row), row.ticked.value);
            && shown == row.(ephPosted := row.ephPosted + Announcement(route, row), presenceSent := shown.presenceSent)
            && (shown.presenceSent <==> row.presenceSent || Announcement(route, row) != [])
  {
    assert row.ephPosted + [] == row.ephPosted;
  }

  /** Once a row has announced itself it never does so again. */
  lemma {:induction false} AnnouncedOnce(route: Route, row: Live, events: seq<LiveEvent>)
    requires row.presenceSent
    ensures var end := LiveRun(route, row, events); end.presenceSent && (end.ticked.Some? ==> Announcement(route, end) == [])
    decreases |events|
  {
    if events != [] {
      StaysAnnounced(route, row, events[0]);
      AnnouncedOnce(route, LiveApply(route, row, events[0]), events[1..]);
    }
  }

  lemma StaysAnnounced(route: Route, row: Live, e: LiveEvent)
    requires row.presenceSent
    ensures LiveApply(route, row, e).presenceSent
  {
  }

  /** A send goes through exactly when the transaction can be split and everything that would be posted fits its packet. */
  lemma SendGoesThroughExactlyWhen(route: Route, row: Live, tx: Tag)
    requires row.ticked.Some?
    ensures PostLive(route, row, tx).Some?
            <==> && LiveSplit(route, row, tx).Ok?
                 && (forall p :: p in LiveSplit(route, row, tx).value ==> route.packedLen(p) <= 484)
                 && (route.ephemeral != [] ==>
                       forall post :: post in Announcement(route, row) ==> route.packedLen(post.body.plain) <= 484)
  {
    if Announcement(route, row) != [] {
      assert Announcement(route, row)[0] in Announcement(route, row);
    }
  }

  /** With no ephemeral channels every packet is written at once, each at its own position, and the chain moves past them. */
  lemma DirectSendPosts(route: Route, row: Live, tx: Tag)
    requires row.ticked.Some? && route.ephemeral == [] && PostLive(route, row, tx).Some?
    ensures LiveSplit(route, row, tx).Ok?
    ensures var next, packets := PostLive(route, row, tx).value, LiveSplit(route, row, tx).value;
            var chain := SendingChain(route, row);
            && next.ephPosted == row.ephPosted && next.pending == row.pending
            && row.posted <= next.posted && next.send == Some(StepN(chain, |packets|))
            && Tell(packets, route.actorId, tx, RangeXorOf(row.ids, ZERO, INF), chain.packetSeq)
            && CarryInOrder(next.posted[|row.posted|..], route.durable, packets)
            && forall k :: 0 <= k < |packets| ==> next.posted[|row.posted| + k].body.key == KeyAt(chain, k)
  {
    var packets, chain := LiveSplit(route, row, tx).value, SendingChain(route, row);
    SplitTells(LiveCarrier(route, row, tx), route.packedTx(tx), chain.packetSeq);
    SealedInOrder(row.posted, Written(route.durable, SealPackets(chain, packets)), route.durable, chain, packets);
  }

  /** Copies under consecutive message keys, posted after what was posted before. */
  lemma SealedInOrder(was: seq<Post>, more: seq<Post>, channels: seq<nat>, chain: SendChain, packets: seq<PacketPlain>)
    requires |more| == |packets| && forall k :: 0 <= k < |more| ==> more[k] == Post(channels, SealPackets(chain, packets)[k])
    ensures var all := was + more;
            && CarryInOrder(all[|was|..], channels, packets)
            && forall k :: 0 <= k < |packets| ==> all[|was| + k].body.key == KeyAt(chain, k)
  {
    forall k | 0 <= k < |packets|
      ensures SealPackets(chain, packets)[k] == Sealed(KeyAt(chain, k), packets[k])
    {
      SealedAt(chain, packets, k);
    }
  }

  /** A peer that hears all that a waiting send put on the ephemeral channels, in any order and however often, has the
      transaction. */
  lemma WaitingSendArrives<B>(route: Route, row: Live, tx: Tag, decode: seq<Byte> -> Option<B>, body: B, order: seq<nat>)
    requires row.ticked.Some? && route.ephemeral != [] && PostLive(route, row, tx).Some?
    requires decode(route.packedTx(tx)) == Some(body)
    requires var news := PostLive(route, row, tx).value.ephPosted[|row.ephPosted + Announcement(route, row)|..];
             (forall k :: k in order ==> k < |news|) && forall k: nat :: k < |news| ==> k in order
    ensures var news := PostLive(route, row, tx).value.ephPosted[|row.ephPosted + Announcement(route, row)|..];
            var end := Fed(State(map[], map[]), decode, news, order);
            tx in end.bodies && end.bodies[tx] == body
  {
    WaitingSendPosts(route, row, tx);
    var news := PostLive(route, row, tx).value.ephPosted[|row.ephPosted + Announcement(route, row)|..];
    SplitIsDelivered(LiveCarrier(route, row, tx), route.packedTx(tx), SendingChain(route, row).packetSeq, decode, body,
                     route.ephemeral, news, order);
  }

  // ---------------------------------------------------------------- answers of the search

  /** A transaction that the peer asked for is written in the same way, from where the handshake row stands. */
  lemma WriteTxPosts(cfg: Config, row: Row, tx: Tag)
    requires cfg.durable != [] && WriteTx(cfg, row, tx).Some?
    ensures Fragments(CarrierFor(cfg, row, tx), cfg.packedTx(tx), Origin(cfg, row).packetSeq, 0).Ok?
    ensures var next := WriteTx(cfg, row, tx).value;
            var packets := Fragments(CarrierFor(cfg, row, tx), cfg.packedTx(tx), Origin(cfg, row).packetSeq, 0).value;
            && next.ephPosted == row.ephPosted
            && row.posted <= next.posted && next.send == Some(StepN(Origin(cfg, row), |packets|))
            && Tell(packets, [], tx, RangeXorOf(row.ids, ZERO, INF), Origin(cfg, row).packetSeq)
            && CarryInOrder(next.posted[|row.posted|..], cfg.durable, packets)
            && forall k :: 0 <= k < |packets| ==> next.posted[|row.posted| + k].body.key == KeyAt(Origin(cfg, row), k)
  {
    var packets := Fragments(CarrierFor(cfg, row, tx), cfg.packedTx(tx), Origin(cfg, row).packetSeq, 0).value;
    SplitTells(CarrierFor(cfg, row, tx), cfg.packedTx(tx), Origin(cfg, row).packetSeq);
    SealedInOrder(row.posted, Posts(cfg.durable, SealPackets(Origin(cfg, row), packets)), cfg.durable, Origin(cfg, row), packets);
    AfterWriteIs(cfg, row, packets);
  }

  lemma AfterWriteIs(cfg: Config, row: Row, packets: seq<PacketPlain>)
    ensures var next := AfterWrite(cfg, row, packets);
            && next.posted == row.posted + Posts(cfg.durable, SealPackets(Origin(cfg, row), packets))
            && next.send == Some(StepN(Origin(cfg, row), |packets|)) && next.ephPosted == row.ephPosted
  {
  }

  /** It is written exactly when it is here, can be split, and every fragment fits its packet. */
  lemma WriteGoesThroughExactlyWhen(cfg: Config, row: Row, tx: Tag)
    ensures WriteTx(cfg, row, tx).Some?
            <==> && tx in row.ids
                 && var split := Fragments(CarrierFor(cfg, row, tx), cfg.packedTx(tx), Origin(cfg, row).packetSeq, 0);
                    split.Ok? && forall p :: p in split.value ==> cfg.packedLen(p) <= 484
  {
  }

  lemma WriteTxArrives<B>(cfg: Config, row: Row, tx: Tag, decode: seq<Byte> -> Option<B>, body: B, order: seq<nat>)
    requires cfg.durable != [] && WriteTx(cfg, row, tx).Some? && decode(cfg.packedTx(tx)) == Some(body)
    requires var news := WriteTx(cfg, row, tx).value.posted[|row.posted|..];
             (forall k :: k in order ==> k < |news|) && forall k: nat :: k < |news| ==> k in order
    ensures var news := WriteTx(cfg, row, tx).value.posted[|row.posted|..];
            var end := Fed(State(map[], map[]), decode, news, order);
            tx in end.bodies && end.bodies[tx] == body
  {
    WriteTxPosts(cfg, row, tx);
    var news := WriteTx(cfg, row, tx).value.posted[|row.posted|..];
    SplitIsDelivered(CarrierFor(cfg, row, tx), cfg.packedTx(tx), Origin(cfg, row).packetSeq, decode, body, cfg.durable,
                     news, order);
  }
}
