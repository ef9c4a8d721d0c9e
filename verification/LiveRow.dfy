/** Ephemeral-first sends on an established row: copies wait for an acknowledgement, or are written after three seconds. */
module LiveRow {
  import opened Chain
  import opened Fragment
  import opened HealRow
  import opened HealSearch
  import opened Numbers
  import opened Packets
  import opened Tags
  import opened Wrappers

  /** Durable copies of one transaction, held back until a matching acknowledgement or the fallback. */
  datatype Pending = Pending(setXor: Tag, sentAt: U64, bodies: seq<Body>, sealedTo: SendChain, acks: nat, needed: nat)

  /** What does not change while the row lives. */
  datatype Route = Route(
    joined: SendChain,
    durable: seq<nat>,
    ephemeral: seq<nat>,
    actorId: seq<Byte>,
    visible: bool,
    cid: Tag,
    packedTx: Tag -> seq<Byte>,
    packedLen: PacketPlain -> nat)

  /** `sealed` lists every durable copy ever sealed, `released` those an acknowledgement made needless, and
      `posted` those written, each in order. */
  datatype Live = Live(
    ids: seq<Tag>,
    send: Option<SendChain>,
    pending: seq<Pending>,
    liveUntil: Option<U64>,
    presenceSent: bool,
    ticked: Option<U64>,
    posted: seq<Post>,
    ephPosted: seq<Post>,
    sealed: seq<Body>,
    released: seq<Body>)

  /** Every packet goes on every channel of the route. */
  function Written(channels: seq<nat>, bodies: seq<Body>): (r: seq<Post>)
    ensures |r| == |bodies| && forall i :: 0 <= i < |r| ==> r[i] == Post(channels, bodies[i])
  {
    seq(|bodies|, i requires 0 <= i < |bodies| => Post(channels, bodies[i]))
  }

  /** All copies of a queue, in order. */
  function Bodies(pending: seq<Pending>): seq<Body> {
    if pending == [] then [] else Bodies(pending[..|pending| - 1]) + pending[|pending| - 1].bodies
  }

  // ---------------------------------------------------------------- sending

  /** The next position: after everything still waiting, else where the stored chain stands. */
  function SendingChain(route: Route, row: Live): SendChain {
    if row.pending != [] then row.pending[|row.pending| - 1].sealedTo
    else if row.send.Some? then row.send.value
    else route.joined
  }

  function PresencePacket(route: Route, seqNo: U64, now: U64): PacketPlain {
    if route.visible then PresenceActive(route.actorId, seqNo, route.cid, now) else Presence(route.actorId, seqNo, route.cid)
  }

  /** Whether a packet fits the fixed size. One that does not is an error of the whole call. */
  predicate Packed(route: Route, p: PacketPlain) { route.packedLen(p) <= PACKET_PAD_LEN }

  /** This device is announced once, unless the peer is known to be live. */
  predicate Announces(row: Live, now: U64) {
    !(row.liveUntil.Some? && now < row.liveUntil.value) && !row.presenceSent
  }

  function ProbePresence(route: Route, row: Live, chain: SendChain, now: U64): Live {
    if !Announces(row, now) then row
    else
      row.(ephPosted := row.ephPosted
             + [Post(route.ephemeral, Sealed(EphMk(chain), PresencePacket(route, chain.packetSeq, now)))],
           presenceSent := true)
  }

  /** Ephemeral copies, all under the ephemeral key of the first position. */
  function EphCopies(chain: SendChain, packets: seq<PacketPlain>): (r: seq<Body>)
    ensures |r| == |packets|
  {
    if packets == [] then []
    else EphCopies(chain, packets[..|packets| - 1]) + [Sealed(EphMk(chain), packets[|packets| - 1])]
  }

  function LiveCarrier(route: Route, row: Live, tx: Tag): (c: Carrier)
    ensures c.Measured()
  {
    Measure(Frame(route.packedLen, route.actorId, tx, RangeXorOf(row.ids, ZERO, INF)))
  }

  /** Whether every packet of a send fits, the announcement included. */
  predicate SendFits(route: Route, row: Live, chain: SendChain, packets: seq<PacketPlain>, now: U64) {
    && (route.ephemeral != [] && Announces(row, now) ==> Packed(route, PresencePacket(route, chain.packetSeq, now)))
    && forall p :: p in packets ==> Packed(route, p)
  }

  /** Send one transaction: at once on the ephemeral channels with durable copies held back, or at once durably.
      Absent when it is too large to split or a packet does not fit. */
  function PostLive(route: Route, row: Live, tx: Tag): Option<Live>
    requires row.ticked.Some?
  {
    var chain, now := SendingChain(route, row), row.ticked.value;
    var wait := route.ephemeral != [];
    match Fragments(LiveCarrier(route, row, tx), route.packedTx(tx), chain.packetSeq, 0)
    case Err(_) => None
    case Ok(packets) =>
      if !SendFits(route, row, chain, packets, now) then None
      else Some(AfterPost(route, if wait then ProbePresence(route, row, chain, now) else row, chain, packets, now))
  }

  function AfterPost(route: Route, row: Live, chain: SendChain, packets: seq<PacketPlain>, now: U64): Live {
    var durable, to := SealPackets(chain, packets), StepN(chain, |packets|);
    if route.ephemeral != [] then
      row.(ephPosted := row.ephPosted + Written(route.ephemeral, EphCopies(chain, packets)),
           sealed := row.sealed + durable,
           pending := row.pending + [Pending(RangeXorOf(row.ids, ZERO, INF), now, durable, to, 0, 1)])
    else
      row.(posted := row.posted + Written(route.durable, durable), sealed := row.sealed + durable, send := Some(to))
  }

  // ---------------------------------------------------------------- acknowledgements

  /** One more acknowledgement for every entry sealed when the set had this fingerprint. The count is one byte wide. */
  function Acked(p: Pending, xor: Tag): Pending {
    if p.setXor == xor then p.(acks := if p.acks < 255 then p.acks + 1 else 255) else p
  }

  predicate Open(p: Pending) { p.acks < p.needed }

  /** What stays in the queue after an acknowledgement. */
  function Kept(pending: seq<Pending>, xor: Tag): (r: seq<Pending>)
    ensures |r| <= |pending|
  {
    if pending == [] then []
    else
      var n := |pending| - 1;
      var rest, last := Kept(pending[..n], xor), Acked(pending[n], xor);
      if Open(last) then rest + [last] else rest
  }

  function Dropped(pending: seq<Pending>, xor: Tag): seq<Pending> {
    if pending == [] then []
    else
      var n := |pending| - 1;
      if Open(Acked(pending[n], xor)) then Dropped(pending[..n], xor) else Dropped(pending[..n], xor) + [pending[n]]
  }

  function SettleLive(row: Live, xor: Tag, now: U64): Live {
    var kept := Kept(row.pending, xor);
    row.(pending := kept,
         released := row.released + Bodies(Dropped(row.pending, xor)),
         liveUntil := if |kept| < |row.pending| then Some(SatAdd(now, LIVE_SECS)) else row.liveUntil)
  }

  // ---------------------------------------------------------------- the fallback

  predicate IsDue(p: Pending, now: U64) { now >= SatAdd(p.sentAt, FALLBACK_SECS) }

  function Due(pending: seq<Pending>, now: U64): seq<Pending> {
    if pending == [] then []
    else
      var n := |pending| - 1;
      if IsDue(pending[n], now) then Due(pending[..n], now) + [pending[n]] else Due(pending[..n], now)
  }

  function NotDue(pending: seq<Pending>, now: U64): seq<Pending> {
    if pending == [] then []
    else
      var n := |pending| - 1;
      if IsDue(pending[n], now) then NotDue(pending[..n], now) else NotDue(pending[..n], now) + [pending[n]]
  }

  /** What a tick does with copies whose acknowledgement never came. */
  function FlushLive(route: Route, row: Live, now: U64): Live {
    var due := Due(row.pending, now);
    if due == [] then row
    else
      row.(posted := row.posted + Written(route.durable, Bodies(due)),
           send := Some(due[|due| - 1].sealedTo),
           pending := NotDue(row.pending, now))
  }
}
