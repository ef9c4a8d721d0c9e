/** The sending side of a handshake row: posts, the set-XOR search, and its durable stash.

    A search goes out on the ephemeral path while the peer is live. Durable copies are sealed at the
    same time from the chain as it stood, and posted later only if the chain has not moved. */
module HealRow {
  import opened Chain
  import opened Fragment
  import opened HealRange
  import opened HealSearch
  import opened Numbers
  import opened Packets
  import opened Tags
  import opened Wrappers

  const FALLBACK_SECS: nat := 3
  const LIVE_SECS: nat := 30
  const ID_CAP: nat := 32

  /** A question of the search that awaits an answer. */
  datatype Probe =
    | Half(lo: Tag, hi: Tag)
    | Want(lo: Tag, hi: Tag, ids: seq<Tag>)
    | Have(lo: Tag, hi: Tag, ids: seq<Tag>)

  datatype Heal = Heal(
    probes: seq<Probe>,
    sentAt: Option<U64>,
    onEphemeral: bool,
    fellBack: bool,
    ready: seq<Body>,
    sealedFrom: Option<SendChain>,
    sealedTo: Option<SendChain>,
    needsReseal: bool)

  const NO_SEARCH: Heal := Heal([], None, false, false, [], None, None, false)

  /** A posted packet, with the channels it was posted on. */
  datatype Post = Post(channels: seq<nat>, body: Body)

  /** What does not change while the row lives. `packedTx` is the packed form of a transaction. */
  datatype Config = Config(
    joined: SendChain,
    durable: seq<nat>,
    ephemeral: seq<nat>,
    packedTx: Tag -> seq<Byte>,
    packedLen: PacketPlain -> nat)

  /** `ids` are the transactions of the row in order. `posted` and `ephPosted` are every packet it
      has ever posted. */
  datatype Row = Row(
    ids: seq<Tag>,
    send: Option<SendChain>,
    heal: Heal,
    liveUntil: Option<U64>,
    ticked: Option<U64>,
    posted: seq<Post>,
    ephPosted: seq<Post>)

  function Posts(channels: seq<nat>, bodies: seq<Body>): (r: seq<Post>)
    ensures channels != [] ==> |r| == |bodies| && forall i :: 0 <= i < |r| ==> r[i] == Post(channels, bodies[i])
    ensures channels == [] ==> r == []
  {
    if channels == [] then [] else seq(|bodies|, i requires 0 <= i < |bodies| => Post(channels, bodies[i]))
  }

  /** Keep the ids of a row in order, as the store keeps them. */
  function WithId(ids: seq<Tag>, id: Tag): (r: seq<Tag>)
    ensures forall x :: x in r <==> x in ids || x == id
    ensures |r| == |ids| + 1
  {
    if ids == [] then [id]
    else
      var n := |ids| - 1;
      assert ids == ids[..n] + [ids[n]];
      if Less(ids[n], id) then ids + [id] else WithId(ids[..n], id) + [ids[n]]
  }

  function Origin(cfg: Config, row: Row): SendChain {
    if row.send.Some? then row.send.value else cfg.joined
  }

  // ---------------------------------------------------------------- reacting to a search packet

  datatype Reaction = Ignore | Reset | Ask(probes: seq<Probe>)

  function Filtered(ids: seq<Tag>, lo: Tag, hi: Tag): (r: seq<Tag>)
    ensures forall id :: id in r <==> id in ids && InRange(id, lo, hi)
  {
    if ids == [] then []
    else
      var rest := Filtered(ids[..|ids| - 1], lo, hi);
      assert ids == ids[..|ids| - 1] + [ids[|ids| - 1]];
      if InRange(ids[|ids| - 1], lo, hi) then rest + [ids[|ids| - 1]] else rest
  }

  function Held(named: seq<Tag>, ids: seq<Tag>, want: bool): (r: seq<Tag>)
    ensures forall id :: id in r <==> id in named && (id in ids) == want
    ensures |r| <= |named|
  {
    if named == [] then []
    else
      var rest := Held(named[..|named| - 1], ids, want);
      assert named == named[..|named| - 1] + [named[|named| - 1]];
      if (named[|named| - 1] in ids) == want then rest + [named[|named| - 1]] else rest
  }

  function Capped(ids: seq<Tag>): (r: seq<Tag>)
    ensures |r| <= ID_CAP && r <= ids
  {
    if |ids| <= ID_CAP then ids else ids[..ID_CAP]
  }

  /** The answer to a fingerprint: narrow the range, settle its only id, or list ours when it cannot be narrowed. */
  ghost function HalfReaction(ids: seq<Tag>, lo: Tag, hi: Tag, xor: Tag): Reaction {
    var ours := RangeXorOf(ids, lo, hi);
    if ours == xor then Ignore
    else if Succ(lo) == Some(hi) then
      Ask([if ours == lo then Have(lo, hi, [lo]) else Want(lo, hi, [lo])])
    else if Mid(lo, hi).Some? then
      Ask([Half(lo, Mid(lo, hi).value), Half(Mid(lo, hi).value, hi)])
    else Ask([Have(lo, hi, Capped(Filtered(ids, lo, hi)))])
  }

  /** The answer to a list of ids: want the unknown ones, or be done when all are known. */
  function HaveReaction(ids: seq<Tag>, lo: Tag, hi: Tag, named: seq<Tag>): Reaction {
    if |named| > ID_CAP then Ignore
    else
      var missing := Held(named, ids, false);
      if missing == [] then Reset else Ask([Want(lo, hi, missing)])
  }

  // ---------------------------------------------------------------- sealing and posting

  function PlainOf(probe: Probe, packetSeq: U64, ids: seq<Tag>): PacketPlain {
    match probe
    case Half(lo, hi) => HealHalfXor([], packetSeq, lo, hi, RangeXorOf(ids, lo, hi))
    case Want(lo, hi, named) => HealWant([], packetSeq, lo, hi, named)
    case Have(lo, hi, named) => HealHave([], packetSeq, lo, hi, named)
  }

  /** Durable copies of the probes, sealed at consecutive positions from `cursor` on. */
  function SealRun(cursor: SendChain, probes: seq<Probe>, ids: seq<Tag>): (r: seq<Body>)
    ensures |r| == |probes|
  {
    if probes == [] then []
    else
      var n := |probes| - 1;
      SealRun(cursor, probes[..n], ids)
      + [Sealed(Mk(StepN(cursor, n)), PlainOf(probes[n], StepN(cursor, n).packetSeq, ids))]
  }

  /** Ephemeral copies of the probes, all under the ephemeral key of the first position. */
  function EphRun(cursor: SendChain, probes: seq<Probe>, ids: seq<Tag>): (r: seq<Body>)
    ensures |r| == |probes|
  {
    if probes == [] then []
    else
      var n := |probes| - 1;
      EphRun(cursor, probes[..n], ids)
      + [Sealed(EphMk(cursor), PlainOf(probes[n], StepN(cursor, n).packetSeq, ids))]
  }

  /** Whether a packet fits the fixed size. One that does not is an error of the whole call. */
  predicate Packs(cfg: Config, p: PacketPlain) { cfg.packedLen(p) <= PACKET_PAD_LEN }

  /** Whether every probe fits, at the place where it would be sealed. */
  predicate AllPack(cfg: Config, cursor: SendChain, probes: seq<Probe>, ids: seq<Tag>) {
    forall i :: 0 <= i < |probes| ==> Packs(cfg, PlainOf(probes[i], StepN(cursor, i).packetSeq, ids))
  }

  lemma PackOneMore(cfg: Config, cursor: SendChain, probes: seq<Probe>, ids: seq<Tag>, n: nat)
    requires n < |probes| && AllPack(cfg, cursor, probes[..n], ids)
    ensures AllPack(cfg, cursor, probes[..n + 1], ids) <==> Packs(cfg, PlainOf(probes[n], StepN(cursor, n).packetSeq, ids))
    ensures AllPack(cfg, cursor, probes, ids) ==> AllPack(cfg, cursor, probes[..n + 1], ids)
  {
    assert forall i :: 0 <= i < n ==> probes[..n + 1][i] == probes[..n][i];
    assert probes[..n + 1][n] == probes[n];
  }

  function UsesEphemeral(cfg: Config, row: Row, now: U64): bool {
    row.liveUntil.Some? && now < row.liveUntil.value && cfg.ephemeral != []
    && !row.heal.fellBack && !row.heal.needsReseal
  }

  /** Send what the row is looking for. Absent while the row has no clock, and when a packet does not fit. */
  function PostHeal(cfg: Config, row: Row): Option<Row> {
    if row.ticked.None? then None
    else if row.heal.probes == [] || (cfg.durable == [] && cfg.ephemeral == []) then Some(row)
    else
      var now := row.ticked.value;
      var origin := Origin(cfg, row);
      var probes := row.heal.probes;
      if !AllPack(cfg, origin, probes, row.ids) then None else
      var ready := SealRun(origin, probes, row.ids);
      var cursor := StepN(origin, |probes|);
      if UsesEphemeral(cfg, row, now) then
        Some(row.(ephPosted := row.ephPosted + Posts(cfg.ephemeral, EphRun(origin, probes, row.ids)),
                  heal := row.heal.(sentAt := Some(now), onEphemeral := true, needsReseal := false,
                                    ready := ready, sealedFrom := Some(origin), sealedTo := Some(cursor))))
      else
        Some(row.(posted := row.posted + Posts(cfg.durable, ready),
                  send := Some(cursor),
                  heal := row.heal.(sentAt := Some(now), onEphemeral := false, needsReseal := false, fellBack := true,
                                    ready := [], sealedFrom := None, sealedTo := None)))
  }

  /** An ephemeral search has gone unanswered for the whole fallback time. */
  predicate FallbackDue(row: Row, now: U64) {
    row.heal.onEphemeral && !row.heal.fellBack && row.heal.sentAt.Some?
    && now >= SatAdd(row.heal.sentAt.value, FALLBACK_SECS)
  }

  /** The row stands where it stood when the stash was made. */
  predicate SealedMatches(row: Row) {
    row.heal.sealedFrom.Some? && (row.send.Some? ==> row.send.value == row.heal.sealedFrom.value)
  }

  function CommitReady(cfg: Config, row: Row): Row
    requires row.heal.sealedTo.Some?
  {
    row.(posted := row.posted + Posts(cfg.durable, row.heal.ready),
         send := row.heal.sealedTo,
         heal := row.heal.(ready := [], sealedFrom := None, sealedTo := None,
                           onEphemeral := false, fellBack := true, needsReseal := false))
  }

  /** What a tick does with a stash whose answer never came. */
  function FlushHeal(cfg: Config, row: Row): Row
    requires row.heal.sealedFrom.Some? ==> row.heal.sealedTo.Some?
  {
    if row.ticked.None? || !FallbackDue(row, row.ticked.value) then row
    else if row.heal.ready == [] || !SealedMatches(row) then row.(heal := row.heal.(needsReseal := true))
    else CommitReady(cfg, row)
  }

  /** Post afresh what no stash can answer for any more. */
  function ResealDue(cfg: Config, row: Row): Option<Row> {
    if row.ticked.Some? && row.heal.onEphemeral
       && (row.heal.needsReseal || (FallbackDue(row, row.ticked.value) && row.heal.ready == []))
    then PostHeal(cfg, row)
    else Some(row)
  }

  /** A durable post spends positions the stash was sealed at, so the stash is dropped. */
  function DropStash(row: Row): Row {
    if !row.heal.onEphemeral then row
    else
      var due := row.ticked.Some? && row.heal.sentAt.Some?
                 && row.ticked.value >= SatAdd(row.heal.sentAt.value, FALLBACK_SECS);
      row.(heal := row.heal.(ready := [], sealedFrom := None, sealedTo := None,
                             needsReseal := due || row.heal.needsReseal))
  }

  function CarrierFor(cfg: Config, row: Row, tx: Tag): (c: Carrier)
    ensures c.Measured()
  {
    Measure(Frame(cfg.packedLen, [], tx, RangeXorOf(row.ids, ZERO, INF)))
  }

  /** Packets sealed at consecutive positions from `cursor` on. */
  function SealPackets(cursor: SendChain, packets: seq<PacketPlain>): (r: seq<Body>)
    ensures |r| == |packets|
  {
    if packets == [] then []
    else
      var n := |packets| - 1;
      SealPackets(cursor, packets[..n]) + [Sealed(Mk(StepN(cursor, n)), packets[n])]
  }

  function AfterWrite(cfg: Config, row: Row, packets: seq<PacketPlain>): Row {
    var cleared := DropStash(row);
    var origin := Origin(cfg, row);
    cleared.(posted := cleared.posted + Posts(cfg.durable, SealPackets(origin, packets)),
             send := Some(StepN(origin, |packets|)))
  }

  /** Post every fragment of one transaction. Absent when it is not here, too large to split, or cut into
      a fragment that does not fit. */
  function WriteTx(cfg: Config, row: Row, tx: Tag): Option<Row> {
    if tx !in row.ids then None
    else
      match Fragments(CarrierFor(cfg, row, tx), cfg.packedTx(tx), Origin(cfg, row).packetSeq, 0)
      case Err(_) => None
      case Ok(packets) =>
        if forall p :: p in packets ==> Packs(cfg, p) then Some(AfterWrite(cfg, row, packets)) else None
  }

  /** There are transactions that can be cut up and still never posted: the cut measures a filler, and the bytes do not fit. */
  lemma MisledPostFails(joined: SendChain, channels: seq<nat>, tx: Tag, row: Row)
    requires joined.packetSeq == 0 && row.send.None? && row.ids == [tx]
    ensures var cfg := Config(joined, channels, [], _ => [0], ChoosyLen);
            && Fragments(CarrierFor(cfg, row, tx), cfg.packedTx(tx), Origin(cfg, row).packetSeq, 0).Ok?
            && WriteTx(cfg, row, tx) == None
  {
    FillerCanMislead([], tx, RangeXorOf(row.ids, ZERO, INF));
    var cfg := Config(joined, channels, [], _ => [0], ChoosyLen);
    var packets := Fragments(CarrierFor(cfg, row, tx), cfg.packedTx(tx), 0, 0).value;
    assert packets[0] in packets && !Packs(cfg, packets[0]);
  }

  function WriteAll(cfg: Config, row: Row, txs: seq<Tag>): Option<Row>
    decreases |txs|
  {
    if txs == [] then Some(row)
    else
      match WriteTx(cfg, row, txs[0])
      case None => None
      case Some(next) => WriteAll(cfg, next, txs[1..])
  }

  // ---------------------------------------------------------------- one packet of the search

  function Replace(cfg: Config, row: Row, probes: seq<Probe>): Option<Row> {
    PostHeal(cfg, row.(heal := row.heal.(probes := probes, fellBack := false)))
  }

  function React(cfg: Config, row: Row, reaction: Reaction): Option<Row> {
    match reaction
    case Ignore => Some(row)
    case Reset => Some(row.(heal := NO_SEARCH))
    case Ask(probes) => Replace(cfg, row, probes)
  }

  function OnWant(cfg: Config, row: Row, named: seq<Tag>): Option<Row> {
    if |named| > ID_CAP then Some(row)
    else
      var cleared := row.(heal := row.heal.(probes := [], ready := [], onEphemeral := false));
      if cfg.durable == [] then Some(cleared) else WriteAll(cfg, cleared, Held(named, row.ids, true))
  }

  function Touched(row: Row): Row
    requires row.ticked.Some?
  {
    if row.heal.onEphemeral then row.(heal := row.heal.(sentAt := row.ticked)) else row
  }

  ghost function OnHealPacket(cfg: Config, row: Row, p: PacketPlain): Option<Row> {
    if row.ticked.None? then None
    else
      var now := Touched(row);
      match p
      case HealHalfXor(_, _, lo, hi, xor) => React(cfg, now, HalfReaction(row.ids, lo, hi, xor))
      case HealWant(_, _, _, _, named) => OnWant(cfg, now, named)
      case HealHave(_, _, lo, hi, named) => React(cfg, now, HaveReaction(row.ids, lo, hi, named))
      case _ => Some(now)
  }

  /** The peer's fingerprint of the whole set: stop when it agrees, and start a search when none runs. */
  function NoteSetXor(cfg: Config, row: Row, remote: Tag): Option<Row> {
    if RangeXorOf(row.ids, ZERO, INF) == remote then Some(row.(heal := NO_SEARCH))
    else if row.heal.probes == [] then
      PostHeal(cfg, row.(heal := row.heal.(probes := [Half(ZERO, INF)], fellBack := false)))
    else Some(row)
  }
}
