/** Every durable packet a handshake row posts is sealed at a later position than all before it. */
module SendPositions {
  import opened Chain
  import opened Fragment
  import opened HealRow
  import opened Numbers
  import opened Packets
  import opened Tags
  import opened Wrappers

  /** Bodies sealed at consecutive positions from `from` on. */
  ghost predicate IsRun(joined: SendChain, from: nat, bodies: seq<Body>) {
    forall i :: 0 <= i < |bodies| ==> bodies[i].Sealed? && bodies[i].key == KeyAt(joined, from + i)
  }

  function PositionOf(post: Post): nat {
    if post.body.Sealed? then Depth(post.body.key.c) else 0
  }

  /** Strictly increasing positions of one chain, all before `bound`. */
  ghost predicate Increasing(joined: SendChain, posted: seq<Post>, bound: nat) {
    && (forall i :: 0 <= i < |posted| ==>
          posted[i].body.Sealed? && posted[i].body.key == KeyAt(joined, PositionOf(posted[i])) && PositionOf(posted[i]) < bound)
    && (forall i, j :: 0 <= i < j < |posted| ==> PositionOf(posted[i]) < PositionOf(posted[j]))
  }

  /** The position the row would post at next. */
  function At(cfg: Config, row: Row): nat { Depth(Origin(cfg, row).c) }

  /** The stash is a run from the chain it was sealed from to the chain it was sealed to. */
  ghost predicate StashOk(cfg: Config, heal: Heal) {
    && (heal.sealedFrom.Some? ==> heal.sealedTo.Some?)
    && (heal.ready != [] ==>
          && heal.sealedFrom.Some?
          && var from := Depth(heal.sealedFrom.value.c);
             && heal.sealedFrom.value == StepN(cfg.joined, from)
             && heal.sealedTo.value == StepN(cfg.joined, from + |heal.ready|)
             && IsRun(cfg.joined, from, heal.ready))
  }

  ghost predicate Inv(cfg: Config, row: Row) {
    && Depth(cfg.joined.c) == 0
    && Origin(cfg, row) == StepN(cfg.joined, At(cfg, row))
    && Increasing(cfg.joined, row.posted, At(cfg, row))
    && StashOk(cfg, row.heal)
    && (row.heal.ready != [] ==> Depth(row.heal.sealedFrom.value.c) <= At(cfg, row))
  }

  lemma {:induction false} SealRunIsRun(joined: SendChain, from: nat, probes: seq<Probe>, ids: seq<Tag>)
    ensures IsRun(joined, from, SealRun(StepN(joined, from), probes, ids))
  {
    if probes != [] {
      var n := |probes| - 1;
      SealRunIsRun(joined, from, probes[..n], ids);
      StepNAdds(joined, from, n);
    }
  }

  lemma {:induction false} SealPacketsIsRun(joined: SendChain, from: nat, packets: seq<PacketPlain>)
    ensures IsRun(joined, from, SealPackets(StepN(joined, from), packets))
  {
    if packets != [] {
      var n := |packets| - 1;
      SealPacketsIsRun(joined, from, packets[..n]);
      StepNAdds(joined, from, n);
    }
  }

  /** Posting a run from the bound on keeps positions increasing and moves the bound past it. */
  lemma PostRun(joined: SendChain, posted: seq<Post>, from: nat, bodies: seq<Body>, channels: seq<nat>)
    requires Depth(joined.c) == 0 && Increasing(joined, posted, from) && IsRun(joined, from, bodies)
    ensures Increasing(joined, posted + Posts(channels, bodies), from + |bodies|)
  {
    forall i | 0 <= i < |Posts(channels, bodies)|
      ensures PositionOf(Posts(channels, bodies)[i]) == from + i
    {
      StepNFacts(joined, from + i);
    }
  }

  lemma ChainAt(cfg: Config, n: nat)
    requires Depth(cfg.joined.c) == 0
    ensures Depth(StepN(cfg.joined, n).c) == n
  {
    StepNFacts(cfg.joined, n);
  }

  lemma PostHealKeeps(cfg: Config, row: Row)
    requires Inv(cfg, row)
    ensures var next := PostHeal(cfg, row); next.Some? ==> Inv(cfg, next.value) && row.posted <= next.value.posted
  {
    var next := PostHeal(cfg, row);
    if next.Some? && next.value != row {
      var n := At(cfg, row);
      var k := |row.heal.probes|;
      SealRunIsRun(cfg.joined, n, row.heal.probes, row.ids);
      PostRun(cfg.joined, row.posted, n, SealRun(Origin(cfg, row), row.heal.probes, row.ids), cfg.durable);
      StepNAdds(cfg.joined, n, k);
      ChainAt(cfg, n + k);
    }
  }

  /** A stash is committed only when the chain still stands where it was sealed from. */
  lemma FlushKeeps(cfg: Config, row: Row)
    requires Inv(cfg, row)
    ensures Inv(cfg, FlushHeal(cfg, row)) && row.posted <= FlushHeal(cfg, row).posted
  {
    if FlushHeal(cfg, row).posted != row.posted || FlushHeal(cfg, row).send != row.send {
      var n := At(cfg, row);
      CommitsFromHere(cfg, row);
      PostRun(cfg.joined, row.posted, n, row.heal.ready, cfg.durable);
      ChainAt(cfg, n + |row.heal.ready|);
    }
  }

  lemma CommitsFromHere(cfg: Config, row: Row)
    requires Inv(cfg, row) && row.heal.ready != [] && SealedMatches(row)
    ensures Depth(row.heal.sealedFrom.value.c) == At(cfg, row)
  {
  }

  lemma ResealKeeps(cfg: Config, row: Row)
    requires Inv(cfg, row)
    ensures var next := ResealDue(cfg, row); next.Some? ==> Inv(cfg, next.value) && row.posted <= next.value.posted
  {
    PostHealKeeps(cfg, row);
  }

  /** A post spends positions from where the row stands, and leaves no stash sealed at them. */
  lemma AfterWriteKeeps(cfg: Config, row: Row, packets: seq<PacketPlain>)
    requires Inv(cfg, row)
    ensures Inv(cfg, AfterWrite(cfg, row, packets)) && row.posted <= AfterWrite(cfg, row, packets).posted
  {
    var n := At(cfg, row);
    SealPacketsIsRun(cfg.joined, n, packets);
    PostRun(cfg.joined, row.posted, n, SealPackets(Origin(cfg, row), packets), cfg.durable);
    StepNAdds(cfg.joined, n, |packets|);
    ChainAt(cfg, n + |packets|);
  }

  lemma WriteTxKeeps(cfg: Config, row: Row, tx: Tag)
    requires Inv(cfg, row)
    ensures var next := WriteTx(cfg, row, tx); next.Some? ==> Inv(cfg, next.value) && row.posted <= next.value.posted
  {
    if WriteTx(cfg, row, tx).Some? {
      AfterWriteKeeps(cfg, row, Fragments(CarrierFor(cfg, row, tx), cfg.packedTx(tx), Origin(cfg, row).packetSeq, 0).value);
    }
  }

  lemma {:induction false} WriteAllKeeps(cfg: Config, row: Row, txs: seq<Tag>)
    requires Inv(cfg, row)
    ensures var next := WriteAll(cfg, row, txs); next.Some? ==> Inv(cfg, next.value) && row.posted <= next.value.posted
    decreases |txs|
  {
    if txs != [] {
      WriteTxKeeps(cfg, row, txs[0]);
      if WriteTx(cfg, row, txs[0]).Some? {
        WriteAllKeeps(cfg, WriteTx(cfg, row, txs[0]).value, txs[1..]);
      }
    }
  }

  lemma WantKeeps(cfg: Config, row: Row, named: seq<Tag>)
    requires Inv(cfg, row)
    ensures var next := OnWant(cfg, row, named); next.Some? ==> Inv(cfg, next.value) && row.posted <= next.value.posted
  {
    var cleared := row.(heal := row.heal.(probes := [], ready := [], onEphemeral := false));
    WriteAllKeeps(cfg, cleared, Held(named, row.ids, true));
  }

  lemma XorKeeps(cfg: Config, row: Row, remote: Tag)
    requires Inv(cfg, row)
    ensures var next := NoteSetXor(cfg, row, remote); next.Some? ==> Inv(cfg, next.value) && row.posted <= next.value.posted
  {
    PostHealKeeps(cfg, row.(heal := row.heal.(probes := [Half(ZERO, INF)], fellBack := false)));
  }

  lemma TouchedKeeps(cfg: Config, row: Row)
    requires Inv(cfg, row) && row.ticked.Some?
    ensures Inv(cfg, Touched(row)) && Touched(row).posted == row.posted
  {
  }

  lemma PacketKeeps(cfg: Config, row: Row, p: PacketPlain)
    requires Inv(cfg, row)
    ensures var next := OnHealPacket(cfg, row, p); next.Some? ==> Inv(cfg, next.value) && row.posted <= next.value.posted
  {
    if row.ticked.Some? {
      var now := Touched(row);
      TouchedKeeps(cfg, row);
      match p
      case HealHalfXor(_, _, lo, hi, xor) => ReactKeeps(cfg, now, HalfReaction(row.ids, lo, hi, xor));
      case HealHave(_, _, lo, hi, named) => ReactKeeps(cfg, now, HaveReaction(row.ids, lo, hi, named));
      case HealWant(_, _, _, _, named) => WantKeeps(cfg, now, named);
      case _ =>
    }
  }

  lemma ReactKeeps(cfg: Config, row: Row, reaction: Reaction)
    requires Inv(cfg, row)
    ensures var next := React(cfg, row, reaction); next.Some? ==> Inv(cfg, next.value) && row.posted <= next.value.posted
  {
    if reaction.Ask? {
      PostHealKeeps(cfg, row.(heal := row.heal.(probes := reaction.probes, fellBack := false)));
    }
  }

  // ---------------------------------------------------------------- whole runs

  /** Everything that can happen to the sending side of a row. A tick carries the new time, and a
      live note the time until which the peer counts as live. */
  datatype Event =
    | Ticked(now: U64)
    | LiveUntil(at: U64)
    | Arrived(id: Tag)
    | Reseal
    | PeerXor(remote: Tag)
    | Packet(p: PacketPlain)
    | Send(tx: Tag)
    | EphemeralNow(channels: seq<nat>)

  /** One event. An operation that fails drops the state it was changing. */
  ghost function Apply(cfg: Config, row: Row, e: Event): Row
    requires row.heal.sealedFrom.Some? ==> row.heal.sealedTo.Some?
  {
    match e
    case Ticked(now) =>
      if row.ticked.Some? && now < row.ticked.value then row else FlushHeal(cfg, row.(ticked := Some(now)))
    case LiveUntil(at) => row.(liveUntil := Some(at))
    case Arrived(id) => if id in row.ids then row else row.(ids := WithId(row.ids, id))
    case Reseal => OrElse(ResealDue(cfg, row), row)
    case PeerXor(remote) => OrElse(NoteSetXor(cfg, row, remote), row)
    case Packet(p) => OrElse(OnHealPacket(cfg, row, p), row)
    case Send(tx) => OrElse(WriteTx(cfg, row, tx), row)
    case EphemeralNow(_) => row
  }

  /** A notice that arrives changes the channels the row may use from then on. */
  function Reconfigured(cfg: Config, e: Event): Config {
    if e.EphemeralNow? then cfg.(ephemeral := e.channels) else cfg
  }

  function OrElse(r: Option<Row>, row: Row): Row {
    if r.Some? then r.value else row
  }

  lemma OneEventKeeps(cfg: Config, row: Row, e: Event)
    requires Inv(cfg, row)
    ensures Inv(cfg, Apply(cfg, row, e)) && row.posted <= Apply(cfg, row, e).posted
  {
    match e
    case Ticked(now) => FlushKeeps(cfg, row.(ticked := Some(now)));
    case LiveUntil(at) =>
    case Arrived(id) =>
    case Reseal => ResealKeeps(cfg, row);
    case PeerXor(remote) => XorKeeps(cfg, row, remote);
    case Packet(p) => PacketKeeps(cfg, row, p);
    case Send(tx) => WriteTxKeeps(cfg, row, tx);
    case EphemeralNow(_) =>
  }

  /** The invariant does not look at channels. */
  lemma ChannelsDoNotMatter(cfg: Config, row: Row, e: Event)
    requires Inv(cfg, row)
    ensures Inv(Reconfigured(cfg, e), row)
  {
  }

  ghost function Run(cfg: Config, row: Row, events: seq<Event>): Row
    requires Inv(cfg, row)
    decreases |events|
  {
    if events == [] then row
    else
      OneEventKeeps(cfg, row, events[0]);
      ChannelsDoNotMatter(cfg, Apply(cfg, row, events[0]), events[0]);
      Run(Reconfigured(cfg, events[0]), Apply(cfg, row, events[0]), events[1..])
  }

  /** Nothing posted is ever taken back, and the invariant holds after every run. */
  lemma {:induction false} RunKeeps(cfg: Config, row: Row, events: seq<Event>)
    requires Inv(cfg, row)
    ensures exists last: Config :: last.joined == cfg.joined && Inv(last, Run(cfg, row, events))
    ensures row.posted <= Run(cfg, row, events).posted
    decreases |events|
  {
    if events != [] {
      var next, later := Apply(cfg, row, events[0]), Reconfigured(cfg, events[0]);
      OneEventKeeps(cfg, row, events[0]);
      ChannelsDoNotMatter(cfg, next, events[0]);
      RunKeeps(later, next, events[1..]);
    }
  }

  /** A row that has posted nothing yet. */
  function NewRow(): Row { Row([], None, NO_SEARCH, None, None, [], []) }

  /** In every run, each durable packet is sealed at a strictly later position than all before it,
      so no two of them share a key and no stashed copy lands on a spent position. */
  lemma PositionsOnlyGrow(secret: nat, sort: Sort, cfg: Config, events: seq<Event>)
    requires !sort.Engine? && cfg.joined == Join(secret, sort, []).value
    ensures Inv(cfg, NewRow())
    ensures var posted := Run(cfg, NewRow(), events).posted;
            forall i, j :: 0 <= i < j < |posted| ==>
              && PositionOf(posted[i]) < PositionOf(posted[j])
              && posted[i].body.Sealed? && posted[j].body.Sealed?
              && posted[i].body.key != posted[j].body.key
  {
    assert StepN(cfg.joined, 0) == cfg.joined;
    RunKeeps(cfg, NewRow(), events);
    var posted := Run(cfg, NewRow(), events).posted;
    var last: Config :| last.joined == cfg.joined && Inv(last, Run(cfg, NewRow(), events));
    forall i, j | 0 <= i < j < |posted|
      ensures PositionOf(posted[i]) < PositionOf(posted[j]) && posted[i].body.Sealed? && posted[j].body.Sealed?
      ensures posted[i].body.key != posted[j].body.key
    {
      KeysAreDistinct(cfg.joined, PositionOf(posted[i]), PositionOf(posted[j]));
    }
  }
}
