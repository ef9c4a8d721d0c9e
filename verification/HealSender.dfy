/** A handshake row that is updated in place: its search, its stash and its posts. */
module HealSender {
  import opened Chain
  import opened Fragment
  import opened HealRange
  import opened HealRow
  import opened HealSearch
  import opened Numbers
  import opened Packets
  import opened Tags
  import opened Wrappers

  class Sender {
    const cfg: Config
    var ids: seq<Tag>
    var send: Option<SendChain>
    var heal: Heal
    var liveUntil: Option<U64>
    var ticked: Option<U64>
    var posted: seq<Post>
    var ephPosted: seq<Post>

    function Value(): Row
      reads this
    {
      Row(ids, send, heal, liveUntil, ticked, posted, ephPosted)
    }

    constructor (cfg: Config)
      ensures this.cfg == cfg && Value() == Row([], None, NO_SEARCH, None, None, [], [])
    {
      this.cfg := cfg;
      ids, send, heal := [], None, NO_SEARCH;
      liveUntil, ticked := None, None;
      posted, ephPosted := [], [];
    }

    /** Seal the current probes, and post them on the ephemeral path while the peer is live. */
    method PostProbes() returns (ok: bool)
      modifies this
      ensures ok == PostHeal(cfg, old(Value())).Some?
      ensures ok ==> Value() == PostHeal(cfg, old(Value())).value
    {
      if ticked.None? {
        return false;
      }
      var now := ticked.value;
      if heal.probes == [] || (cfg.durable == [] && cfg.ephemeral == []) {
        return true;
      }
      var origin := if send.Some? then send.value else cfg.joined;
      var useEph := liveUntil.Some? && now < liveUntil.value && cfg.ephemeral != []
                    && !heal.fellBack && !heal.needsReseal;
      var fits, ready, eph, cursor := SealProbes(origin, heal.probes, useEph);
      if !fits {
        return false;
      }
      if useEph {
        ephPosted := ephPosted + Posts(cfg.ephemeral, eph);
        heal := heal.(sentAt := Some(now), onEphemeral := true, needsReseal := false,
                      ready := ready, sealedFrom := Some(origin), sealedTo := Some(cursor));
      } else {
        posted := posted + Posts(cfg.durable, ready);
        heal := heal.(sentAt := Some(now), onEphemeral := false, needsReseal := false, fellBack := true,
                      ready := [], sealedFrom := None, sealedTo := None);
        send := Some(cursor);
      }
      return true;
    }

    /** Durable copies at consecutive positions, and ephemeral ones when that path is used. The first probe
        that does not fit ends it. */
    method SealProbes(origin: SendChain, probes: seq<Probe>, useEph: bool)
      returns (fits: bool, ready: seq<Body>, eph: seq<Body>, cursor: SendChain)
      ensures fits == AllPack(cfg, origin, probes, ids)
      ensures fits ==> ready == SealRun(origin, probes, ids) && cursor == StepN(origin, |probes|)
      ensures fits ==> eph == if useEph then EphRun(origin, probes, ids) else []
    {
      fits, cursor, ready, eph := true, origin, [], [];
      for n := 0 to |probes|
        invariant fits
        invariant AllPack(cfg, origin, probes[..n], ids)
        invariant cursor == StepN(origin, n)
        invariant ready == SealRun(origin, probes[..n], ids)
        invariant eph == if useEph then EphRun(origin, probes[..n], ids) else []
      {
        assert probes[..n + 1][..n] == probes[..n];
        var plain := Plain(probes[n], cursor.packetSeq);
        PackOneMore(cfg, origin, probes, ids, n);
        if !Packs(cfg, plain) {
          return false, [], [], origin;
        }
        if useEph {
          eph := eph + [Sealed(EphMk(origin), plain)];
        }
        ready := ready + [Sealed(Mk(cursor), plain)];
        cursor := Step(cursor);
      }
      assert probes[..|probes|] == probes;
    }

    method Plain(probe: Probe, packetSeq: U64) returns (p: PacketPlain)
      ensures p == PlainOf(probe, packetSeq, ids)
    {
      match probe
      case Half(lo, hi) =>
        var xor := RangeXor(ids, lo, hi);
        p := HealHalfXor([], packetSeq, lo, hi, xor);
      case Want(lo, hi, named) => p := HealWant([], packetSeq, lo, hi, named);
      case Have(lo, hi, named) => p := HealHave([], packetSeq, lo, hi, named);
    }

    /** Post the stashed copies, and move the chain to where they were sealed to. */
    method Commit()
      requires heal.sealedTo.Some?
      modifies this
      ensures Value() == CommitReady(cfg, old(Value()))
    {
      posted := posted + Posts(cfg.durable, heal.ready);
      send := heal.sealedTo;
      heal := heal.(ready := [], sealedFrom := None, sealedTo := None,
                    onEphemeral := false, fellBack := true, needsReseal := false);
    }

    method Flush()
      requires heal.sealedFrom.Some? ==> heal.sealedTo.Some?
      modifies this
      ensures Value() == FlushHeal(cfg, old(Value()))
    {
      if ticked.None? || !FallbackDue(Value(), ticked.value) {
        return;
      }
      if heal.ready == [] || !SealedMatches(Value()) {
        heal := heal.(needsReseal := true);
        return;
      }
      Commit();
    }

    method ResealIfDue() returns (ok: bool)
      modifies this
      ensures ok == ResealDue(cfg, old(Value())).Some?
      ensures ok ==> Value() == ResealDue(cfg, old(Value())).value
    {
      if ticked.None? || !heal.onEphemeral {
        return true;
      }
      if heal.needsReseal || (FallbackDue(Value(), ticked.value) && heal.ready == []) {
        ok := PostProbes();
      } else {
        ok := true;
      }
    }

    /** Post the fragments of one transaction. A failed post leaves the row as it was, because the
        caller drops the state it was changing. */
    method WriteChainPackets(tx: Tag) returns (ok: bool)
      modifies this
      ensures ok == WriteTx(cfg, old(Value()), tx).Some?
      ensures ok ==> Value() == WriteTx(cfg, old(Value()), tx).value
      ensures !ok ==> Value() == old(Value())
    {
      if tx !in ids {
        return false;
      }
      var xor := RangeXor(ids, ZERO, INF);
      var carrier := Measure(Frame(cfg.packedLen, [], tx, xor));
      var origin := if send.Some? then send.value else cfg.joined;
      var split := FragmentBody(carrier, cfg.packedTx(tx), origin.packetSeq);
      if split.Err? {
        return false;
      }
      var fits, sealed_, chain := SealFragments(origin, split.value);
      if !fits {
        return false;
      }
      if heal.onEphemeral {
        var due := ticked.Some? && heal.sentAt.Some? && ticked.value >= SatAdd(heal.sentAt.value, FALLBACK_SECS);
        heal := heal.(ready := [], sealedFrom := None, sealedTo := None, needsReseal := due || heal.needsReseal);
      }
      posted := posted + Posts(cfg.durable, sealed_);
      send := Some(chain);
      return true;
    }

    /** Fragments at consecutive positions. The first that does not fit ends it. */
    method SealFragments(origin: SendChain, packets: seq<PacketPlain>)
      returns (fits: bool, sealed_: seq<Body>, chain: SendChain)
      ensures fits == forall p :: p in packets ==> Packs(cfg, p)
      ensures fits ==> sealed_ == SealPackets(origin, packets) && chain == StepN(origin, |packets|)
    {
      fits, chain, sealed_ := true, origin, [];
      for n := 0 to |packets|
        invariant fits && forall p :: p in packets[..n] ==> Packs(cfg, p)
        invariant chain == StepN(origin, n) && sealed_ == SealPackets(origin, packets[..n])
      {
        assert packets[..n + 1][..n] == packets[..n];
        if !Packs(cfg, packets[n]) {
          return false, [], origin;
        }
        sealed_ := sealed_ + [Sealed(Mk(chain), packets[n])];
        chain := Step(chain);
      }
      assert packets[..|packets|] == packets;
    }

    method ReplaceProbes(probes: seq<Probe>) returns (ok: bool)
      modifies this
      ensures ok == Replace(cfg, old(Value()), probes).Some?
      ensures ok ==> Value() == Replace(cfg, old(Value()), probes).value
    {
      heal := heal.(probes := probes, fellBack := false);
      ok := PostProbes();
    }

    /** The peer's fingerprint of a range disagrees: split it, name its one id, or list what is here. */
    method OnHalf(lo: Tag, hi: Tag, xor: Tag) returns (ok: bool)
      modifies this
      ensures var next := React(cfg, old(Value()), HalfReaction(old(ids), lo, hi, xor));
              ok == next.Some? && (ok ==> Value() == next.value)
    {
      var ours := RangeXor(ids, lo, hi);
      if ours == xor {
        return true;
      }
      var next := Successor(lo);
      if next == Some(hi) {
        ok := ReplaceProbes([if ours == lo then Have(lo, hi, [lo]) else Want(lo, hi, [lo])]);
        return;
      }
      var mid := Midpoint(lo, hi);
      if mid.Some? {
        ok := ReplaceProbes([Half(lo, mid.value), Half(mid.value, hi)]);
      } else {
        ok := ReplaceProbes([Have(lo, hi, Capped(Filtered(ids, lo, hi)))]);
      }
    }

    /** The peer is missing ids, so post the ones held here. */
    method OnWantPacket(named: seq<Tag>) returns (ok: bool)
      modifies this
      ensures ok == OnWant(cfg, old(Value()), named).Some?
      ensures ok ==> Value() == OnWant(cfg, old(Value()), named).value
    {
      if |named| > ID_CAP {
        return true;
      }
      heal := heal.(probes := [], ready := [], onEphemeral := false);
      if cfg.durable == [] {
        return true;
      }
      var txs := Held(named, ids, true);
      ghost var goal := WriteAll(cfg, Value(), txs);
      for n := 0 to |txs|
        invariant WriteAll(cfg, Value(), txs[n..]) == goal
      {
        assert txs[n..][0] == txs[n] && txs[n..][1..] == txs[n + 1..];
        var wrote := WriteChainPackets(txs[n]);
        if !wrote {
          return false;
        }
      }
      return true;
    }

    /** The peer listed its ids, so ask for the ones missing here. */
    method OnHave(lo: Tag, hi: Tag, named: seq<Tag>) returns (ok: bool)
      modifies this
      ensures var next := React(cfg, old(Value()), HaveReaction(old(ids), lo, hi, named));
              ok == next.Some? && (ok ==> Value() == next.value)
    {
      if |named| > ID_CAP {
        return true;
      }
      var missing := Held(named, ids, false);
      if missing == [] {
        heal := NO_SEARCH;
        return true;
      }
      ok := ReplaceProbes([Want(lo, hi, missing)]);
    }

    method NotePeerXor(remote: Tag) returns (ok: bool)
      modifies this
      ensures ok == NoteSetXor(cfg, old(Value()), remote).Some?
      ensures ok ==> Value() == NoteSetXor(cfg, old(Value()), remote).value
    {
      var local := RangeXor(ids, ZERO, INF);
      if local == remote {
        heal := NO_SEARCH;
        return true;
      }
      if heal.probes != [] {
        return true;
      }
      heal := heal.(probes := [Half(ZERO, INF)], fellBack := false);
      ok := PostProbes();
    }

    /** One packet of the search. A search still waiting on the ephemeral path waits anew. */
    method OnSearchPacket(p: PacketPlain) returns (ok: bool)
      modifies this
      ensures var next := OnHealPacket(cfg, old(Value()), p);
              ok == next.Some? && (ok ==> Value() == next.value)
    {
      if ticked.None? {
        return false;
      }
      if heal.onEphemeral {
        heal := heal.(sentAt := ticked);
      }
      match p
      case HealHalfXor(_, _, lo, hi, xor) => ok := OnHalf(lo, hi, xor);
      case HealWant(_, _, _, _, named) => ok := OnWantPacket(named);
      case HealHave(_, _, lo, hi, named) => ok := OnHave(lo, hi, named);
      case _ => ok := true;
    }
  }
}
