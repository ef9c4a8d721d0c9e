/** An established row whose queue is changed in place. */
module LiveSender {
  import opened Chain
  import opened Fragment
  import opened HealRow
  import opened HealSearch
  import opened LiveRow
  import opened Numbers
  import opened Packets
  import opened Tags
  import opened Wrappers

  class LiveQueue {
    const route: Route
    var ids: seq<Tag>
    var send: Option<SendChain>
    var pending: seq<Pending>
    var liveUntil: Option<U64>
    var presenceSent: bool
    var ticked: Option<U64>
    var posted: seq<Post>
    var ephPosted: seq<Post>
    ghost var sealed: seq<Body>
    ghost var released: seq<Body>

    ghost function Value(): Live
      reads this
    {
      Live(ids, send, pending, liveUntil, presenceSent, ticked, posted, ephPosted, sealed, released)
    }

    constructor (route: Route)
      ensures this.route == route && Value() == Live([], None, [], None, false, None, [], [], [], [])
    {
      this.route := route;
      ids, send, pending, liveUntil := [], None, [], None;
      presenceSent, ticked := false, None;
      posted, ephPosted, sealed, released := [], [], [], [];
    }

    method NextChain() returns (chain: SendChain)
      ensures chain == SendingChain(route, Value())
    {
      if pending != [] {
        return pending[|pending| - 1].sealedTo;
      }
      return if send.Some? then send.value else route.joined;
    }

    /** Cut a transaction up and seal every fragment. */
    method SealBoth(origin: SendChain, tx: Tag)
      returns (ok: bool, eph: seq<Body>, durable: seq<Body>, to: SendChain)
      ensures var r := Fragments(LiveCarrier(route, Value(), tx), route.packedTx(tx), origin.packetSeq, 0);
              && ok == (r.Ok? && forall p :: p in r.value ==> Packed(route, p))
              && (ok ==> eph == EphCopies(origin, r.value) && durable == SealPackets(origin, r.value)
                         && to == StepN(origin, |r.value|))
    {
      var xor := RangeXor(ids, ZERO, INF);
      var c := Measure(Frame(route.packedLen, route.actorId, tx, xor));
      var r := FragmentBody(c, route.packedTx(tx), origin.packetSeq);
      if r.Err? {
        return false, [], [], origin;
      }
      ok, eph, durable, to := SealCopies(origin, r.value);
    }

    /** Each packet twice: under the ephemeral key of the first position, and under its own message key. The first that
        does not fit ends it. */
    method SealCopies(origin: SendChain, packets: seq<PacketPlain>)
      returns (ok: bool, eph: seq<Body>, durable: seq<Body>, to: SendChain)
      ensures ok == forall p :: p in packets ==> Packed(route, p)
      ensures ok ==> eph == EphCopies(origin, packets) && durable == SealPackets(origin, packets) && to == StepN(origin, |packets|)
    {
      ok, eph, durable, to := true, [], [], origin;
      for i := 0 to |packets|
        invariant ok && forall p :: p in packets[..i] ==> Packed(route, p)
        invariant eph == EphCopies(origin, packets[..i]) && durable == SealPackets(origin, packets[..i])
        invariant to == StepN(origin, i)
      {
        assert packets[..i + 1][..i] == packets[..i];
        if !Packed(route, packets[i]) {
          return false, [], [], origin;
        }
        eph := eph + [Sealed(EphMk(origin), packets[i])];
        durable := durable + [Sealed(Mk(to), packets[i])];
        to := Step(to);
      }
      assert packets[..|packets|] == packets;
    }

    method Announce(chain: SendChain, now: U64) returns (ok: bool)
      modifies this`ephPosted, this`presenceSent
      ensures ok == (Announces(old(Value()), now) ==> Packed(route, PresencePacket(route, chain.packetSeq, now)))
      ensures ok ==> Value() == ProbePresence(route, old(Value()), chain, now)
      ensures !ok ==> Value() == old(Value())
    {
      if (liveUntil.Some? && now < liveUntil.value) || presenceSent {
        return true;
      }
      var packet := PresencePacket(route, chain.packetSeq, now);
      if !Packed(route, packet) {
        return false;
      }
      ephPosted := ephPosted + [Post(route.ephemeral, Sealed(EphMk(chain), packet))];
      presenceSent := true;
      return true;
    }

    /** Send one transaction. A failure leaves the caller with the state it had. */
    method SendTx(tx: Tag) returns (ok: bool)
      requires ticked.Some?
      modifies this
      ensures ok == PostLive(route, old(Value()), tx).Some?
      ensures ok ==> Value() == PostLive(route, old(Value()), tx).value
    {
      var now := ticked.value;
      var chain := NextChain();
      var wait := route.ephemeral != [];
      if wait {
        var announced := Announce(chain, now);
        if !announced {
          return false;
        }
      }
      var xor := RangeXor(ids, ZERO, INF);
      var sent, eph, durable, to := SealBoth(chain, tx);
      if !sent {
        return false;
      }
      if wait {
        ephPosted := ephPosted + Written(route.ephemeral, eph);
        pending := pending + [Pending(xor, now, durable, to, 0, 1)];
      } else {
        posted := posted + Written(route.durable, durable);
        send := Some(to);
      }
      sealed := sealed + durable;
      return true;
    }

    /** Count an acknowledgement and let go of every entry that has enough. */
    method Settle(xor: Tag, now: U64)
      modifies this
      ensures Value() == SettleLive(old(Value()), xor, now)
    {
      var kept: seq<Pending> := [];
      ghost var dropped: seq<Pending> := [];
      for i := 0 to |pending|
        invariant Value() == old(Value())
        invariant kept == Kept(pending[..i], xor) && dropped == Dropped(pending[..i], xor)
      {
        assert pending[..i + 1][..i] == pending[..i];
        var p := Acked(pending[i], xor);
        if Open(p) {
          kept := kept + [p];
        } else {
          dropped := dropped + [pending[i]];
        }
      }
      assert pending[..|pending|] == pending;
      released := released + Bodies(dropped);
      if |kept| < |pending| {
        liveUntil := Some(SatAdd(now, LIVE_SECS));
      }
      pending := kept;
    }

    /** Write every entry that has waited three ticked seconds. */
    method Flush(now: U64)
      modifies this
      ensures Value() == FlushLive(route, old(Value()), now)
    {
      var due, rest := SplitDue(pending, now);
      if due == [] {
        return;
      }
      var bodies := Gather(due);
      posted := posted + Written(route.durable, bodies);
      send := Some(due[|due| - 1].sealedTo);
      pending := rest;
    }

    /** Advance the clock, which never goes back, and flush. */
    method Tick(now: U64) returns (ok: bool)
      modifies this
      ensures ok == (old(ticked).None? || old(ticked).value <= now)
      ensures Value() == if ok then FlushLive(route, old(Value()).(ticked := Some(now)), now) else old(Value())
    {
      if ticked.Some? && now < ticked.value {
        return false;
      }
      ticked := Some(now);
      Flush(now);
      return true;
    }
  }

  method SplitDue(pending: seq<Pending>, now: U64) returns (due: seq<Pending>, rest: seq<Pending>)
    ensures due == Due(pending, now) && rest == NotDue(pending, now)
  {
    due, rest := [], [];
    for i := 0 to |pending|
      invariant due == Due(pending[..i], now) && rest == NotDue(pending[..i], now)
    {
      assert pending[..i + 1][..i] == pending[..i];
      if IsDue(pending[i], now) {
        due := due + [pending[i]];
      } else {
        rest := rest + [pending[i]];
      }
    }
    assert pending[..|pending|] == pending;
  }

  method Gather(due: seq<Pending>) returns (bodies: seq<Body>)
    ensures bodies == Bodies(due)
  {
    bodies := [];
    for i := 0 to |due|
      invariant bodies == Bodies(due[..i])
    {
      assert due[..i + 1][..i] == due[..i];
      bodies := bodies + due[i].bodies;
    }
    assert due[..|due|] == due;
  }
}
