/** What a search puts on its channels, and that a search which nobody answers on the ephemeral path goes out durably. */
module HealFallback {
  import opened Chain
  import opened Fragment
  import opened HealRow
  import opened HealSearch
  import opened Numbers
  import opened Packets
  import opened SendPositions
  import opened Tags
  import opened Wrappers

  // ---------------------------------------------------------------- what a search posts

  /** The packet of one question at one position. */
  function Asking(probe: Probe, at: SendChain, ids: seq<Tag>): PacketPlain {
    match probe
    case Half(lo, hi) => HealHalfXor([], at.packetSeq, lo, hi, RangeXorOf(ids, lo, hi))
    case Want(lo, hi, named) => HealWant([], at.packetSeq, lo, hi, named)
    case Have(lo, hi, named) => HealHave([], at.packetSeq, lo, hi, named)
  }

  /** One body for each question, in order, each under the message key of its own position from `origin` on. */
  ghost predicate SealedInOrder(bodies: seq<Body>, origin: SendChain, probes: seq<Probe>, ids: seq<Tag>) {
    && |bodies| == |probes|
    && forall k :: 0 <= k < |bodies| ==> bodies[k] == Sealed(KeyAt(origin, k), Asking(probes[k], StepN(origin, k), ids))
  }

  /** The durable posts since `was` are one for each question. */
  ghost predicate PostedInOrder(was: seq<Post>, posts: seq<Post>, channels: seq<nat>, origin: SendChain, probes: seq<Probe>, ids: seq<Tag>) {
    && was <= posts && |posts| == |was| + |probes|
    && forall k :: 0 <= k < |probes| ==>
         posts[|was| + k] == Post(channels, Sealed(KeyAt(origin, k), Asking(probes[k], StepN(origin, k), ids)))
  }

  lemma {:induction false} SealRunInOrder(origin: SendChain, probes: seq<Probe>, ids: seq<Tag>)
    ensures SealedInOrder(SealRun(origin, probes, ids), origin, probes, ids)
  {
    if probes != [] {
      SealRunInOrder(origin, probes[..|probes| - 1], ids);
    }
  }

  lemma {:induction false} EphRunInOrder(origin: SendChain, probes: seq<Probe>, ids: seq<Tag>)
    ensures |EphRun(origin, probes, ids)| == |probes|
    ensures forall k :: 0 <= k < |probes| ==>
              EphRun(origin, probes, ids)[k] == Sealed(EphMk(origin), Asking(probes[k], StepN(origin, k), ids))
  {
    if probes != [] {
      EphRunInOrder(origin, probes[..|probes| - 1], ids);
    }
  }

  lemma PostsInOrder(was: seq<Post>, channels: seq<nat>, bodies: seq<Body>, origin: SendChain, probes: seq<Probe>, ids: seq<Tag>)
    requires channels != [] && SealedInOrder(bodies, origin, probes, ids)
    ensures PostedInOrder(was, was + Posts(channels, bodies), channels, origin, probes, ids)
  {
  }

  /** The peer counts as live, there are channels to reach it on, and this search has not fallen back yet. */
  predicate GoesLive(cfg: Config, row: Row) {
    && row.ticked.Some? && row.heal.probes != []
    && row.liveUntil.Some? && row.ticked.value < row.liveUntil.value && cfg.ephemeral != []
    && !row.heal.fellBack && !row.heal.needsReseal
  }

  /** A search on the ephemeral path: one post for each question there, all under the ephemeral key of the position where the
      row stands, and nothing durable. The row stays where it stands. */
  lemma LiveSearchPosts(cfg: Config, row: Row)
    requires GoesLive(cfg, row) && PostHeal(cfg, row).Some?
    ensures var next, origin, probes := PostHeal(cfg, row).value, Origin(cfg, row), row.heal.probes;
            && next.posted == row.posted && next.send == row.send && next.ids == row.ids && next.ticked == row.ticked
            && row.ephPosted <= next.ephPosted && |next.ephPosted| == |row.ephPosted| + |probes|
            && (forall k :: 0 <= k < |probes| ==>
                  next.ephPosted[|row.ephPosted| + k]
                  == Post(cfg.ephemeral, Sealed(EphMk(origin), Asking(probes[k], StepN(origin, k), row.ids))))
            && Waiting(next, probes, row.ticked.value) && Stashed(cfg, next, origin, row.ids)
  {
    EphRunInOrder(Origin(cfg, row), row.heal.probes, row.ids);
    SealRunInOrder(Origin(cfg, row), row.heal.probes, row.ids);
  }

  /** A search on the durable path: one post for each question, each at its own position, and the row stands past them. */
  lemma DurableSearchPosts(cfg: Config, row: Row)
    requires row.ticked.Some? && row.heal.probes != [] && cfg.durable != [] && !GoesLive(cfg, row) && PostHeal(cfg, row).Some?
    ensures var next, origin, probes := PostHeal(cfg, row).value, Origin(cfg, row), row.heal.probes;
            && next.ephPosted == row.ephPosted && next.ids == row.ids && next.ticked == row.ticked
            && PostedInOrder(row.posted, next.posted, cfg.durable, origin, probes, row.ids)
            && next.send == Some(StepN(origin, |probes|))
            && next.heal.probes == probes && !next.heal.onEphemeral && !next.heal.needsReseal
  {
    SealRunInOrder(Origin(cfg, row), row.heal.probes, row.ids);
    PostsInOrder(row.posted, cfg.durable, SealRun(Origin(cfg, row), row.heal.probes, row.ids), Origin(cfg, row), row.heal.probes, row.ids);
  }

  /** A search goes out exactly when the row has a clock and every question fits its packet. A row without questions, or without
      channels, posts nothing. */
  lemma SearchGoesOutExactlyWhen(cfg: Config, row: Row)
    ensures var idle := row.heal.probes == [] || (cfg.durable == [] && cfg.ephemeral == []);
            && (PostHeal(cfg, row).Some?
                <==> row.ticked.Some?
                     && (idle || forall k :: 0 <= k < |row.heal.probes| ==>
                                   cfg.packedLen(Asking(row.heal.probes[k], StepN(Origin(cfg, row), k), row.ids)) <= 484))
            && (idle && row.ticked.Some? ==> PostHeal(cfg, row) == Some(row))
  {
    forall k | 0 <= k < |row.heal.probes|
      ensures PlainOf(row.heal.probes[k], StepN(Origin(cfg, row), k).packetSeq, row.ids)
           == Asking(row.heal.probes[k], StepN(Origin(cfg, row), k), row.ids)
    {
    }
  }

  // ---------------------------------------------------------------- while no answer comes

  /** These questions went out on the ephemeral path at `since`, and nothing has come of it yet. */
  ghost predicate Waiting(row: Row, probes: seq<Probe>, since: U64) {
    && row.heal.probes == probes && row.heal.sentAt == Some(since)
    && row.heal.onEphemeral && !row.heal.fellBack && !row.heal.needsReseal
    && row.ticked.Some? && since <= row.ticked.value && (row.ticked.value == since || row.ticked.value < SatAdd(since, 3))
  }

  /** Durable copies are ready from where the row stands. */
  ghost predicate Stashed(cfg: Config, row: Row, origin: SendChain, ids: seq<Tag>) {
    && Origin(cfg, row) == origin && row.heal.ready != []
    && SealedInOrder(row.heal.ready, origin, row.heal.probes, ids)
    && row.heal.sealedFrom == Some(origin) && row.heal.sealedTo == Some(StepN(origin, |row.heal.probes|))
  }

  /** Nothing that answers the search or starts it anew: no search packet, no fingerprint that agrees, and no tick three
      seconds on. */
  ghost predicate Unanswered(row: Row, e: Event, since: U64) {
    match e
    case Packet(_) => false
    case PeerXor(remote) => remote != RangeXorOf(row.ids, ZERO, INF)
    case Ticked(now) => now < SatAdd(since, 3)
    case _ => true
  }

  ghost predicate AllUnanswered(cfg: Config, row: Row, events: seq<Event>, since: U64)
    requires Inv(cfg, row)
    decreases |events|
  {
    events != [] ==>
      && Unanswered(row, events[0], since)
      && (OneEventKeeps(cfg, row, events[0]);
          ChannelsDoNotMatter(cfg, Apply(cfg, row, events[0]), events[0]);
          AllUnanswered(Reconfigured(cfg, events[0]), Apply(cfg, row, events[0]), events[1..], since))
  }

  function LastConfig(cfg: Config, events: seq<Event>): Config
    decreases |events|
  {
    if events == [] then cfg else LastConfig(Reconfigured(cfg, events[0]), events[1..])
  }

  /** Only a send moves the chain, and then the stash is gone. Everything else leaves the search as it is. */
  lemma StillWaiting(cfg: Config, row: Row, e: Event, probes: seq<Probe>, since: U64)
    requires Inv(cfg, row) && probes != [] && since < U64_MAX
    requires Waiting(row, probes, since) && Unanswered(row, e, since)
    ensures var next := Apply(cfg, row, e);
            && Waiting(next, probes, since) && At(cfg, row) <= At(cfg, next)
            && (At(cfg, next) == At(cfg, row) ==> next.heal == row.heal && next.send == row.send && next.posted == row.posted)
            && (At(cfg, next) != At(cfg, row) ==> next.heal.ready == [])
            && (row.heal.ready == [] ==> next.heal.ready == [])
  {
    if e.Send? && WriteTx(cfg, row, e.tx).Some? {
      var packets := Fragments(CarrierFor(cfg, row, e.tx), cfg.packedTx(e.tx), Origin(cfg, row).packetSeq, 0).value;
      StepNFacts(Origin(cfg, row), |packets|);
    }
  }

  lemma {:induction false} WaitsOn(cfg: Config, row: Row, events: seq<Event>, probes: seq<Probe>, since: U64)
    requires Inv(cfg, row) && probes != [] && since < U64_MAX
    requires Waiting(row, probes, since) && AllUnanswered(cfg, row, events, since)
    ensures var end, last := Run(cfg, row, events), LastConfig(cfg, events);
            && Inv(last, end) && last.joined == cfg.joined && last.durable == cfg.durable
            && Waiting(end, probes, since) && At(cfg, row) <= At(last, end)
            && (At(last, end) == At(cfg, row) ==> end.heal == row.heal && end.send == row.send && end.posted == row.posted)
            && (At(last, end) != At(cfg, row) || row.heal.ready == [] ==> end.heal.ready == [])
    decreases |events|
  {
    if events != [] {
      var next, later := Apply(cfg, row, events[0]), Reconfigured(cfg, events[0]);
      StillWaiting(cfg, row, events[0], probes, since);
      OneEventKeeps(cfg, row, events[0]);
      ChannelsDoNotMatter(cfg, next, events[0]);
      WaitsOn(later, next, events[1..], probes, since);
    }
  }

  // ---------------------------------------------------------------- the fallback

  /** The tick that reaches the fallback commits the stash, if the row still stands where it was made. */
  lemma TickCommits(cfg: Config, row: Row, origin: SendChain, ids: seq<Tag>, since: U64, now: U64)
    requires Inv(cfg, row) && cfg.durable != [] && Waiting(row, row.heal.probes, since) && Stashed(cfg, row, origin, ids)
    requires since < now && SatAdd(since, 3) <= now
    ensures var after := Apply(cfg, row, Ticked(now));
            && PostedInOrder(row.posted, after.posted, cfg.durable, origin, row.heal.probes, ids)
            && after.send == Some(StepN(origin, |row.heal.probes|))
            && after.ephPosted == row.ephPosted && after.heal.probes == row.heal.probes && !after.heal.onEphemeral
  {
    PostsInOrder(row.posted, cfg.durable, row.heal.ready, origin, row.heal.probes, ids);
    TickIsCommit(cfg, row, since, now);
  }

  lemma TickIsCommit(cfg: Config, row: Row, since: U64, now: U64)
    requires Waiting(row, row.heal.probes, since) && row.heal.ready != [] && SealedMatches(row) && row.heal.sealedTo.Some?
    requires since < now && SatAdd(since, 3) <= now
    ensures var after := Apply(cfg, row, Ticked(now));
            && after.posted == row.posted + Posts(cfg.durable, row.heal.ready) && after.send == row.heal.sealedTo
            && after.ephPosted == row.ephPosted && after.heal.probes == row.heal.probes && !after.heal.onEphemeral
  {
  }

  /** When the chain has moved the stash is gone. The tick then asks for a fresh seal, and the next call posts the questions
      as they stand, or fails when one of them no longer fits. */
  lemma TickReseals(cfg: Config, row: Row, since: U64, now: U64)
    requires Inv(cfg, row) && cfg.durable != [] && row.heal.probes != [] && Waiting(row, row.heal.probes, since)
    requires row.heal.ready == [] && since < now && SatAdd(since, 3) <= now
    ensures Inv(cfg, Apply(cfg, row, Ticked(now))) && Apply(cfg, row, Ticked(now)).posted == row.posted
    ensures var after := Apply(cfg, Apply(cfg, row, Ticked(now)), Reseal);
            if AllPack(cfg, Origin(cfg, row), row.heal.probes, row.ids) then
              && PostedInOrder(row.posted, after.posted, cfg.durable, Origin(cfg, row), row.heal.probes, row.ids)
              && after.send == Some(StepN(Origin(cfg, row), |row.heal.probes|))
              && after.ephPosted == row.ephPosted && !after.heal.onEphemeral
            else after == Apply(cfg, row, Ticked(now))
  {
    OneEventKeeps(cfg, row, Ticked(now));
    var due := row.(ticked := Some(now), heal := row.heal.(needsReseal := true));
    assert Apply(cfg, row, Ticked(now)) == due;
    assert !GoesLive(cfg, due);
    if AllPack(cfg, Origin(cfg, row), row.heal.probes, row.ids) {
      DurableSearchPosts(cfg, due);
    }
  }

  /**
    * A search goes out on the ephemeral path, and for whatever else happens nothing answers or ends it. At the first tick at
    * least three seconds on:
    *
    * If the row still stands where it stood, nothing durable was posted meanwhile, and that tick posts each question once on
    * the durable channels, in order, as it was sealed at the start, each at its own position from there on. The row then
    * stands past them.
    *
    * If it has sent transactions and stands further on, the tick and the next call post the questions as they are then, from
    * where the row stands then, when they fit.
    */
  lemma FallbackHappens(cfg: Config, row: Row, events: seq<Event>, now: U64)
    requires Inv(cfg, row) && cfg.durable != [] && GoesLive(cfg, row) && PostHeal(cfg, row).Some?
    requires row.ticked.value < now && SatAdd(row.ticked.value, 3) <= now
    ensures Inv(cfg, PostHeal(cfg, row).value)
    ensures var out := PostHeal(cfg, row).value;
            AllUnanswered(cfg, out, events, row.ticked.value) ==>
              var before, last := Run(cfg, out, events), LastConfig(cfg, events);
              && Inv(last, before) && At(cfg, row) <= At(last, before)
              && var ticked := Apply(last, before, Ticked(now));
                 && Inv(last, ticked)
                 && if At(last, before) == At(cfg, row) then
                      && before.posted == row.posted
                      && PostedInOrder(row.posted, ticked.posted, cfg.durable, Origin(cfg, row), row.heal.probes, row.ids)
                      && ticked.send == Some(StepN(Origin(cfg, row), |row.heal.probes|))
                    else
                      var here := Origin(last, before);
                      AllPack(last, here, row.heal.probes, before.ids) ==>
                        var after := Apply(last, ticked, Reseal);
                        && PostedInOrder(before.posted, after.posted, cfg.durable, here, row.heal.probes, before.ids)
                        && after.send == Some(StepN(here, |row.heal.probes|))
  {
    PostHealKeeps(cfg, row);
    LiveSearchPosts(cfg, row);
    var out, since := PostHeal(cfg, row).value, row.ticked.value;
    if AllUnanswered(cfg, out, events, since) {
      WaitsOn(cfg, out, events, row.heal.probes, since);
      var before, last := Run(cfg, out, events), LastConfig(cfg, events);
      OneEventKeeps(last, before, Ticked(now));
      if At(last, before) == At(cfg, row) {
        TickCommits(last, before, Origin(cfg, row), row.ids, since, now);
      } else {
        TickReseals(last, before, since, now);
      }
    }
  }
}
