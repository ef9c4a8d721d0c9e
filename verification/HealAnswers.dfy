/** How a row answers the packets of a search, in full: which ids a list names, what an answer posts, and what ends a search. */
module HealAnswers {
  import opened Chain
  import opened Delivery
  import opened Fragment
  import opened HealCompletes
  import opened HealProtocol
  import opened HealRange
  import opened HealRow
  import opened HealSearch
  import opened HealTop
  import opened Numbers
  import opened Packets
  import opened SendPositions
  import opened Tags
  import opened Wrappers

  // ---------------------------------------------------------------- ids in order

  ghost predicate Ascending(ids: seq<Tag>) { forall i, j :: 0 <= i < j < |ids| ==> Val(ids[i]) < Val(ids[j]) }

  lemma {:induction false} ArrivalKeepsOrder(ids: seq<Tag>, id: Tag)
    requires Ascending(ids) && id !in ids
    ensures Ascending(WithId(ids, id))
  {
    if ids != [] {
      var n := |ids| - 1;
      LessIsValLess(ids[n], id);
      if !Less(ids[n], id) {
        if Val(id) == Val(ids[n]) {
          ValInjective(id, ids[n]);
        }
        ArrivalKeepsOrder(ids[..n], id);
        OrderEnds(WithId(ids[..n], id), ids[n]);
      }
    }
  }

  lemma OrderEnds(front: seq<Tag>, last: Tag)
    requires Ascending(front) && forall x :: x in front ==> Val(x) < Val(last)
    ensures Ascending(front + [last])
  {
  }

  lemma EventKeepsOrder(cfg: Config, row: Row, e: Event)
    requires Inv(cfg, row) && Ascending(row.ids)
    ensures Ascending(Apply(cfg, row, e).ids)
  {
    if e.Arrived? && e.id !in row.ids {
      ArrivalKeepsOrder(row.ids, e.id);
    } else {
      IdsStay(cfg, row, e);
    }
  }

  /** A row keeps its ids in ascending order in every run. */
  lemma {:induction false} RunKeepsOrder(cfg: Config, row: Row, events: seq<Event>)
    requires Inv(cfg, row) && Ascending(row.ids)
    ensures Ascending(Run(cfg, row, events).ids)
    decreases |events|
  {
    if events != [] {
      EventKeepsOrder(cfg, row, events[0]);
      OneEventKeeps(cfg, row, events[0]);
      ChannelsDoNotMatter(cfg, Apply(cfg, row, events[0]), events[0]);
      RunKeepsOrder(Reconfigured(cfg, events[0]), Apply(cfg, row, events[0]), events[1..]);
    }
  }

  lemma {:induction false} FilteredAscends(ids: seq<Tag>, lo: Tag, hi: Tag)
    requires Ascending(ids)
    ensures Ascending(Filtered(ids, lo, hi))
  {
    if ids != [] {
      var front, last := ids[..|ids| - 1], ids[|ids| - 1];
      FilteredAscends(front, lo, hi);
      OrderEnds(Filtered(front, lo, hi), last);
    }
  }

  /** So the list of a range that cannot be split names the lowest ids held there, all of them or 32. */
  lemma ListIsTheLowest(ids: seq<Tag>, lo: Tag, hi: Tag)
    requires Ascending(ids)
    ensures var list := Capped(Filtered(ids, lo, hi));
            && Ascending(list)
            && (forall x :: x in list ==> x in ids && InRange(x, lo, hi))
            && forall x :: x in ids && InRange(x, lo, hi) && x !in list ==> |list| == 32 && forall y :: y in list ==> Val(y) < Val(x)
  {
    FilteredAscends(ids, lo, hi);
    var all, list := Filtered(ids, lo, hi), Capped(Filtered(ids, lo, hi));
    assert forall i :: 0 <= i < |list| ==> all[i] in list;
    forall x | x in all && x !in list
      ensures |list| == 32 && forall y :: y in list ==> Val(y) < Val(x)
    {
      var k :| 0 <= k < |all| && all[k] == x;
    }
  }

  // ---------------------------------------------------------------- lists

  /** The whole answer to a list of ids. One of more than 32 is not looked at. One that names nothing new ends the search.
      Any other is answered with one Want of exactly what is missing, and with nothing else, or fails when that does not fit. */
  lemma ListIsAnswered(cfg: Config, row: Row, q: U64, lo: Tag, hi: Tag, named: seq<Tag>)
    requires Able(cfg, row)
    ensures var next, missing := OnHealPacket(cfg, row, HealHave([], q, lo, hi, named)), Held(named, row.ids, false);
            && (forall id :: id in missing <==> id in named && id !in row.ids)
            && (|named| > 32 ==> next == Some(Touched(row)))
            && (|named| <= 32 && missing == [] ==> next == Some(Touched(row).(heal := NO_SEARCH)))
            && (|named| <= 32 && missing != [] ==>
                  var want := HealWant([], Origin(cfg, row).packetSeq, lo, hi, missing);
                  && (next.Some? <==> Packs(cfg, want))
                  && (next.Some? ==> next.value.heal.probes == [Want(lo, hi, missing)]
                                     && forall p :: NewlyPosted(row, next.value, p) <==> p == want))
  {
    var missing := Held(named, row.ids, false);
    if |named| > 32 {
      LongListIsIgnored(cfg, row, q, lo, hi, named);
    } else {
      ListReaction(cfg, row, q, lo, hi, named, missing);
      if missing != [] {
        AnswerPosts(cfg, row, HealHave([], q, lo, hi, named), Want(lo, hi, missing));
        AskedIsKept(cfg, Touched(row), [Want(lo, hi, missing)]);
      }
    }
  }

  lemma LongListIsIgnored(cfg: Config, row: Row, q: U64, lo: Tag, hi: Tag, named: seq<Tag>)
    requires row.ticked.Some? && |named| > 32
    ensures OnHealPacket(cfg, row, HealHave([], q, lo, hi, named)) == Some(Touched(row))
    ensures OnHealPacket(cfg, row, HealWant([], q, lo, hi, named)) == Some(Touched(row))
  {
    ReactsAsTold(cfg, row, HealHave([], q, lo, hi, named), Ignore);
  }

  lemma AskedIsKept(cfg: Config, row: Row, probes: seq<Probe>)
    ensures React(cfg, row, Ask(probes)).Some? ==> React(cfg, row, Ask(probes)).value.heal.probes == probes
  {
  }

  // ---------------------------------------------------------------- wants

  ghost function Cut(cfg: Config, ids: seq<Tag>, tx: Tag, q: U64): Option<seq<PacketPlain>> {
    match Fragments(Measure(Frame(cfg.packedLen, [], tx, RangeXorOf(ids, ZERO, INF))), cfg.packedTx(tx), q, 0)
    case Err(_) => None
    case Ok(packets) => Some(packets)
  }

  /** The posts from this place on carry these packets. */
  ghost predicate StretchAt(posts: seq<Post>, at: nat, channels: seq<nat>, packets: seq<PacketPlain>) {
    at + |packets| <= |posts| && CarryInOrder(posts[at..at + |packets|], channels, packets)
  }

  /** Some stretch of these posts carries a whole transaction in order, cut at some number. */
  ghost predicate CarriesWhole(cfg: Config, ids: seq<Tag>, posts: seq<Post>, tx: Tag) {
    exists at: nat, q: U64 :: Cut(cfg, ids, tx, q).Some? && StretchAt(posts, at, cfg.durable, Cut(cfg, ids, tx, q).value)
  }

  /** A stretch stays one with other posts before it or after it. */
  lemma StretchStays(posts: seq<Post>, more: seq<Post>, at: nat, channels: seq<nat>, packets: seq<PacketPlain>)
    requires StretchAt(posts, at, channels, packets)
    ensures StretchAt(more + posts, |more| + at, channels, packets) && StretchAt(posts + more, at, channels, packets)
  {
    var n := |packets|;
    assert (more + posts)[|more| + at..|more| + at + n] == posts[at..at + n];
    assert (posts + more)[at..at + n] == posts[at..at + n];
  }

  lemma WholeStays(cfg: Config, ids: seq<Tag>, posts: seq<Post>, more: seq<Post>, tx: Tag)
    requires CarriesWhole(cfg, ids, posts, tx)
    ensures CarriesWhole(cfg, ids, more + posts, tx) && CarriesWhole(cfg, ids, posts + more, tx)
  {
    var at: nat, q: U64 :| Cut(cfg, ids, tx, q).Some? && StretchAt(posts, at, cfg.durable, Cut(cfg, ids, tx, q).value);
    StretchStays(posts, more, at, cfg.durable, Cut(cfg, ids, tx, q).value);
  }

  /** Every one of these posts is a fragment of one of these transactions. */
  ghost predicate OnlyOf(posts: seq<Post>, txs: seq<Tag>) {
    forall k :: 0 <= k < |posts| ==> posts[k].body.Sealed? && exists tx :: tx in txs && TxOf(posts[k].body.plain) == Some(tx)
  }

  lemma OneIsWhole(cfg: Config, row: Row, tx: Tag)
    requires cfg.durable != [] && WriteTx(cfg, row, tx).Some?
    ensures var next := WriteTx(cfg, row, tx).value;
            && row.posted <= next.posted && next.ids == row.ids && next.heal.probes == row.heal.probes
            && next.ephPosted == row.ephPosted && next.ticked == row.ticked
            && CarriesWhole(cfg, row.ids, next.posted[|row.posted|..], tx)
            && OnlyOf(next.posted[|row.posted|..], [tx])
  {
    WriteTxPosts(cfg, row, tx);
    WriteKeepsRest(cfg, row, tx);
    SplitIsWhole(cfg, row.ids, WriteTx(cfg, row, tx).value.posted[|row.posted|..], tx, Origin(cfg, row).packetSeq);
  }

  lemma WriteKeepsRest(cfg: Config, row: Row, tx: Tag)
    requires WriteTx(cfg, row, tx).Some?
    ensures var next := WriteTx(cfg, row, tx).value;
            next.ids == row.ids && next.heal.probes == row.heal.probes && next.ephPosted == row.ephPosted && next.ticked == row.ticked
  {
  }

  lemma SplitIsWhole(cfg: Config, ids: seq<Tag>, news: seq<Post>, tx: Tag, q: U64)
    requires var c := Measure(Frame(cfg.packedLen, [], tx, RangeXorOf(ids, ZERO, INF)));
             Fragments(c, cfg.packedTx(tx), q, 0).Ok? && CarryInOrder(news, cfg.durable, Fragments(c, cfg.packedTx(tx), q, 0).value)
    ensures CarriesWhole(cfg, ids, news, tx) && OnlyOf(news, [tx])
  {
    var c := Measure(Frame(cfg.packedLen, [], tx, RangeXorOf(ids, ZERO, INF)));
    var packets := Fragments(c, cfg.packedTx(tx), q, 0).value;
    FragmentsAreInOrder(c, cfg.packedTx(tx), q, 0);
    assert news[0..0 + |packets|] == news;
    assert Cut(cfg, ids, tx, q) == Some(packets) && StretchAt(news, 0, cfg.durable, packets);
    assert tx in [tx];
  }

  lemma {:induction false} AllAreWhole(cfg: Config, row: Row, txs: seq<Tag>)
    requires cfg.durable != [] && WriteAll(cfg, row, txs).Some?
    ensures var next := WriteAll(cfg, row, txs).value;
            && row.posted <= next.posted && next.heal.probes == row.heal.probes && next.ephPosted == row.ephPosted
            && (forall tx :: tx in txs ==> CarriesWhole(cfg, row.ids, next.posted[|row.posted|..], tx))
            && OnlyOf(next.posted[|row.posted|..], txs)
    decreases |txs|
  {
    if txs != [] {
      var mid, next := WriteTx(cfg, row, txs[0]).value, WriteAll(cfg, row, txs).value;
      OneIsWhole(cfg, row, txs[0]);
      AllAreWhole(cfg, mid, txs[1..]);
      SplitSuffix(row.posted, mid.posted, next.posted);
      OneMoreWhole(cfg, row.ids, mid.posted[|row.posted|..], next.posted[|mid.posted|..], txs);
    }
  }

  lemma SplitSuffix(a: seq<Post>, b: seq<Post>, c: seq<Post>)
    requires a <= b <= c
    ensures a <= c && c[|a|..] == b[|a|..] + c[|b|..]
  {
  }

  lemma OneMoreWhole(cfg: Config, ids: seq<Tag>, first: seq<Post>, more: seq<Post>, txs: seq<Tag>)
    requires txs != [] && CarriesWhole(cfg, ids, first, txs[0]) && OnlyOf(first, [txs[0]])
    requires (forall tx :: tx in txs[1..] ==> CarriesWhole(cfg, ids, more, tx)) && OnlyOf(more, txs[1..])
    ensures (forall tx :: tx in txs ==> CarriesWhole(cfg, ids, first + more, tx)) && OnlyOf(first + more, txs)
  {
    forall tx | tx in txs
      ensures CarriesWhole(cfg, ids, first + more, tx)
    {
      if tx == txs[0] {
        WholeStays(cfg, ids, first, more, tx);
      } else {
        assert tx in txs[1..];
        WholeStays(cfg, ids, more, first, tx);
      }
    }
    OnlyTheseOf(first, more, txs);
  }

  lemma OnlyTheseOf(first: seq<Post>, more: seq<Post>, txs: seq<Tag>)
    requires txs != [] && OnlyOf(first, [txs[0]]) && OnlyOf(more, txs[1..])
    ensures OnlyOf(first + more, txs)
  {
    assert txs == [txs[0]] + txs[1..];
  }

  /** A Want of at most 32 ids that goes through: the search of this row ends, every named transaction that is held is posted
      whole, and nothing else is posted. A longer one is not looked at. */
  lemma WantIsServedInFull(cfg: Config, row: Row, q: U64, lo: Tag, hi: Tag, named: seq<Tag>)
    requires Able(cfg, row) && OnHealPacket(cfg, row, HealWant([], q, lo, hi, named)).Some?
    ensures var next := OnHealPacket(cfg, row, HealWant([], q, lo, hi, named)).value;
            && (|named| > 32 ==> next == Touched(row))
            && (|named| <= 32 ==>
                  && next.heal.probes == [] && next.ephPosted == row.ephPosted && row.posted <= next.posted
                  && (forall tx :: tx in named && tx in row.ids ==> CarriesWhole(cfg, row.ids, next.posted[|row.posted|..], tx))
                  && OnlyOf(next.posted[|row.posted|..], Held(named, row.ids, true)))
  {
    if |named| <= 32 {
      WantIs(cfg, row, q, lo, hi, named);
      AllAreWhole(cfg, Cleared(row), Held(named, row.ids, true));
    } else {
      LongListIsIgnored(cfg, row, q, lo, hi, named);
    }
  }

  lemma WantIs(cfg: Config, row: Row, q: U64, lo: Tag, hi: Tag, named: seq<Tag>)
    requires Able(cfg, row) && |named| <= 32
    ensures OnHealPacket(cfg, row, HealWant([], q, lo, hi, named)) == WriteAll(cfg, Cleared(row), Held(named, row.ids, true))
    ensures Cleared(row).posted == row.posted && Cleared(row).ephPosted == row.ephPosted && Cleared(row).ids == row.ids
    ensures Cleared(row).heal.probes == []
  {
  }

  // ---------------------------------------------------------------- what puts off and what ends a search

  lemma {:induction false} WritingStaysDurable(cfg: Config, row: Row, txs: seq<Tag>)
    requires !row.heal.onEphemeral
    ensures WriteAll(cfg, row, txs).Some? ==> !WriteAll(cfg, row, txs).value.heal.onEphemeral
    decreases |txs|
  {
    if txs != [] && WriteTx(cfg, row, txs[0]).Some? {
      WritingStaysDurable(cfg, WriteTx(cfg, row, txs[0]).value, txs[1..]);
    }
  }

  /** A row that is still searching on the ephemeral path after a packet of the search waits anew from then on. */
  lemma PacketPutsOffFallback(cfg: Config, row: Row, p: PacketPlain)
    requires OnHealPacket(cfg, row, p).Some?
    ensures var next := OnHealPacket(cfg, row, p).value; next.heal.onEphemeral ==> next.heal.sentAt == row.ticked
  {
    match p
    case HealHalfXor(_, _, lo, hi, xor) => ReactionPutsOff(cfg, Touched(row), HalfReaction(row.ids, lo, hi, xor));
    case HealHave(_, _, lo, hi, named) => ReactionPutsOff(cfg, Touched(row), HaveReaction(row.ids, lo, hi, named));
    case HealWant(_, _, _, _, named) => WritingStaysDurable(cfg, Cleared(row), Held(named, row.ids, true));
    case _ =>
  }

  lemma ReactionPutsOff(cfg: Config, row: Row, reaction: Reaction)
    requires row.heal.onEphemeral ==> row.heal.sentAt == row.ticked
    ensures React(cfg, row, reaction).Some? ==>
              var next := React(cfg, row, reaction).value; next.heal.onEphemeral ==> next.heal.sentAt == row.ticked
  {
  }

  /** A fingerprint of everything that agrees ends the search: neither a tick nor a reseal posts anything after it. */
  lemma AgreementEndsSearch(cfg: Config, row: Row, now: U64)
    requires Inv(cfg, row)
    ensures var done := Apply(cfg, row, PeerXor(RangeXorOf(row.ids, ZERO, INF)));
            && done == row.(heal := done.heal) && done.heal.probes == [] && !done.heal.onEphemeral
            && Inv(cfg, done)
            && var ticked := Apply(cfg, done, Ticked(now));
               && ticked.posted == row.posted && ticked.ephPosted == row.ephPosted
               && Inv(cfg, ticked) && Apply(cfg, ticked, Reseal) == ticked
  {
    OneEventKeeps(cfg, row, PeerXor(RangeXorOf(row.ids, ZERO, INF)));
    OneEventKeeps(cfg, Apply(cfg, row, PeerXor(RangeXorOf(row.ids, ZERO, INF))), Ticked(now));
  }
}
