/** Two replicas of one conversation healing over a network that may delay, drop, repeat and reorder
    whatever either of them has posted. Neither mints anything new. */
module HealProtocol {
  import opened Tags
  import opened Packets
  import opened Wrappers
  import opened Chain
  import opened Fragment
  import opened HealRange
  import opened HealSearch
  import opened HealRoot
  import opened HealRow
  import opened Numbers
  import opened SendPositions

  // ---------------------------------------------------------------- what an honest row posts

  /** A range of the search. When an id is hidden, a bounded one ends below the topmost range. */
  ghost predicate OkRange(x: Option<Tag>, r: Range) {
    Honest(r) && (x.Some? && !IsInf(r.hi) ==> Val(r.hi) <= Val(TOP))
  }

  ghost predicate Unnamed(x: Option<Tag>, named: seq<Tag>) { x.Some? ==> x.value !in named }

  /** A search packet about such a range, or a fragment of a transaction that is here. Nothing names the
      hidden id, if there is one. */
  ghost predicate OkPlain(ids: seq<Tag>, x: Option<Tag>, p: PacketPlain) {
    match p
    case HealHalfXor(_, _, lo, hi, _) => OkRange(x, Range(lo, hi))
    case HealWant(_, _, _, _, named) => Unnamed(x, named)
    case HealHave(_, _, _, _, named) => Unnamed(x, named)
    case TxFragMore(_, _, txId, _, _) => txId in ids && x != Some(txId)
    case TxFragLast(_, _, txId, _, _, _) => txId in ids && x != Some(txId)
    case _ => true
  }

  ghost predicate OkBody(ids: seq<Tag>, x: Option<Tag>, body: Body) { body.Sealed? ==> OkPlain(ids, x, body.plain) }

  ghost predicate OkProbe(x: Option<Tag>, probe: Probe) {
    match probe
    case Half(lo, hi) => OkRange(x, Range(lo, hi))
    case Want(_, _, named) => Unnamed(x, named)
    case Have(_, _, named) => Unnamed(x, named)
  }

  ghost predicate OkPosts(ids: seq<Tag>, x: Option<Tag>, posts: seq<Post>) {
    forall i :: 0 <= i < |posts| ==> OkBody(ids, x, posts[i].body)
  }

  ghost predicate OkBodies(ids: seq<Tag>, x: Option<Tag>, bodies: seq<Body>) {
    forall i :: 0 <= i < |bodies| ==> OkBody(ids, x, bodies[i])
  }

  ghost predicate HonestRow(row: Row, x: Option<Tag>) {
    && OkPosts(row.ids, x, row.posted) && OkPosts(row.ids, x, row.ephPosted)
    && OkBodies(row.ids, x, row.heal.ready)
    && (forall i :: 0 <= i < |row.heal.probes| ==> OkProbe(x, row.heal.probes[i]))
    && (row.heal.sealedFrom.Some? ==> row.heal.sealedTo.Some?)
  }

  ghost predicate OkReaction(x: Option<Tag>, reaction: Reaction) {
    reaction.Ask? ==> forall i :: 0 <= i < |reaction.probes| ==> OkProbe(x, reaction.probes[i])
  }

  /** What a row reports of the topmost range. */
  function TopReport(ids: seq<Tag>): (r: seq<Tag>)
    ensures |r| <= ID_CAP
  {
    Capped(Filtered(ids, TOP, INF))
  }

  /** A row with these ids never gets its report of the topmost range into a packet. */
  ghost predicate ReportNeverPacks(cfg: Config, ids: seq<Tag>) {
    cfg.durable != [] && forall q: U64 :: !Packs(cfg, HealHave([], q, TOP, INF, TopReport(ids)))
  }

  /** The hidden id lies in the topmost range, beyond what a row with these ids reports of it, or the row
      never gets a report through. */
  ghost predicate Hides(cfg: Config, ids: seq<Tag>, x: Option<Tag>) {
    x.Some? ==> Val(TOP) <= Val(x.value) && (x.value in TopReport(ids) ==> ReportNeverPacks(cfg, ids))
  }

  /** A reaction that fails because the report of the topmost range fits no packet. */
  ghost predicate FailsAtTop(cfg: Config, ids: seq<Tag>, reaction: Reaction) {
    reaction == Ask([Have(TOP, INF, TopReport(ids))]) && ReportNeverPacks(cfg, ids)
  }

  /** A Want never names an id the asker holds. */
  ghost predicate WantsAreMissing(ids: seq<Tag>, reaction: Reaction) {
    reaction.Ask? ==>
      forall i :: 0 <= i < |reaction.probes| && reaction.probes[i].Want? ==>
        forall id :: id in reaction.probes[i].ids ==> id !in ids
  }

  /** Reacting to an honest fingerprint asks only about honest ranges, and wants only what is missing. */
  lemma HalfReactsHonestly(cfg: Config, ids: seq<Tag>, x: Option<Tag>, lo: Tag, hi: Tag, xor: Tag)
    requires Distinct(ids) && Hides(cfg, ids, x) && OkRange(x, Range(lo, hi))
    ensures var reaction := HalfReaction(ids, lo, hi, xor);
            OkReaction(x, reaction) || (x.Some? && FailsAtTop(cfg, ids, reaction))
    ensures WantsAreMissing(ids, HalfReaction(ids, lo, hi, xor))
  {
    var r := Range(lo, hi);
    if Single(r) {
      SingleReacts(cfg, ids, x, r);
    } else if Mid(lo, hi).Some? {
      HalvesAreOk(x, r);
      HalvesReact(x, lo, Mid(lo, hi).value, hi);
    } else {
      StuckIsTop(r);
      TopReacts(cfg, ids, x);
    }
  }

  lemma HalvesReact(x: Option<Tag>, lo: Tag, mid: Tag, hi: Tag)
    requires OkRange(x, Range(lo, mid)) && OkRange(x, Range(mid, hi))
    ensures OkReaction(x, Ask([Half(lo, mid), Half(mid, hi)]))
  {
    assert OkProbe(x, Half(lo, mid)) && OkProbe(x, Half(mid, hi));
  }

  lemma TopReacts(cfg: Config, ids: seq<Tag>, x: Option<Tag>)
    requires Hides(cfg, ids, x)
    ensures var reaction := Ask([Have(TOP, INF, TopReport(ids))]);
            OkReaction(x, reaction) || (x.Some? && FailsAtTop(cfg, ids, reaction))
  {
  }

  /** The one id of a range is not the hidden one, and its holder's fingerprint is the id itself. */
  lemma SingleReacts(cfg: Config, ids: seq<Tag>, x: Option<Tag>, r: Range)
    requires Distinct(ids) && Hides(cfg, ids, x) && OkRange(x, r) && Single(r)
    ensures Unnamed(x, [r.lo]) && (RangeXorOf(ids, r.lo, r.hi) == r.lo || r.lo !in ids)
  {
    SingleIsBounded(r);
    MidInside(r);
    XorOfSingle(ids, r.lo, r.hi);
  }

  lemma HalvesAreOk(x: Option<Tag>, r: Range)
    requires OkRange(x, r) && !Single(r) && Mid(r.lo, r.hi).Some?
    ensures var mid := Mid(r.lo, r.hi).value; OkRange(x, Range(r.lo, mid)) && OkRange(x, Range(mid, r.hi))
  {
    var mid := Mid(r.lo, r.hi).value;
    HalvesAreHonest(r, Range(r.lo, mid));
    HalvesAreHonest(r, Range(mid, r.hi));
    if IsInf(r.hi) {
      UnboundedSplits(r.lo);
      BelowTop(mid);
    } else {
      MidInside(r);
    }
  }

  /** Nothing with a zero tail lies above the topmost lower bound. */
  lemma BelowTop(t: Tag)
    requires ZeroTail(t)
    ensures Val(t) <= Val(TOP)
  {
    LessIsValLess(TOP, t);
    assert forall k :: 0 <= k < TAG_LEN ==> t[k] <= TOP[k];
  }

  lemma StuckIsTop(r: Range)
    requires Honest(r) && !Single(r) && Mid(r.lo, r.hi).None?
    ensures r == Range(TOP, INF)
  {
    if IsInf(r.hi) {
      OnlyTopIsStuck(r.lo);
    } else {
      MidInside(r);
    }
  }

  lemma SingleIsBounded(r: Range)
    requires Honest(r) && Single(r)
    ensures Bounded(r)
  {
    if IsInf(r.hi) {
      NeverSingle(r.lo);
    }
  }

  /** Outside honest ranges a Want can name a held id, in exactly one place: the range of the last
      two ids, which is taken for a range of one, when both are held. */
  lemma WantNamesHeldIdExactlyWhen(ids: seq<Tag>, lo: Tag, hi: Tag, xor: Tag)
    requires Distinct(ids) && Single(Range(lo, hi)) && RangeXorOf(ids, lo, hi) != xor
    ensures HalfReaction(ids, lo, hi, xor) == Ask([Want(lo, hi, [lo])]) && lo in ids
            <==> IsInf(hi) && lo in ids && INF in ids
  {
    if IsInf(hi) {
      LastTwo(ids, lo);
    } else {
      ValOfConstants();
      TagVal(hi);
      if Val(hi) == Val(INF) {
        ValInjective(hi, INF);
      }
      XorOfSingle(ids, lo, hi);
    }
  }

  /** The fingerprint of the last two ids. */
  lemma {:induction false} LastTwo(ids: seq<Tag>, lo: Tag)
    requires Distinct(ids) && Single(Range(lo, INF))
    ensures var held := RangeXorOf(ids, lo, INF);
            held == XorTag(if lo in ids then lo else ZERO, if INF in ids then INF else ZERO)
    ensures RangeXorOf(ids, lo, INF) == lo && lo in ids <==> lo in ids && INF !in ids
  {
    LastTwoXor(ids, lo);
    XorLaws(lo, ZERO, ZERO);
    assert INF[0] == 0xff && ZERO[0] == 0;
    if XorTag(lo, INF) == lo {
      XorCancel(lo, INF, ZERO);
    }
  }

  lemma XorSwap(x: Tag, y: Tag)
    ensures XorTag(XorTag(ZERO, y), x) == XorTag(x, y)
    ensures XorTag(XorTag(x, ZERO), y) == XorTag(x, y)
  {
    XorLaws(ZERO, y, x);
    XorLaws(y, ZERO, ZERO);
    XorLaws(x, y, ZERO);
  }

  function OrZero(id: Tag, ids: seq<Tag>): Tag { if id in ids then id else ZERO }

  lemma {:induction false} LastTwoXor(ids: seq<Tag>, lo: Tag)
    requires Distinct(ids) && Single(Range(lo, INF))
    ensures RangeXorOf(ids, lo, INF) == XorTag(OrZero(lo, ids), OrZero(INF, ids))
  {
    if ids == [] {
      XorLaws(ZERO, ZERO, ZERO);
    } else {
      var n := |ids| - 1;
      LastTwoXor(ids[..n], lo);
      assert ids == ids[..n] + [ids[n]];
      LastTwoStep(ids[..n], ids[n], lo);
    }
  }

  lemma LastTwoStep(front: seq<Tag>, id: Tag, lo: Tag)
    requires id !in front && Single(Range(lo, INF))
    ensures var xor := XorTag(OrZero(lo, front), OrZero(INF, front));
            (if InRange(id, lo, INF) then XorTag(xor, id) else xor)
            == XorTag(OrZero(lo, front + [id]), OrZero(INF, front + [id]))
  {
    LastOrOther(id, lo);
    if id == lo {
      XorSwap(lo, OrZero(INF, front));
    } else if id == INF {
      XorSwap(OrZero(lo, front), INF);
    }
  }

  lemma LastOrOther(id: Tag, lo: Tag)
    requires Single(Range(lo, INF))
    ensures lo != INF && (InRange(id, lo, INF) <==> id == lo || id == INF)
  {
    InRangeIsWithin(id, lo, INF);
    TopTwo(id, lo);
    SameVal(id, lo);
    SameVal(id, INF);
  }

  lemma SingleVals(lo: Tag)
    requires Single(Range(lo, INF))
    ensures Val(lo) + 1 == Val(INF)
  {
  }

  lemma InfIsGreatest(id: Tag)
    ensures Val(id) <= Val(INF)
  {
    TagVal(id);
    ValOfConstants();
  }

  lemma TopTwo(id: Tag, lo: Tag)
    requires Single(Range(lo, INF))
    ensures Val(lo) < Val(INF)
    ensures Val(lo) <= Val(id) <==> Val(id) == Val(lo) || Val(id) == Val(INF)
  {
    SingleVals(lo);
    InfIsGreatest(id);
  }

  lemma SameVal(x: Tag, y: Tag)
    ensures Val(x) == Val(y) <==> x == y
  {
    if Val(x) == Val(y) {
      ValInjective(x, y);
    }
  }

  // ---------------------------------------------------------------- every operation keeps a row honest

  lemma {:induction false} RunsAreOk(ids: seq<Tag>, x: Option<Tag>, cursor: SendChain, probes: seq<Probe>)
    requires forall i :: 0 <= i < |probes| ==> OkProbe(x, probes[i])
    ensures OkBodies(ids, x, SealRun(cursor, probes, ids)) && OkBodies(ids, x, EphRun(cursor, probes, ids))
  {
    if probes != [] {
      RunsAreOk(ids, x, cursor, probes[..|probes| - 1]);
    }
  }

  lemma {:induction false} SealedPacketsAreOk(ids: seq<Tag>, x: Option<Tag>, cursor: SendChain, packets: seq<PacketPlain>)
    requires forall i :: 0 <= i < |packets| ==> OkPlain(ids, x, packets[i])
    ensures OkBodies(ids, x, SealPackets(cursor, packets))
  {
    if packets != [] {
      SealedPacketsAreOk(ids, x, cursor, packets[..|packets| - 1]);
    }
  }

  lemma PostsAreOk(ids: seq<Tag>, x: Option<Tag>, posts: seq<Post>, channels: seq<nat>, bodies: seq<Body>)
    requires OkPosts(ids, x, posts) && OkBodies(ids, x, bodies)
    ensures OkPosts(ids, x, posts + Posts(channels, bodies))
  {
  }

  lemma PostHealIsHonest(cfg: Config, x: Option<Tag>, row: Row)
    requires HonestRow(row, x)
    ensures var next := PostHeal(cfg, row); next.Some? ==> HonestRow(next.value, x) && next.value.ids == row.ids
  {
    var origin := Origin(cfg, row);
    RunsAreOk(row.ids, x, origin, row.heal.probes);
    PostsAreOk(row.ids, x, row.posted, cfg.durable, SealRun(origin, row.heal.probes, row.ids));
    PostsAreOk(row.ids, x, row.ephPosted, cfg.ephemeral, EphRun(origin, row.heal.probes, row.ids));
  }

  lemma FlushIsHonest(cfg: Config, x: Option<Tag>, row: Row)
    requires HonestRow(row, x)
    ensures HonestRow(FlushHeal(cfg, row), x) && FlushHeal(cfg, row).ids == row.ids
  {
    PostsAreOk(row.ids, x, row.posted, cfg.durable, row.heal.ready);
  }

  /** Only transactions that are here are ever posted. */
  lemma WriteTxIsHonest(cfg: Config, x: Option<Tag>, row: Row, tx: Tag)
    requires HonestRow(row, x) && x != Some(tx)
    ensures var next := WriteTx(cfg, row, tx); next.Some? ==> HonestRow(next.value, x) && next.value.ids == row.ids
  {
    if WriteTx(cfg, row, tx).Some? {
      var c, start := CarrierFor(cfg, row, tx), Origin(cfg, row).packetSeq;
      var packets := Fragments(c, cfg.packedTx(tx), start, 0).value;
      FragmentsAreInOrder(c, cfg.packedTx(tx), start, 0);
      FragmentsBelongTo(cfg, x, row, tx);
      AfterWriteIsHonest(cfg, x, row, packets);
    }
  }

  lemma FragmentsBelongTo(cfg: Config, x: Option<Tag>, row: Row, tx: Tag)
    requires tx in row.ids && x != Some(tx) && WriteTx(cfg, row, tx).Some?
    ensures var packets := Fragments(CarrierFor(cfg, row, tx), cfg.packedTx(tx), Origin(cfg, row).packetSeq, 0).value;
            forall i :: 0 <= i < |packets| ==> OkPlain(row.ids, x, packets[i])
  {
    var c, start := CarrierFor(cfg, row, tx), Origin(cfg, row).packetSeq;
    FragmentsAreInOrder(c, cfg.packedTx(tx), start, 0);
  }

  lemma AfterWriteIsHonest(cfg: Config, x: Option<Tag>, row: Row, packets: seq<PacketPlain>)
    requires HonestRow(row, x) && forall i :: 0 <= i < |packets| ==> OkPlain(row.ids, x, packets[i])
    ensures HonestRow(AfterWrite(cfg, row, packets), x) && AfterWrite(cfg, row, packets).ids == row.ids
  {
    SealedPacketsAreOk(row.ids, x, Origin(cfg, row), packets);
    PostsAreOk(row.ids, x, row.posted, cfg.durable, SealPackets(Origin(cfg, row), packets));
  }

  lemma {:induction false} WriteAllIsHonest(cfg: Config, x: Option<Tag>, row: Row, txs: seq<Tag>)
    requires HonestRow(row, x) && Unnamed(x, txs)
    ensures var next := WriteAll(cfg, row, txs); next.Some? ==> HonestRow(next.value, x) && next.value.ids == row.ids
    decreases |txs|
  {
    if txs != [] {
      WriteTxIsHonest(cfg, x, row, txs[0]);
      if WriteTx(cfg, row, txs[0]).Some? {
        WriteAllIsHonest(cfg, x, WriteTx(cfg, row, txs[0]).value, txs[1..]);
      }
    }
  }

  lemma ReactIsHonest(cfg: Config, x: Option<Tag>, row: Row, reaction: Reaction)
    requires HonestRow(row, x) && OkReaction(x, reaction)
    ensures var next := React(cfg, row, reaction); next.Some? ==> HonestRow(next.value, x) && next.value.ids == row.ids
  {
    if reaction.Ask? {
      PostHealIsHonest(cfg, x, row.(heal := row.heal.(probes := reaction.probes, fellBack := false)));
    }
  }

  lemma WantIsHonest(cfg: Config, x: Option<Tag>, row: Row, named: seq<Tag>)
    requires HonestRow(row, x) && Unnamed(x, named)
    ensures var next := OnWant(cfg, row, named); next.Some? ==> HonestRow(next.value, x) && next.value.ids == row.ids
  {
    WriteAllIsHonest(cfg, x, row.(heal := row.heal.(probes := [], ready := [], onEphemeral := false)), Held(named, row.ids, true));
  }

  /** What an honest row may hear of the search. */
  ghost predicate OkSearch(x: Option<Tag>, p: PacketPlain) {
    match p
    case HealHalfXor(_, _, lo, hi, _) => OkRange(x, Range(lo, hi))
    case HealWant(_, _, _, _, named) => Unnamed(x, named)
    case HealHave(_, _, _, _, named) => Unnamed(x, named)
    case _ => true
  }

  /** A report that fits no packet fails the whole call. */
  lemma TopAskFails(cfg: Config, row: Row)
    requires ReportNeverPacks(cfg, row.ids)
    ensures React(cfg, row, Ask([Have(TOP, INF, TopReport(row.ids))])).None?
  {
    var probes := [Have(TOP, INF, TopReport(row.ids))];
    assert PlainOf(probes[0], StepN(Origin(cfg, row), 0).packetSeq, row.ids)
        == HealHave([], StepN(Origin(cfg, row), 0).packetSeq, TOP, INF, TopReport(row.ids));
    assert !AllPack(cfg, Origin(cfg, row), probes, row.ids);
  }

  lemma PacketIsHonest(cfg: Config, x: Option<Tag>, row: Row, p: PacketPlain)
    requires HonestRow(row, x) && Distinct(row.ids) && Hides(cfg, row.ids, x)
    requires OkSearch(x, p)
    ensures var next := OnHealPacket(cfg, row, p); next.Some? ==> HonestRow(next.value, x) && next.value.ids == row.ids
  {
    if row.ticked.Some? {
      var now := Touched(row);
      match p
      case HealHalfXor(_, _, lo, hi, xor) =>
        HalfReactsHonestly(cfg, row.ids, x, lo, hi, xor);
        if FailsAtTop(cfg, row.ids, HalfReaction(row.ids, lo, hi, xor)) {
          TopAskFails(cfg, now);
        } else {
          ReactIsHonest(cfg, x, now, HalfReaction(row.ids, lo, hi, xor));
        }
      case HealHave(_, _, lo, hi, named) => ReactIsHonest(cfg, x, now, HaveReaction(row.ids, lo, hi, named));
      case HealWant(_, _, _, _, named) => WantIsHonest(cfg, x, now, named);
      case _ =>
    }
  }

  lemma XorIsHonest(cfg: Config, x: Option<Tag>, row: Row, remote: Tag)
    requires HonestRow(row, x)
    ensures var next := NoteSetXor(cfg, row, remote); next.Some? ==> HonestRow(next.value, x) && next.value.ids == row.ids
  {
    PostHealIsHonest(cfg, x, row.(heal := row.heal.(probes := [Half(ZERO, INF)], fellBack := false)));
  }

  lemma ArrivedIsHonest(cfg: Config, x: Option<Tag>, row: Row, id: Tag)
    requires HonestRow(row, x) && Distinct(row.ids)
    ensures HonestRow(Apply(cfg, row, Arrived(id)), x) && Distinct(Apply(cfg, row, Arrived(id)).ids)
  {
    if id !in row.ids {
      WithIdIsDistinct(row.ids, id);
    }
  }

  lemma {:induction false} WithIdIsDistinct(ids: seq<Tag>, id: Tag)
    requires Distinct(ids) && id !in ids
    ensures Distinct(WithId(ids, id))
  {
    if ids != [] && !Less(ids[|ids| - 1], id) {
      var n := |ids| - 1;
      WithIdIsDistinct(ids[..n], id);
      AppendIsDistinct(WithId(ids[..n], id), ids[n]);
    }
  }

  lemma AppendIsDistinct(ids: seq<Tag>, id: Tag)
    requires Distinct(ids) && id !in ids
    ensures Distinct(ids + [id])
  {
  }

  /** Only an arrival changes what a row holds. */
  lemma IdsStay(cfg: Config, row: Row, e: Event)
    requires row.heal.sealedFrom.Some? ==> row.heal.sealedTo.Some?
    requires e.Arrived? ==> e.id in row.ids
    ensures Apply(cfg, row, e).ids == row.ids
  {
    match e
    case Packet(p) => PacketKeepsIds(cfg, row, p);
    case _ =>
  }

  lemma PacketKeepsIds(cfg: Config, row: Row, p: PacketPlain)
    ensures OnHealPacket(cfg, row, p).Some? ==> OnHealPacket(cfg, row, p).value.ids == row.ids
  {
    if p.HealWant? && row.ticked.Some? {
      var named := p.ids;
      var t := Touched(row);
      WriteAllKeepsIds(cfg, t.(heal := t.heal.(probes := [], ready := [], onEphemeral := false)), Held(named, t.ids, true));
    }
  }

  lemma {:induction false} WriteAllKeepsIds(cfg: Config, row: Row, txs: seq<Tag>)
    ensures WriteAll(cfg, row, txs).Some? ==> WriteAll(cfg, row, txs).value.ids == row.ids
    decreases |txs|
  {
    if txs != [] && WriteTx(cfg, row, txs[0]).Some? {
      WriteAllKeepsIds(cfg, WriteTx(cfg, row, txs[0]).value, txs[1..]);
    }
  }

  // ---------------------------------------------------------------- two replicas

  datatype World = World(a: Row, b: Row)

  /** `Local` is anything a row does on its own, including a fingerprint it was told. A search packet
      or a whole transaction is delivered to one side. */
  datatype WorldStep =
    | Local(toA: bool, e: Event)
    | Search(toA: bool, p: PacketPlain)
    | Transaction(toA: bool, id: Tag)

  /** Either side has posted this packet, on either path. */
  ghost predicate WasPosted(w: World, p: PacketPlain) {
    || (exists i :: 0 <= i < |w.a.posted| && Carries(w.a.posted[i], p))
    || (exists i :: 0 <= i < |w.a.ephPosted| && Carries(w.a.ephPosted[i], p))
    || (exists i :: 0 <= i < |w.b.posted| && Carries(w.b.posted[i], p))
    || (exists i :: 0 <= i < |w.b.ephPosted| && Carries(w.b.ephPosted[i], p))
  }

  predicate Carries(post: Post, p: PacketPlain) { post.body.Sealed? && post.body.plain == p }

  /** What the network may do: deliver what was posted, as often as it likes, to whom it likes. */
  ghost predicate Enabled(w: World, s: WorldStep) {
    match s
    case Local(_, e) => !e.Arrived? && !e.Packet?
    case Search(_, p) => WasPosted(w, p)
    case Transaction(_, id) => exists p :: WasPosted(w, p) && TxOf(p) == Some(id)
  }

  ghost predicate WorldInv(w: World) {
    HonestRow(w.a, None) && HonestRow(w.b, None) && Distinct(w.a.ids) && Distinct(w.b.ids)
  }

  ghost function Side(w: World, toA: bool): Row { if toA then w.a else w.b }

  ghost function EventOf(s: WorldStep): Event {
    match s
    case Local(_, e) => e
    case Search(_, p) => Packet(p)
    case Transaction(_, id) => Arrived(id)
  }

  ghost function StepOf(ca: Config, cb: Config, w: World, s: WorldStep): World
    requires WorldInv(w)
  {
    if s.toA then w.(a := Apply(ca, w.a, EventOf(s))) else w.(b := Apply(cb, w.b, EventOf(s)))
  }

  ghost function Ids(row: Row): set<Tag> { set id | id in row.ids }

  /** The ids exactly one side holds. */
  ghost function Diff(w: World): set<Tag> { (Ids(w.a) - Ids(w.b)) + (Ids(w.b) - Ids(w.a)) }

  lemma RowStep(cfg: Config, x: Option<Tag>, row: Row, e: Event)
    requires HonestRow(row, x) && Distinct(row.ids) && Hides(cfg, row.ids, x)
    requires e.Packet? ==> OkSearch(x, e.p)
    requires e.Send? ==> x != Some(e.tx)
    ensures var next := Apply(cfg, row, e);
            && HonestRow(next, x) && Distinct(next.ids)
            && (forall id :: id in next.ids <==> id in row.ids || (e.Arrived? && id == e.id))
  {
    match e
    case Ticked(now) => FlushIsHonest(cfg, x, row.(ticked := Some(now)));
    case LiveUntil(at) =>
    case Arrived(id) => ArrivedIsHonest(cfg, x, row, id);
    case Reseal => PostHealIsHonest(cfg, x, row);
    case PeerXor(remote) => XorIsHonest(cfg, x, row, remote);
    case Packet(p) => PacketIsHonest(cfg, x, row, p);
    case Send(tx) => WriteTxIsHonest(cfg, x, row, tx);
    case EphemeralNow(_) =>
  }

  lemma PostedIsOk(w: World, x: Option<Tag>, p: PacketPlain)
    requires HonestRow(w.a, x) && HonestRow(w.b, x) && WasPosted(w, p)
    ensures OkPlain(w.a.ids, x, p) || OkPlain(w.b.ids, x, p)
  {
  }

  /** One step of the network. Replicas only gain ids, never ids that neither had, so their
      difference never grows. A transaction delivered to the side that lacked it leaves the
      difference, and nothing else does. */
  lemma HealNeverDiverges(ca: Config, cb: Config, w: World, s: WorldStep)
    requires WorldInv(w) && Enabled(w, s)
    ensures var next := StepOf(ca, cb, w, s);
            && WorldInv(next)
            && Ids(w.a) <= Ids(next.a) && Ids(w.b) <= Ids(next.b)
            && Ids(next.a) + Ids(next.b) == Ids(w.a) + Ids(w.b)
            && Diff(next) == (if s.Transaction? && s.id !in Side(w, s.toA).ids then Diff(w) - {s.id} else Diff(w))
            && (s.Transaction? && s.id !in Side(w, s.toA).ids ==> s.id in Diff(w))
  {
    if s.Search? {
      PostedIsOk(w, None, s.p);
    }
    if s.Transaction? {
      DeliveredIsHeld(w, s.id);
    }
    RowStep(if s.toA then ca else cb, None, Side(w, s.toA), EventOf(s));
    SetsAfter(w, StepOf(ca, cb, w, s), s);
  }

  /** What one side's set of ids gains is all that changes. */
  lemma SetsAfter(w: World, next: World, s: WorldStep)
    requires if s.toA then next.b == w.b else next.a == w.a
    requires forall id :: id in Side(next, s.toA).ids <==> id in Side(w, s.toA).ids || (s.Transaction? && id == s.id)
    requires s.Transaction? ==> s.id in w.a.ids || s.id in w.b.ids
    ensures Ids(w.a) <= Ids(next.a) && Ids(w.b) <= Ids(next.b) && Ids(next.a) + Ids(next.b) == Ids(w.a) + Ids(w.b)
    ensures Diff(next) == (if s.Transaction? && s.id !in Side(w, s.toA).ids then Diff(w) - {s.id} else Diff(w))
    ensures s.Transaction? && s.id !in Side(w, s.toA).ids ==> s.id in Diff(w)
  {
  }

  /** A transaction that arrives is one that a side holds. */
  lemma DeliveredIsHeld(w: World, id: Tag)
    requires WorldInv(w) && exists p :: WasPosted(w, p) && TxOf(p) == Some(id)
    ensures id in w.a.ids || id in w.b.ids
  {
    var p :| WasPosted(w, p) && TxOf(p) == Some(id);
    PostedIsOk(w, None, p);
  }

  /** A run of the network, whatever it chooses to deliver. */
  ghost predicate Legal(ca: Config, cb: Config, w: World, steps: seq<WorldStep>)
    decreases |steps|
  {
    WorldInv(w) && (steps != [] ==> Enabled(w, steps[0]) && Legal(ca, cb, StepOf(ca, cb, w, steps[0]), steps[1..]))
  }

  ghost function RunWorld(ca: Config, cb: Config, w: World, steps: seq<WorldStep>): World
    requires Legal(ca, cb, w, steps)
    decreases |steps|
  {
    if steps == [] then w else RunWorld(ca, cb, StepOf(ca, cb, w, steps[0]), steps[1..])
  }

  lemma {:induction false} RunNeverDiverges(ca: Config, cb: Config, w: World, steps: seq<WorldStep>)
    requires Legal(ca, cb, w, steps)
    ensures var end := RunWorld(ca, cb, w, steps);
            && Diff(end) <= Diff(w)
            && Ids(w.a) <= Ids(end.a) && Ids(w.b) <= Ids(end.b)
            && Ids(end.a) + Ids(end.b) == Ids(w.a) + Ids(w.b)
    decreases |steps|
  {
    if steps != [] {
      HealNeverDiverges(ca, cb, w, steps[0]);
      RunNeverDiverges(ca, cb, StepOf(ca, cb, w, steps[0]), steps[1..]);
    }
  }

  // ---------------------------------------------------------------- one exchange

  /** What the two sides say to each other once the search is down to one id. The side without the
      id wants it, directly or after the other side has listed it, the holder is asked for exactly
      that id, and its delivery removes exactly that id from the difference. */
  lemma OneIdExchange(a: seq<Tag>, b: seq<Tag>, r: Range)
    requires Distinct(a) && Distinct(b) && Bounded(r) && Single(r) && Differ(a, b, r)
    ensures var reaction := HalfReaction(a, r.lo, r.hi, RangeXorOf(b, r.lo, r.hi));
            if r.lo in a then
              && r.lo !in b
              && reaction == Ask([Have(r.lo, r.hi, [r.lo])])
              && HaveReaction(b, r.lo, r.hi, [r.lo]) == Ask([Want(r.lo, r.hi, [r.lo])])
              && Held([r.lo], a, true) == [r.lo]
            else
              && r.lo in b
              && reaction == Ask([Want(r.lo, r.hi, [r.lo])])
              && Held([r.lo], b, true) == [r.lo]
  {
    SingleNamesTheId(a, b, r);
    HeldOne(r.lo, a, true);
    HeldOne(r.lo, b, true);
    HeldOne(r.lo, b, false);
  }

  lemma HeldOne(id: Tag, ids: seq<Tag>, want: bool)
    ensures Held([id], ids, want) == if (id in ids) == want then [id] else []
  {
    assert [id][..0] == [];
  }
}
