/** The search gets somewhere. From two replicas that differ below the topmost range, one of them idle, some run of the
    network moves one missing transaction to the side that lacks it, and going on so the fingerprints come to agree. */
module HealCompletes {
  import opened Chain
  import opened Fragment
  import opened HealProtocol
  import opened HealRange
  import opened HealRoot
  import opened HealRow
  import opened HealSearch
  import opened Numbers
  import opened Packets
  import opened SendPositions
  import opened Tags
  import opened Wrappers

  /** A row that has a clock and a durable channel can post. */
  ghost predicate Able(cfg: Config, row: Row) { row.ticked.Some? && cfg.durable != [] }

  /** Every transaction can be cut into packets that fit, wherever the chain stands. */
  ghost predicate Splittable(cfg: Config) {
    forall row: Row, tx: Tag {:trigger WriteTx(cfg, row, tx)} :: tx in row.ids ==> WriteTx(cfg, row, tx).Some?
  }

  /** A fingerprint and a list of one id fit a packet. */
  ghost predicate Packable(cfg: Config) {
    && (forall q: U64, lo: Tag, hi: Tag, xor: Tag :: Packs(cfg, HealHalfXor([], q, lo, hi, xor)))
    && (forall q: U64, lo: Tag, hi: Tag, id: Tag :: Packs(cfg, HealWant([], q, lo, hi, [id])))
    && (forall q: U64, lo: Tag, hi: Tag, id: Tag :: Packs(cfg, HealHave([], q, lo, hi, [id])))
  }

  ghost predicate Capable(cfg: Config, row: Row) { Able(cfg, row) && Splittable(cfg) && Packable(cfg) }

  ghost predicate Ready(ca: Config, cb: Config, w: World) { WorldInv(w) && Capable(ca, w.a) && Capable(cb, w.b) }

  predicate Idle(row: Row) { row.heal.probes == [] }

  /** This packet is among those the row has posted since. */
  ghost predicate NewlyPosted(was: Row, row: Row, p: PacketPlain) {
    || (exists i :: |was.posted| <= i < |row.posted| && Carries(row.posted[i], p))
    || (exists i :: |was.ephPosted| <= i < |row.ephPosted| && Carries(row.ephPosted[i], p))
  }

  // ---------------------------------------------------------------- runs one after another

  /** Nobody sends a transaction unless the search asks for it. */
  predicate Unprompted(s: WorldStep) { s.Local? ==> !s.e.Send? }

  ghost predicate Runs(ca: Config, cb: Config, w: World, steps: seq<WorldStep>, end: World) {
    && Legal(ca, cb, w, steps) && RunWorld(ca, cb, w, steps) == end
    && forall i :: 0 <= i < |steps| ==> Unprompted(steps[i])
  }

  /** Some run of the network in which nothing but the search sends transactions leads from one world to the other. */
  ghost predicate Reaches(ca: Config, cb: Config, w: World, end: World) { exists steps :: Runs(ca, cb, w, steps, end) }

  lemma ReachesItself(ca: Config, cb: Config, w: World)
    requires WorldInv(w)
    ensures Reaches(ca, cb, w, w)
  {
    assert Runs(ca, cb, w, [], w);
  }

  lemma FirstStep(ca: Config, cb: Config, w: World, steps: seq<WorldStep>, end: World)
    requires steps != []
    ensures Runs(ca, cb, w, steps, end)
            <==> && WorldInv(w) && Enabled(w, steps[0]) && Unprompted(steps[0])
                 && Runs(ca, cb, StepOf(ca, cb, w, steps[0]), steps[1..], end)
  {
    assert steps == [steps[0]] + steps[1..];
  }

  lemma ReachesNext(ca: Config, cb: Config, w: World, s: WorldStep)
    requires WorldInv(w) && Enabled(w, s) && Unprompted(s)
    ensures WorldInv(StepOf(ca, cb, w, s)) && Reaches(ca, cb, w, StepOf(ca, cb, w, s))
  {
    HealNeverDiverges(ca, cb, w, s);
    var next := StepOf(ca, cb, w, s);
    assert Runs(ca, cb, next, [s][1..], next);
    FirstStep(ca, cb, w, [s], next);
  }

  lemma {:induction false} RunsOn(ca: Config, cb: Config, w: World, first: seq<WorldStep>, mid: World, rest: seq<WorldStep>, end: World)
    requires Runs(ca, cb, w, first, mid) && Runs(ca, cb, mid, rest, end)
    ensures Runs(ca, cb, w, first + rest, end)
    decreases |first|
  {
    if first == [] {
      assert first + rest == rest;
    } else {
      FirstStep(ca, cb, w, first, mid);
      RunsOn(ca, cb, StepOf(ca, cb, w, first[0]), first[1..], mid, rest, end);
      assert (first + rest)[1..] == first[1..] + rest;
      FirstStep(ca, cb, w, first + rest, end);
    }
  }

  lemma ReachesOn(ca: Config, cb: Config, w: World, mid: World, end: World)
    requires Reaches(ca, cb, w, mid) && Reaches(ca, cb, mid, end)
    ensures Reaches(ca, cb, w, end)
  {
    var first :| Runs(ca, cb, w, first, mid);
    var rest :| Runs(ca, cb, mid, rest, end);
    RunsOn(ca, cb, w, first, mid, rest, end);
  }

  /** A run after which both sides can go on as before and hold what they held. */
  ghost predicate Leads(ca: Config, cb: Config, w: World, next: World) {
    Reaches(ca, cb, w, next) && Ready(ca, cb, next) && next.a.ids == w.a.ids && next.b.ids == w.b.ids
  }

  /** The side that lacks the id gains it, and nothing else is gained. */
  ghost predicate Moved(w: World, end: World, x: Tag) {
    if x in w.a.ids then x !in w.b.ids && end.a.ids == w.a.ids && end.b.ids == WithId(w.b.ids, x)
    else x in w.b.ids && end.b.ids == w.b.ids && end.a.ids == WithId(w.a.ids, x)
  }

  /** Some run moves exactly this id to the side that lacks it, after which one side is idle. */
  ghost predicate Moves(ca: Config, cb: Config, w: World, end: World, x: Tag) {
    Reaches(ca, cb, w, end) && Ready(ca, cb, end) && Moved(w, end, x) && (Idle(end.a) || Idle(end.b))
  }

  lemma MovesAfter(ca: Config, cb: Config, w: World, next: World, end: World, x: Tag)
    requires Leads(ca, cb, w, next) && Moves(ca, cb, next, end, x)
    ensures Moves(ca, cb, w, end, x)
  {
    ReachesOn(ca, cb, w, next, end);
  }

  // ---------------------------------------------------------------- what is asked is posted

  lemma {:induction false} SealRunAt(cursor: SendChain, probes: seq<Probe>, ids: seq<Tag>, i: nat)
    requires i < |probes|
    ensures SealRun(cursor, probes, ids)[i] == Sealed(Mk(StepN(cursor, i)), PlainOf(probes[i], StepN(cursor, i).packetSeq, ids))
    ensures EphRun(cursor, probes, ids)[i] == Sealed(EphMk(cursor), PlainOf(probes[i], StepN(cursor, i).packetSeq, ids))
  {
    if i < |probes| - 1 {
      SealRunAt(cursor, probes[..|probes| - 1], ids, i);
    }
  }

  lemma PostedAt(posts: seq<Post>, channels: seq<nat>, bodies: seq<Body>, i: nat, p: PacketPlain)
    requires channels != [] && i < |bodies| && bodies[i].Sealed? && bodies[i].plain == p
    ensures exists k :: |posts| <= k < |posts + Posts(channels, bodies)| && Carries((posts + Posts(channels, bodies))[k], p)
  {
    var all := posts + Posts(channels, bodies);
    assert all[|posts| + i] == Posts(channels, bodies)[i];
    assert Carries(all[|posts| + i], p);
  }

  /** Every probe of a post is on the way, under some number. */
  lemma ProbeIsPosted(cfg: Config, row: Row, i: nat) returns (q: U64)
    requires Able(cfg, row) && i < |row.heal.probes| && AllPack(cfg, Origin(cfg, row), row.heal.probes, row.ids)
    ensures q == StepN(Origin(cfg, row), i).packetSeq
    ensures PostHeal(cfg, row).Some?
    ensures var next := PostHeal(cfg, row).value;
            && next.ids == row.ids && Able(cfg, next)
            && NewlyPosted(row, next, PlainOf(row.heal.probes[i], q, row.ids))
  {
    var origin := Origin(cfg, row);
    var probes := row.heal.probes;
    q := StepN(origin, i).packetSeq;
    SealRunAt(origin, probes, row.ids, i);
    var p := PlainOf(probes[i], q, row.ids);
    if UsesEphemeral(cfg, row, row.ticked.value) {
      PostedAt(row.ephPosted, cfg.ephemeral, EphRun(origin, probes, row.ids), i, p);
    } else {
      PostedAt(row.posted, cfg.durable, SealRun(origin, probes, row.ids), i, p);
    }
  }

  lemma ReplaceIsPosted(cfg: Config, row: Row, probes: seq<Probe>, i: nat) returns (q: U64)
    requires Able(cfg, row) && i < |probes| && AllPack(cfg, Origin(cfg, row), probes, row.ids)
    ensures q == StepN(Origin(cfg, row), i).packetSeq
    ensures Replace(cfg, row, probes).Some?
    ensures var next := Replace(cfg, row, probes).value;
            next.ids == row.ids && Able(cfg, next) && NewlyPosted(row, next, PlainOf(probes[i], q, row.ids))
  {
    q := ProbeIsPosted(cfg, row.(heal := row.heal.(probes := probes, fellBack := false)), i);
  }

  /** An answer whose packets fit is on the way. */
  lemma AnswerIsPosted(cfg: Config, row: Row, p: PacketPlain, probes: seq<Probe>, i: nat) returns (q: U64)
    requires Able(cfg, row) && i < |probes| && AllPack(cfg, Origin(cfg, row), probes, row.ids)
    requires OnHealPacket(cfg, row, p) == React(cfg, Touched(row), Ask(probes))
    requires row.heal.sealedFrom.Some? ==> row.heal.sealedTo.Some?
    ensures OnHealPacket(cfg, row, p).Some?
    ensures var next := Apply(cfg, row, Packet(p));
            && next.ids == row.ids && Able(cfg, next) && NewlyPosted(row, next, PlainOf(probes[i], q, row.ids))
  {
    q := ReplaceIsPosted(cfg, Touched(row), probes, i);
  }

  /** The probes of the search below the topmost range. */
  ghost predicate Small(probe: Probe) { probe.Half? || |probe.ids| == 1 }

  lemma SmallPacks(cfg: Config, cursor: SendChain, probes: seq<Probe>, ids: seq<Tag>)
    requires Packable(cfg) && forall i :: 0 <= i < |probes| ==> Small(probes[i])
    ensures AllPack(cfg, cursor, probes, ids)
  {
    forall i | 0 <= i < |probes|
      ensures Packs(cfg, PlainOf(probes[i], StepN(cursor, i).packetSeq, ids))
    {
      OneSmallPacks(cfg, probes[i], StepN(cursor, i).packetSeq, ids);
    }
  }

  lemma OneSmallPacks(cfg: Config, probe: Probe, q: U64, ids: seq<Tag>)
    requires Packable(cfg) && Small(probe)
    ensures Packs(cfg, PlainOf(probe, q, ids))
  {
    match probe
    case Half(lo, hi) =>
    case Want(lo, hi, named) => assert named == [named[0]];
    case Have(lo, hi, named) => assert named == [named[0]];
  }

  // ---------------------------------------------------------------- from a Want to the transaction

  /** The holder posts the first fragment of what it is asked for, and stops asking itself. */
  lemma WantIsServed(cfg: Config, row: Row, q: U64, lo: Tag, hi: Tag, x: Tag) returns (p: PacketPlain)
    requires Able(cfg, row) && Splittable(cfg) && x in row.ids
    requires row.heal.sealedFrom.Some? ==> row.heal.sealedTo.Some?
    ensures var next := Apply(cfg, row, Packet(HealWant([], q, lo, hi, [x])));
            TxOf(p) == Some(x) && NewlyPosted(row, next, p) && Idle(next)
  {
    p := FirstFragment(cfg, Cleared(row), x);
    WantIsWrite(cfg, row, q, lo, hi, x);
  }

  /** A row that has stopped searching to serve a Want. */
  function Cleared(row: Row): Row
    requires row.ticked.Some?
  {
    var t := Touched(row);
    t.(heal := t.heal.(probes := [], ready := [], onEphemeral := false))
  }

  lemma WantIsWrite(cfg: Config, row: Row, q: U64, lo: Tag, hi: Tag, x: Tag)
    requires Able(cfg, row) && x in row.ids && WriteTx(cfg, Cleared(row), x).Some?
    requires row.heal.sealedFrom.Some? ==> row.heal.sealedTo.Some?
    ensures Apply(cfg, row, Packet(HealWant([], q, lo, hi, [x]))) == WriteTx(cfg, Cleared(row), x).value
  {
    HeldOne(x, row.ids, true);
    OneWrite(cfg, Cleared(row), x);
  }

  lemma OneWrite(cfg: Config, row: Row, x: Tag)
    ensures WriteAll(cfg, row, [x]) == WriteTx(cfg, row, x)
  {
    assert [x][1..] == [];
  }

  lemma FirstFragment(cfg: Config, row: Row, x: Tag) returns (p: PacketPlain)
    requires Splittable(cfg) && x in row.ids && cfg.durable != []
    ensures TxOf(p) == Some(x) && WriteTx(cfg, row, x).Some? && NewlyPosted(row, WriteTx(cfg, row, x).value, p)
    ensures WriteTx(cfg, row, x).value.heal.probes == row.heal.probes
  {
    assert WriteTx(cfg, row, x).Some?;
    var origin := Origin(cfg, row);
    var c := CarrierFor(cfg, row, x);
    var packets := Fragments(c, cfg.packedTx(x), origin.packetSeq, 0).value;
    FragmentsAreInOrder(c, cfg.packedTx(x), origin.packetSeq, 0);
    p := packets[0];
    SealPacketsAt(origin, packets, 0);
    PostedAt(DropStash(row).posted, cfg.durable, SealPackets(origin, packets), 0, p);
  }

  lemma {:induction false} SealPacketsAt(cursor: SendChain, packets: seq<PacketPlain>, i: nat)
    requires i < |packets|
    ensures SealPackets(cursor, packets)[i] == Sealed(Mk(StepN(cursor, i)), packets[i])
  {
    if i < |packets| - 1 {
      SealPacketsAt(cursor, packets[..|packets| - 1], i);
    }
  }

  /** Delivering a search packet changes nothing but what is posted. */
  lemma SearchKeeps(ca: Config, cb: Config, w: World, toA: bool, p: PacketPlain)
    requires WorldInv(w) && WasPosted(w, p)
    ensures var next := StepOf(ca, cb, w, Search(toA, p));
            && WorldInv(next)
            && next.a.ids == w.a.ids && next.b.ids == w.b.ids
            && Side(next, !toA) == Side(w, !toA)
  {
    HealNeverDiverges(ca, cb, w, Search(toA, p));
    IdsStay(if toA then ca else cb, Side(w, toA), Packet(p));
  }

  lemma TickedStays(cfg: Config, row: Row, p: PacketPlain)
    requires row.ticked.Some? && (row.heal.sealedFrom.Some? ==> row.heal.sealedTo.Some?)
    ensures Apply(cfg, row, Packet(p)).ticked == row.ticked
  {
    match p
    case HealHalfXor(_, _, lo, hi, xor) => ReactKeepsTicked(cfg, Touched(row), HalfReaction(row.ids, lo, hi, xor));
    case HealHave(_, _, lo, hi, named) => ReactKeepsTicked(cfg, Touched(row), HaveReaction(row.ids, lo, hi, named));
    case HealWant(_, _, _, _, named) => WriteAllKeepsTicked(cfg, Cleared(row), Held(named, row.ids, true));
    case _ =>
  }

  lemma ReactKeepsTicked(cfg: Config, row: Row, reaction: Reaction)
    ensures React(cfg, row, reaction).Some? ==> React(cfg, row, reaction).value.ticked == row.ticked
  {
  }

  lemma {:induction false} WriteAllKeepsTicked(cfg: Config, row: Row, txs: seq<Tag>)
    ensures WriteAll(cfg, row, txs).Some? ==> WriteAll(cfg, row, txs).value.ticked == row.ticked
    decreases |txs|
  {
    if txs != [] && WriteTx(cfg, row, txs[0]).Some? {
      WriteAllKeepsTicked(cfg, WriteTx(cfg, row, txs[0]).value, txs[1..]);
    }
  }

  lemma IsPosted(was: Row, w: World, fromA: bool, p: PacketPlain)
    requires NewlyPosted(was, Side(w, fromA), p)
    ensures WasPosted(w, p)
  {
  }

  /** Delivering a search packet leads on. */
  lemma SearchLeads(ca: Config, cb: Config, w: World, toA: bool, p: PacketPlain) returns (next: World)
    requires Ready(ca, cb, w) && WasPosted(w, p)
    ensures next == StepOf(ca, cb, w, Search(toA, p)) && Leads(ca, cb, w, next)
  {
    next := StepOf(ca, cb, w, Search(toA, p));
    SearchKeeps(ca, cb, w, toA, p);
    TickedStays(if toA then ca else cb, Side(w, toA), p);
    ReachesNext(ca, cb, w, Search(toA, p));
  }

  /** Delivering a transaction to the side that lacks it moves it. */
  lemma DeliveryMoves(ca: Config, cb: Config, w: World, toA: bool, x: Tag, p: PacketPlain) returns (end: World)
    requires Ready(ca, cb, w) && WasPosted(w, p) && TxOf(p) == Some(x)
    requires x !in Side(w, toA).ids && x in Side(w, !toA).ids && Idle(Side(w, !toA))
    ensures Moves(ca, cb, w, end, x)
  {
    ReachesNext(ca, cb, w, Transaction(toA, x));
    end := StepOf(ca, cb, w, Transaction(toA, x));
  }

  lemma WantLeadsOn(ca: Config, cb: Config, w: World, toA: bool, q: U64, lo: Tag, hi: Tag, x: Tag) returns (end: World)
    requires Ready(ca, cb, w) && WasPosted(w, HealWant([], q, lo, hi, [x]))
    requires x in Side(w, toA).ids && x !in Side(w, !toA).ids
    ensures Moves(ca, cb, w, end, x)
  {
    var p := WantIsServed(if toA then ca else cb, Side(w, toA), q, lo, hi, x);
    var next := SearchLeads(ca, cb, w, toA, HealWant([], q, lo, hi, [x]));
    IsPosted(Side(w, toA), next, toA, p);
    end := DeliveryMoves(ca, cb, next, !toA, x, p);
    MovesAfter(ca, cb, w, next, end, x);
  }

  /** One packet is delivered, and its answer is on the way. */
  lemma Answered(ca: Config, cb: Config, w: World, toA: bool, p: PacketPlain, probes: seq<Probe>, i: nat) returns (next: World, k: U64)
    requires Ready(ca, cb, w) && WasPosted(w, p) && i < |probes|
    requires var cfg, row := if toA then ca else cb, Side(w, toA);
             && OnHealPacket(cfg, row, p) == React(cfg, Touched(row), Ask(probes))
             && AllPack(cfg, Origin(cfg, row), probes, row.ids)
    ensures Leads(ca, cb, w, next) && WasPosted(next, PlainOf(probes[i], k, Side(w, toA).ids))
  {
    k := AnswerIsPosted(if toA then ca else cb, Side(w, toA), p, probes, i);
    next := SearchLeads(ca, cb, w, toA, p);
    IsPosted(Side(w, toA), next, toA, PlainOf(probes[i], k, Side(w, toA).ids));
  }

  lemma HaveReactionIs(cfg: Config, row: Row, q: U64, lo: Tag, hi: Tag, x: Tag)
    requires row.ticked.Some? && x !in row.ids
    ensures OnHealPacket(cfg, row, HealHave([], q, lo, hi, [x])) == React(cfg, Touched(row), Ask([Want(lo, hi, [x])]))
  {
    HeldOne(x, row.ids, false);
  }

  lemma HaveLeadsOn(ca: Config, cb: Config, w: World, toA: bool, q: U64, lo: Tag, hi: Tag, x: Tag) returns (end: World)
    requires Ready(ca, cb, w) && WasPosted(w, HealHave([], q, lo, hi, [x]))
    requires x !in Side(w, toA).ids && x in Side(w, !toA).ids
    ensures Moves(ca, cb, w, end, x)
  {
    var cfg, row := if toA then ca else cb, Side(w, toA);
    HaveReactionIs(cfg, row, q, lo, hi, x);
    SmallPacks(cfg, Origin(cfg, row), [Want(lo, hi, [x])], row.ids);
    var next, r := Answered(ca, cb, w, toA, HealHave([], q, lo, hi, [x]), [Want(lo, hi, [x])], 0);
    end := WantLeadsOn(ca, cb, next, !toA, r, lo, hi, x);
    MovesAfter(ca, cb, w, next, end, x);
  }

  // ---------------------------------------------------------------- down the path

  /** The fingerprint that one side sends of a range. */
  ghost function FingerprintOf(row: Row, r: Range, q: U64): PacketPlain {
    HealHalfXor([], q, r.lo, r.hi, RangeXorOf(row.ids, r.lo, r.hi))
  }

  lemma HalfReactionIs(cfg: Config, row: Row, p: PacketPlain, probes: seq<Probe>)
    requires row.ticked.Some? && p.HealHalfXor? && HalfReaction(row.ids, p.lo, p.hi, p.xor) == Ask(probes)
    ensures OnHealPacket(cfg, row, p) == React(cfg, Touched(row), Ask(probes))
  {
  }

  /** The one question a side has about a range of one id. */
  ghost function SingleProbe(row: Row, r: Range): Probe {
    if r.lo in row.ids then Have(r.lo, r.hi, [r.lo]) else Want(r.lo, r.hi, [r.lo])
  }

  lemma SingleReaction(row: Row, theirs: seq<Tag>, r: Range)
    requires Distinct(row.ids) && Distinct(theirs) && Bounded(r) && Single(r) && Differ(row.ids, theirs, r)
    ensures HalfReaction(row.ids, r.lo, r.hi, RangeXorOf(theirs, r.lo, r.hi)) == Ask([SingleProbe(row, r)])
  {
    OneIdExchange(row.ids, theirs, r);
  }

  lemma SingleIsAnswered(ca: Config, cb: Config, w: World, toA: bool, r: Range, q: U64) returns (next: World, k: U64)
    requires Ready(ca, cb, w) && Bounded(r) && Single(r) && Differ(w.a.ids, w.b.ids, r)
    requires WasPosted(w, FingerprintOf(Side(w, !toA), r, q))
    ensures Leads(ca, cb, w, next) && WasPosted(next, PlainOf(SingleProbe(Side(w, toA), r), k, Side(w, toA).ids))
  {
    var p := FingerprintOf(Side(w, !toA), r, q);
    var cfg, row := if toA then ca else cb, Side(w, toA);
    SingleReaction(row, Side(w, !toA).ids, r);
    HalfReactionIs(cfg, row, p, [SingleProbe(row, r)]);
    SmallPacks(cfg, Origin(cfg, row), [SingleProbe(row, r)], row.ids);
    next, k := Answered(ca, cb, w, toA, p, [SingleProbe(row, r)], 0);
  }

  /** At a range of one id the exchange ends with its delivery. */
  lemma SingleLeadsOn(ca: Config, cb: Config, w: World, toA: bool, r: Range, q: U64) returns (end: World)
    requires Ready(ca, cb, w) && Bounded(r) && Single(r) && Differ(w.a.ids, w.b.ids, r)
    requires WasPosted(w, FingerprintOf(Side(w, !toA), r, q))
    ensures Moves(ca, cb, w, end, r.lo)
  {
    SingleNamesTheId(w.a.ids, w.b.ids, r);
    var next, k := SingleIsAnswered(ca, cb, w, toA, r, q);
    if r.lo in Side(w, toA).ids {
      end := HaveLeadsOn(ca, cb, next, !toA, k, r.lo, r.hi, r.lo);
    } else {
      end := WantLeadsOn(ca, cb, next, !toA, k, r.lo, r.hi, r.lo);
    }
    MovesAfter(ca, cb, w, next, end, r.lo);
  }

  /** A fingerprint of a range that can be split is answered with those of its halves. */
  lemma HalfIsAnswered(ca: Config, cb: Config, w: World, toA: bool, r: Range, half: Range, q: U64) returns (next: World, k: U64)
    requires Ready(ca, cb, w) && Differ(w.a.ids, w.b.ids, r) && !Single(r) && IsHalf(r, half)
    requires WasPosted(w, FingerprintOf(Side(w, !toA), r, q))
    ensures Leads(ca, cb, w, next) && WasPosted(next, FingerprintOf(Side(next, toA), half, k))
  {
    var p := FingerprintOf(Side(w, !toA), r, q);
    var cfg, row := if toA then ca else cb, Side(w, toA);
    var mid := Mid(r.lo, r.hi).value;
    var probes := [Half(r.lo, mid), Half(mid, r.hi)];
    HalfReactionIs(cfg, row, p, probes);
    SmallPacks(cfg, Origin(cfg, row), probes, row.ids);
    next, k := Answered(ca, cb, w, toA, p, probes, if half == Range(r.lo, mid) then 0 else 1);
  }

  /** The side that hears the fingerprint of the last range of a path, when `toA` tells who hears that of the first. */
  function LastHearer(toA: bool, path: seq<Range>): bool
    decreases |path|
  {
    if |path| <= 1 then toA else LastHearer(!toA, path[1..])
  }

  /** Each answer down a path of differing ranges is posted, delivered and answered in turn. */
  lemma {:induction false} PathLeadsOn(ca: Config, cb: Config, w: World, toA: bool, path: seq<Range>, q: U64) returns (end: World, k: U64)
    requires Ready(ca, cb, w) && Descent(w.a.ids, w.b.ids, path)
    requires WasPosted(w, FingerprintOf(Side(w, !toA), path[0], q))
    ensures Leads(ca, cb, w, end) && Differ(w.a.ids, w.b.ids, path[|path| - 1])
    ensures WasPosted(end, FingerprintOf(Side(end, !LastHearer(toA, path)), path[|path| - 1], k))
    decreases |path|
  {
    if |path| == 1 {
      OnlyOne(w.a.ids, w.b.ids, path);
      ReachesItself(ca, cb, w);
      end, k := w, q;
    } else {
      DescentTail(w.a.ids, w.b.ids, path);
      var next, j := HalfIsAnswered(ca, cb, w, toA, path[0], path[1], q);
      end, k := PathLeadsOn(ca, cb, next, !toA, path[1..], j);
      ReachesOn(ca, cb, w, next, end);
    }
  }

  lemma OnlyOne(a: seq<Tag>, b: seq<Tag>, path: seq<Range>)
    requires |path| == 1 && Descent(a, b, path)
    ensures Differ(a, b, path[0])
  {
  }

  lemma DescentTail(a: seq<Tag>, b: seq<Tag>, path: seq<Range>)
    requires |path| > 1 && Descent(a, b, path)
    ensures Differ(a, b, path[0]) && !Single(path[0]) && IsHalf(path[0], path[1]) && Descent(a, b, path[1..])
    ensures path[1..][0] == path[1] && path[1..][|path[1..]| - 1] == path[|path| - 1]
  {
  }

  /** A path from the root stays among ranges that end at or below the topmost one, or are unbounded. */
  lemma {:induction false} PathStaysLow(a: seq<Tag>, b: seq<Tag>, path: seq<Range>)
    requires Descent(a, b, path) && OkRange(Some(ZERO), path[0])
    ensures OkRange(Some(ZERO), path[|path| - 1])
    decreases |path|
  {
    if |path| > 1 {
      DescentTail(a, b, path);
      HalvesAreOk(Some(ZERO), path[0]);
      PathStaysLow(a, b, path[1..]);
    }
  }

  // ---------------------------------------------------------------- from the first fingerprint

  /** An idle row that hears a differing fingerprint of everything posts its own. */
  lemma SearchStarts(ca: Config, cb: Config, w: World, toA: bool) returns (next: World, q: U64)
    requires Ready(ca, cb, w) && Differ(w.a.ids, w.b.ids, ROOT) && Idle(Side(w, toA))
    ensures Leads(ca, cb, w, next) && WasPosted(next, FingerprintOf(Side(next, toA), ROOT, q))
  {
    var s := Local(toA, PeerXor(RangeXorOf(Side(w, !toA).ids, ZERO, INF)));
    var cfg, row := if toA then ca else cb, Side(w, toA);
    SmallPacks(cfg, Origin(cfg, row), [Half(ZERO, INF)], row.ids);
    q := ReplaceIsPosted(cfg, row, [Half(ZERO, INF)], 0);
    ReachesNext(ca, cb, w, s);
    next := StepOf(ca, cb, w, s);
    IsPosted(row, next, toA, FingerprintOf(row, ROOT, q));
  }

  ghost predicate TopAgrees(w: World) { !Differ(w.a.ids, w.b.ids, Range(TOP, INF)) }

  /**
    * Two replicas that can post, one of them idle, whose fingerprints of everything differ and of the topmost range agree:
    * some run of the network moves exactly one id, which lies below the topmost range, to the side that lacks it.
    */
  lemma HealMakesProgress(ca: Config, cb: Config, w: World) returns (x: Tag, end: World)
    requires Ready(ca, cb, w) && (Idle(w.a) || Idle(w.b))
    requires Differ(w.a.ids, w.b.ids, ROOT) && TopAgrees(w)
    ensures x in Diff(w) && Val(x) < Val(TOP) && Moves(ca, cb, w, end, x)
  {
    var toA := Idle(w.a);
    var next, q := SearchStarts(ca, cb, w, toA);
    var path := RootSearchEnds(w.a.ids, w.b.ids);
    var last := path[|path| - 1];
    var low, k := PathLeadsOn(ca, cb, next, !toA, path, q);
    ReachesOn(ca, cb, w, next, low);
    PathNamesAnId(w, path);
    x := last.lo;
    end := SingleLeadsOn(ca, cb, low, LastHearer(!toA, path), last, k);
    MovesAfter(ca, cb, w, low, end, x);
  }

  /** The last range of the path holds one id, below the topmost range, that exactly one side has. */
  lemma PathNamesAnId(w: World, path: seq<Range>)
    requires WorldInv(w) && TopAgrees(w) && Descent(w.a.ids, w.b.ids, path) && path[0] == ROOT
    requires Differ(w.a.ids, w.b.ids, path[|path| - 1]) && Ends(w.a.ids, w.b.ids, path[|path| - 1])
    ensures var r := path[|path| - 1]; Bounded(r) && Single(r) && Val(r.lo) < Val(TOP) && r.lo in Diff(w)
  {
    RootIsLow();
    PathStaysLow(w.a.ids, w.b.ids, path);
    EndIsLow(w, path[|path| - 1]);
  }

  lemma EndIsLow(w: World, r: Range)
    requires WorldInv(w) && TopAgrees(w) && Differ(w.a.ids, w.b.ids, r) && Ends(w.a.ids, w.b.ids, r) && OkRange(Some(ZERO), r)
    ensures Bounded(r) && Single(r) && Val(r.lo) < Val(TOP) && r.lo in Diff(w)
  {
  }

  lemma RootIsLow()
    ensures OkRange(Some(ZERO), ROOT)
  {
    ValOfConstants();
  }

  // ---------------------------------------------------------------- until nothing differs

  /** An id outside a range does not change its fingerprint. */
  lemma {:induction false} XorWithout(ids: seq<Tag>, id: Tag, lo: Tag, hi: Tag)
    requires !InRange(id, lo, hi)
    ensures RangeXorOf(WithId(ids, id), lo, hi) == RangeXorOf(ids, lo, hi)
  {
    if ids != [] && !Less(ids[|ids| - 1], id) {
      var n := |ids| - 1;
      XorWithout(ids[..n], id, lo, hi);
      assert (WithId(ids[..n], id) + [ids[n]])[..|ids|] == WithId(ids[..n], id);
    } else {
      assert (ids + [id])[..|ids|] == ids;
    }
  }

  lemma MovedShrinks(w: World, end: World, x: Tag)
    requires Moved(w, end, x)
    ensures Diff(end) == Diff(w) - {x} && x in Diff(w)
  {
  }

  lemma MovedKeepsTop(w: World, end: World, x: Tag)
    requires Moved(w, end, x) && Val(x) < Val(TOP) && TopAgrees(w)
    ensures TopAgrees(end)
  {
    InRangeIsWithin(x, TOP, INF);
    XorWithout(w.a.ids, x, TOP, INF);
    XorWithout(w.b.ids, x, TOP, INF);
  }

  /**
    * Two replicas that can post, one of them idle, whose fingerprints of the topmost range agree: some run of the network,
    * in which nothing but the search sends transactions, ends with equal fingerprints of everything.
    */
  lemma {:induction false} HealEndsInAgreement(ca: Config, cb: Config, w: World) returns (end: World)
    requires Ready(ca, cb, w) && (Idle(w.a) || Idle(w.b)) && TopAgrees(w)
    ensures Reaches(ca, cb, w, end) && !Differ(end.a.ids, end.b.ids, ROOT)
    decreases |Diff(w)|
  {
    if Differ(w.a.ids, w.b.ids, ROOT) {
      var x, next := HealMakesProgress(ca, cb, w);
      MovedShrinks(w, next, x);
      MovedKeepsTop(w, next, x);
      end := HealEndsInAgreement(ca, cb, next);
      ReachesOn(ca, cb, w, next, end);
    } else {
      ReachesItself(ca, cb, w);
      end := w;
    }
  }
}
