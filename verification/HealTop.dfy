/** The topmost range is never split. A replica lists the first 32 ids it holds there in one packet, so a difference in that
    range is found exactly when it is listed and the list fits. */
module HealTop {
  import opened Chain
  import opened HealCompletes
  import opened HealHidden
  import opened HealProtocol
  import opened HealRange
  import opened HealRoot
  import opened HealRow
  import opened HealSearch
  import opened Numbers
  import opened Packets
  import opened SendPositions
  import opened Tags
  import opened Wrappers

  // ---------------------------------------------------------------- what one question posts

  function PlainAt(cfg: Config, row: Row, probe: Probe): PacketPlain {
    PlainOf(probe, Origin(cfg, row).packetSeq, row.ids)
  }

  /** A single question is posted exactly when its packet fits, and nothing else is posted with it. */
  lemma OneProbePosts(cfg: Config, row: Row, probe: Probe)
    requires Able(cfg, row)
    ensures Replace(cfg, row, [probe]).Some? <==> Packs(cfg, PlainAt(cfg, row, probe))
    ensures var next := Replace(cfg, row, [probe]);
            next.Some? ==> forall p :: NewlyPosted(row, next.value, p) <==> p == PlainAt(cfg, row, probe)
  {
    OnePacks(cfg, row, probe);
    if Packs(cfg, PlainAt(cfg, row, probe)) {
      OnlyProbeIsPosted(cfg, row, probe);
    }
  }

  lemma OnePacks(cfg: Config, row: Row, probe: Probe)
    ensures AllPack(cfg, Origin(cfg, row), [probe], row.ids) <==> Packs(cfg, PlainAt(cfg, row, probe))
  {
    var origin := Origin(cfg, row);
    assert StepN(origin, 0) == origin;
    assert Packs(cfg, PlainOf([probe][0], StepN(origin, 0).packetSeq, row.ids)) <==> Packs(cfg, PlainAt(cfg, row, probe));
  }

  lemma OnlyProbeIsPosted(cfg: Config, row: Row, probe: Probe)
    requires Able(cfg, row) && AllPack(cfg, Origin(cfg, row), [probe], row.ids)
    ensures Replace(cfg, row, [probe]).Some?
    ensures var next := Replace(cfg, row, [probe]).value;
            forall p :: NewlyPosted(row, next, p) <==> p == PlainAt(cfg, row, probe)
  {
    var next := Replace(cfg, row, [probe]).value;
    var q := ReplaceIsPosted(cfg, row, [probe], 0);
    SealRunAt(Origin(cfg, row), [probe], row.ids, 0);
    forall p | NewlyPosted(row, next, p)
      ensures p == PlainAt(cfg, row, probe)
    {
      assert |next.posted| <= |row.posted| + 1 && |next.ephPosted| <= |row.ephPosted| + 1;
    }
  }

  /** A question that stands alone is answered with a question that stands alone. */
  lemma AnswerPosts(cfg: Config, row: Row, p: PacketPlain, probe: Probe)
    requires Able(cfg, row) && OnHealPacket(cfg, row, p) == React(cfg, Touched(row), Ask([probe]))
    ensures OnHealPacket(cfg, row, p).Some? <==> Packs(cfg, PlainAt(cfg, row, probe))
    ensures var next := OnHealPacket(cfg, row, p);
            next.Some? ==> forall s :: NewlyPosted(row, next.value, s) <==> s == PlainAt(cfg, row, probe)
  {
    OneProbePosts(cfg, Touched(row), probe);
    var next := OnHealPacket(cfg, row, p);
    if next.Some? {
      SamePosts(Touched(row), row, next.value);
    }
  }

  lemma SamePosts(was: Row, row: Row, next: Row)
    requires row.posted == was.posted && row.ephPosted == was.ephPosted
    ensures forall s :: NewlyPosted(was, next, s) <==> NewlyPosted(row, next, s)
  {
  }

  // ---------------------------------------------------------------- one exchange

  ghost function TopProbe(row: Row): Probe { Have(TOP, INF, TopReport(row.ids)) }

  /** The packet a row's list of the topmost range goes into. */
  ghost function TopHave(cfg: Config, row: Row): PacketPlain { PlainAt(cfg, row, TopProbe(row)) }

  /** The packet in which a row asks for what it lacks of a list. */
  function TopWant(cfg: Config, row: Row, named: seq<Tag>): PacketPlain {
    PlainAt(cfg, row, Want(TOP, INF, Held(named, row.ids, false)))
  }

  ghost predicate TopDiffers(row: Row, p: PacketPlain) {
    p.HealHalfXor? && p.lo == TOP && p.hi == INF && p.xor != RangeXorOf(row.ids, TOP, INF)
  }

  lemma TopReaction(ids: seq<Tag>, xor: Tag)
    requires xor != RangeXorOf(ids, TOP, INF)
    ensures HalfReaction(ids, TOP, INF, xor) == Ask([Have(TOP, INF, TopReport(ids))])
  {
    OnlyTopIsStuck(TOP);
    NeverSingle(TOP);
  }

  /** A differing fingerprint of the topmost range is answered exactly when the list fits, and then with the list alone.
      Otherwise the call fails and nothing is posted. */
  lemma ReportsExactlyWhen(cfg: Config, row: Row, p: PacketPlain)
    requires Able(cfg, row) && TopDiffers(row, p)
    ensures OnHealPacket(cfg, row, p).Some? <==> Packs(cfg, TopHave(cfg, row))
    ensures var next := OnHealPacket(cfg, row, p);
            next.Some? ==> forall s :: NewlyPosted(row, next.value, s) <==> s == TopHave(cfg, row)
  {
    TopReaction(row.ids, p.xor);
    AnswerPosts(cfg, row, p, TopProbe(row));
  }

  lemma ListReaction(cfg: Config, row: Row, q: U64, lo: Tag, hi: Tag, named: seq<Tag>, missing: seq<Tag>)
    requires row.ticked.Some? && |named| <= ID_CAP && missing == Held(named, row.ids, false)
    ensures missing == [] ==> OnHealPacket(cfg, row, HealHave([], q, lo, hi, named)) == React(cfg, Touched(row), Reset)
    ensures missing != [] ==>
              OnHealPacket(cfg, row, HealHave([], q, lo, hi, named)) == React(cfg, Touched(row), Ask([Want(lo, hi, missing)]))
  {
    ReactsAsTold(cfg, row, HealHave([], q, lo, hi, named), HaveReaction(row.ids, lo, hi, named));
  }

  lemma ReactsAsTold(cfg: Config, row: Row, p: PacketPlain, reaction: Reaction)
    requires row.ticked.Some? && p.HealHave? && reaction == HaveReaction(row.ids, p.lo, p.hi, p.ids)
    ensures OnHealPacket(cfg, row, p) == React(cfg, Touched(row), reaction)
  {
  }

  /** A list is answered with a Want of what is missing, when something is missing and that fits. When nothing is missing
      the search ends there. */
  lemma WantsExactlyWhen(cfg: Config, row: Row, q: U64, named: seq<Tag>)
    requires Able(cfg, row) && |named| <= ID_CAP
    ensures var next, missing := OnHealPacket(cfg, row, HealHave([], q, TOP, INF, named)), Held(named, row.ids, false);
            if missing == [] then next == Some(Touched(row).(heal := NO_SEARCH))
            else
              && (next.Some? <==> Packs(cfg, TopWant(cfg, row, named)))
              && (next.Some? ==> forall s :: NewlyPosted(row, next.value, s) <==> s == TopWant(cfg, row, named))
  {
    var missing := Held(named, row.ids, false);
    ListReaction(cfg, row, q, TOP, INF, named, missing);
    if missing != [] {
      AnswerPosts(cfg, row, HealHave([], q, TOP, INF, named), Want(TOP, INF, missing));
    }
  }

  /** One side hears a differing fingerprint of the topmost range, the other hears what it then posts, and asks for the id. */
  ghost predicate TopAsked(ca: Config, cb: Config, a: Row, b: Row, p: PacketPlain, x: Tag)
    requires b.heal.sealedFrom.Some? ==> b.heal.sealedTo.Some?
  {
    var told := OnHealPacket(ca, a, p);
    told.Some?
    && exists have, want ::
         NewlyPosted(a, told.value, have) && NewlyPosted(b, Apply(cb, b, Packet(have)), want) && want.HealWant? && x in want.ids
  }

  /** What a row posts on hearing a list. */
  lemma HearsList(cfg: Config, row: Row, q: U64, named: seq<Tag>)
    requires Able(cfg, row) && |named| <= ID_CAP && (row.heal.sealedFrom.Some? ==> row.heal.sealedTo.Some?)
    ensures var next := Apply(cfg, row, Packet(HealHave([], q, TOP, INF, named)));
            forall s :: NewlyPosted(row, next, s)
                    <==> Held(named, row.ids, false) != [] && Packs(cfg, TopWant(cfg, row, named)) && s == TopWant(cfg, row, named)
  {
    WantsExactlyWhen(cfg, row, q, named);
    NothingNew(row, row);
    NothingNew(row, Touched(row).(heal := NO_SEARCH));
  }

  lemma NothingNew(was: Row, row: Row)
    requires row.posted == was.posted && row.ephPosted == was.ephPosted
    ensures forall s :: !NewlyPosted(was, row, s)
  {
  }

  /** So an id is asked for exactly when the list shows it, the other side lacks it, and both packets fit. */
  lemma TopRangeHealsExactlyWhen(ca: Config, cb: Config, a: Row, b: Row, p: PacketPlain, x: Tag)
    requires Able(ca, a) && Able(cb, b) && TopDiffers(a, p)
    requires b.heal.sealedFrom.Some? ==> b.heal.sealedTo.Some?
    ensures TopAsked(ca, cb, a, b, p, x)
            <==> && x in TopReport(a.ids) && x !in b.ids
                 && Packs(ca, TopHave(ca, a)) && Packs(cb, TopWant(cb, b, TopReport(a.ids)))
  {
    ReportsExactlyWhen(ca, a, p);
    var have, report := TopHave(ca, a), TopReport(a.ids);
    HearsList(cb, b, have.packetSeq, report);
    AskedIs(ca, cb, a, b, p, have, TopWant(cb, b, report), Held(report, b.ids, false) != [], x);
  }

  lemma AskedIs(ca: Config, cb: Config, a: Row, b: Row, p: PacketPlain, have: PacketPlain, want: PacketPlain, lacks: bool, x: Tag)
    requires b.heal.sealedFrom.Some? ==> b.heal.sealedTo.Some?
    requires OnHealPacket(ca, a, p).Some? <==> Packs(ca, have)
    requires OnHealPacket(ca, a, p).Some? ==> forall s :: NewlyPosted(a, OnHealPacket(ca, a, p).value, s) <==> s == have
    requires forall s :: NewlyPosted(b, Apply(cb, b, Packet(have)), s) <==> lacks && Packs(cb, want) && s == want
    requires want.HealWant? && (x in want.ids ==> lacks)
    ensures TopAsked(ca, cb, a, b, p, x) <==> x in want.ids && Packs(ca, have) && Packs(cb, want)
  {
    if x in want.ids && Packs(ca, have) && Packs(cb, want) {
      assert NewlyPosted(a, OnHealPacket(ca, a, p).value, have) && NewlyPosted(b, Apply(cb, b, Packet(have)), want);
    }
  }

  /** With at most 32 ids there the list is complete, so every id that the other side lacks is asked for, if the packets fit. */
  lemma SmallTopRangeHeals(ca: Config, cb: Config, a: Row, b: Row, p: PacketPlain, x: Tag)
    requires Able(ca, a) && Able(cb, b) && TopDiffers(a, p)
    requires b.heal.sealedFrom.Some? ==> b.heal.sealedTo.Some?
    requires |Filtered(a.ids, TOP, INF)| <= ID_CAP && x in a.ids && InRange(x, TOP, INF) && x !in b.ids
    ensures TopAsked(ca, cb, a, b, p, x) <==> Packs(ca, TopHave(ca, a)) && Packs(cb, TopWant(cb, b, TopReport(a.ids)))
  {
    TopRangeHealsExactlyWhen(ca, cb, a, b, p, x);
    assert x in Filtered(a.ids, TOP, INF);
  }

  /** Each side may find nothing to ask for although they differ: that is so when they share 32 ids of the range and one of
      them holds a further id there. */
  lemma TopRangeCanHide(b: seq<Tag>, id: Tag)
    requires |b| >= ID_CAP && (forall x :: x in b ==> InRange(x, TOP, INF)) && InRange(id, TOP, INF) && id != ZERO
    ensures var a := b + [id];
            && Differ(a, b, Range(TOP, INF))
            && HaveReaction(b, TOP, INF, TopReport(a)) == Reset
            && HaveReaction(a, TOP, INF, TopReport(b)) == Reset
  {
    var a := b + [id];
    OneMoreDiffers(b, id, Range(TOP, INF));
    FilteredAll(a);
    FilteredAll(b);
    SameCap(b, id);
    ResetWhenHeld(b[..ID_CAP], b);
    ResetWhenHeld(b[..ID_CAP], a);
  }

  lemma SameCap(b: seq<Tag>, id: Tag)
    requires |b| >= ID_CAP
    ensures Capped(b + [id]) == b[..ID_CAP] && Capped(b) == b[..ID_CAP]
  {
  }

  lemma ResetWhenHeld(named: seq<Tag>, ids: seq<Tag>)
    requires |named| <= ID_CAP && forall x :: x in named ==> x in ids
    ensures HaveReaction(ids, TOP, INF, named) == Reset
  {
    NoneMissing(named, ids);
  }

  lemma OneMoreDiffers(b: seq<Tag>, id: Tag, r: Range)
    requires InRange(id, r.lo, r.hi) && id != ZERO
    ensures Differ(b + [id], b, r)
  {
    var a := b + [id];
    assert a[..|b|] == b && a[|b|] == id;
    var xor := RangeXorOf(b, r.lo, r.hi);
    XorLaws(xor, ZERO, ZERO);
    if XorTag(xor, id) == xor {
      XorCancel(xor, id, ZERO);
    }
  }

  lemma {:induction false} FilteredAll(ids: seq<Tag>)
    requires forall x :: x in ids ==> InRange(x, TOP, INF)
    ensures Filtered(ids, TOP, INF) == ids
  {
    if ids != [] {
      FilteredAll(ids[..|ids| - 1]);
    }
  }

  lemma {:induction false} NoneMissing(named: seq<Tag>, ids: seq<Tag>)
    requires forall x :: x in named ==> x in ids
    ensures Held(named, ids, false) == []
  {
    if named != [] {
      NoneMissing(named[..|named| - 1], ids);
    }
  }

  // ---------------------------------------------------------------- a list that does not fit

  function TopId(i: nat): Tag
    requires i < 256
  {
    [0xff] + Fill(0, TAG_LEN - 2) + [i]
  }

  function TopIds(n: nat): (r: seq<Tag>)
    requires n <= 256
    ensures |r| == n
  {
    seq(n, i requires 0 <= i < n => TopId(i))
  }

  lemma TopIdsAreTop(n: nat)
    requires n <= 256
    ensures Distinct(TopIds(n)) && Filtered(TopIds(n), TOP, INF) == TopIds(n)
  {
    forall i | 0 <= i < n
      ensures InRange(TopIds(n)[i], TOP, INF) && TopIds(n)[i][TAG_LEN - 1] == i
    {
      TopIdIsTop(i);
    }
    FilteredAll(TopIds(n));
  }

  lemma TopIdIsTop(i: nat)
    requires i < 256
    ensures InRange(TopId(i), TOP, INF) && TopId(i)[TAG_LEN - 1] == i
  {
    assert forall k :: 0 <= k < TAG_LEN ==> TOP[k] <= TopId(i)[k];
    assert forall k :: 0 <= k < TAG_LEN ==> INF[k] == 0xff;
  }

  /** Ids do not pack below their 32 bytes. */
  function PlainSize(p: PacketPlain): nat { if p.HealWant? || p.HealHave? then 200 + TAG_LEN * |p.ids| else 200 }

  /** So a replica with 32 ids of the topmost range cannot answer for it at all: whatever differing fingerprint it hears,
      the call fails. */
  lemma LongListIsRefused(joined: SendChain, packedTx: Tag -> seq<Byte>, clock: U64, xor: Tag)
    ensures var cfg := Config(joined, [0], [], packedTx, PlainSize);
            var row := NewRow().(ids := TopIds(ID_CAP), ticked := Some(clock));
            && Distinct(row.ids) && |TopReport(row.ids)| == ID_CAP
            && (xor != RangeXorOf(row.ids, TOP, INF) ==> OnHealPacket(cfg, row, HealHalfXor([], 0, TOP, INF, xor)).None?)
  {
    TopIdsAreTop(ID_CAP);
    var cfg := Config(joined, [0], [], packedTx, PlainSize);
    var row := NewRow().(ids := TopIds(ID_CAP), ticked := Some(clock));
    if xor != RangeXorOf(row.ids, TOP, INF) {
      ReportsExactlyWhen(cfg, row, HealHalfXor([], 0, TOP, INF, xor));
    }
  }

  // ---------------------------------------------------------------- where the search ends

  lemma {:induction false} HearerFlips(toA: bool, path: seq<Range>)
    ensures LastHearer(!toA, path) == !LastHearer(toA, path)
    decreases |path|
  {
    if |path| > 1 {
      HearerFlips(!toA, path[1..]);
    }
  }

  /** A root search between sides that are apart by an id of the topmost range ends at that range. */
  lemma EndsAtTop(a: seq<Tag>, b: seq<Tag>, x: Tag) returns (path: seq<Range>)
    requires ApartByTop(a, b, x)
    ensures Differ(a, b, ROOT) && Descent(a, b, path) && path[0] == ROOT && path[|path| - 1] == Range(TOP, INF)
  {
    OneExtraDiffers(a, b, x);
    path := RootSearchEnds(a, b);
    RootIsLow();
    PathStaysLow(a, b, path);
    InRangeIsWithin(x, TOP, INF);
  }

  /** One id sets two fingerprints apart, whatever the order in which the ids are combined. */
  lemma OneExtraDiffers(a: seq<Tag>, b: seq<Tag>, x: Tag)
    requires ApartByTop(a, b, x)
    ensures Differ(a, b, ROOT)
  {
    InRangeIsWithin(x, TOP, INF);
    InRangeIsWithin(x, ZERO, INF);
    TopIsAboveZero(x);
    AppendIsDistinct(b, x);
    XorOfSet(a, b + [x], ZERO, INF);
    OneMoreDiffers(b, x, ROOT);
  }

  lemma TopIsAboveZero(x: Tag)
    requires Val(TOP) <= Val(x)
    ensures Val(ZERO) <= Val(x) && x != ZERO
  {
    ValOfConstants();
    assert TOP[0] == 0xff && ZERO[0] == 0;
    assert TOP[..0] == ZERO[..0];
    assert LessAt(ZERO, TOP, 0);
    LessIsValLess(ZERO, TOP);
  }

  function Without(ids: seq<Tag>, k: nat): seq<Tag>
    requires k < |ids|
  {
    ids[..k] + ids[k + 1..]
  }

  /** A fingerprint with one more id. */
  function Added(xor: Tag, id: Tag, lo: Tag, hi: Tag): Tag { if InRange(id, lo, hi) then XorTag(xor, id) else xor }

  lemma AddedSwaps(xor: Tag, x: Tag, y: Tag, lo: Tag, hi: Tag)
    ensures Added(Added(xor, x, lo, hi), y, lo, hi) == Added(Added(xor, y, lo, hi), x, lo, hi)
  {
    XorLaws(xor, x, y);
    XorLaws(xor, y, x);
    XorLaws(x, y, ZERO);
  }

  lemma XorOfLast(ids: seq<Tag>, id: Tag, lo: Tag, hi: Tag)
    ensures RangeXorOf(ids + [id], lo, hi) == Added(RangeXorOf(ids, lo, hi), id, lo, hi)
  {
    assert (ids + [id])[..|ids|] == ids;
  }

  lemma {:induction false} XorWithoutOne(ids: seq<Tag>, k: nat, lo: Tag, hi: Tag)
    requires k < |ids|
    ensures RangeXorOf(ids, lo, hi) == Added(RangeXorOf(Without(ids, k), lo, hi), ids[k], lo, hi)
  {
    var n := |ids| - 1;
    var front, last := ids[..n], ids[n];
    assert ids == front + [last];
    XorOfLast(front, last, lo, hi);
    if k == n {
      assert Without(ids, k) == front;
    } else {
      XorWithoutOne(front, k, lo, hi);
      assert Without(ids, k) == Without(front, k) + [last];
      XorOfLast(Without(front, k), last, lo, hi);
      AddedSwaps(RangeXorOf(Without(front, k), lo, hi), ids[k], last, lo, hi);
    }
  }

  lemma SomeElement(ids: seq<Tag>)
    ensures ids == [] || exists id :: id in ids
  {
    if ids != [] {
      assert ids[0] in ids;
    }
  }

  /** The fingerprint of a range does not depend on the order of the ids. */
  lemma {:induction false} XorOfSet(a: seq<Tag>, b: seq<Tag>, lo: Tag, hi: Tag)
    requires Distinct(a) && Distinct(b) && forall id :: id in a <==> id in b
    ensures RangeXorOf(a, lo, hi) == RangeXorOf(b, lo, hi)
    decreases |a|
  {
    if a == [] {
      SomeElement(b);
    } else {
      var n := |a| - 1;
      assert a[n] in b;
      var k :| 0 <= k < |b| && b[k] == a[n];
      SameWithoutOne(a, b, k);
      XorOfSet(a[..n], Without(b, k), lo, hi);
      XorWithoutOne(b, k, lo, hi);
    }
  }

  lemma SameWithoutOne(a: seq<Tag>, b: seq<Tag>, k: nat)
    requires Distinct(a) && Distinct(b) && (forall id :: id in a <==> id in b) && a != [] && k < |b| && b[k] == a[|a| - 1]
    ensures Distinct(Without(b, k)) && forall id :: id in a[..|a| - 1] <==> id in Without(b, k)
  {
    WithoutHas(a, |a| - 1);
    assert Without(a, |a| - 1) == a[..|a| - 1];
    WithoutHas(b, k);
  }

  lemma WithoutHas(ids: seq<Tag>, k: nat)
    requires Distinct(ids) && k < |ids|
    ensures Distinct(Without(ids, k)) && forall id :: id in Without(ids, k) <==> id in ids && id != ids[k]
  {
    assert ids == ids[..k] + [ids[k]] + ids[k + 1..];
  }

  // ---------------------------------------------------------------- whole runs

  lemma {:induction false} HeldOnly(named: seq<Tag>, ids: seq<Tag>, x: Tag)
    requires Distinct(named) && x !in ids && forall id :: id in named && id != x ==> id in ids
    ensures Held(named, ids, false) == if x in named then [x] else []
  {
    if named != [] {
      var n := |named| - 1;
      assert named == named[..n] + [named[n]];
      HeldOnly(named[..n], ids, x);
    }
  }

  lemma {:induction false} FilteredIsDistinct(ids: seq<Tag>, lo: Tag, hi: Tag)
    requires Distinct(ids)
    ensures Distinct(Filtered(ids, lo, hi))
  {
    if ids != [] {
      FilteredIsDistinct(ids[..|ids| - 1], lo, hi);
    }
  }

  /** The search reaches the holder with the other side's fingerprint of the topmost range. */
  lemma HolderHears(ca: Config, cb: Config, w: World, x: Tag) returns (next: World, k: U64)
    requires Ready(ca, cb, w) && Idle(w.a) && Idle(w.b) && ApartByTop(w.a.ids, w.b.ids, x)
    ensures Leads(ca, cb, w, next) && WasPosted(next, FingerprintOf(w.b, Range(TOP, INF), k)) && Differ(w.a.ids, w.b.ids, Range(TOP, INF))
  {
    var path := EndsAtTop(w.a.ids, w.b.ids, x);
    var toA := !LastHearer(true, path);
    HearerFlips(true, path);
    var start, q := SearchStarts(ca, cb, w, toA);
    next, k := PathLeadsOn(ca, cb, start, !toA, path, q);
    ReachesOn(ca, cb, w, start, next);
  }

  /** Once the holder's list is out, the id is moved. */
  lemma ListLeadsOn(ca: Config, cb: Config, w: World, q: U64, x: Tag) returns (end: World)
    requires Ready(ca, cb, w) && ApartByTop(w.a.ids, w.b.ids, x) && x in TopReport(w.a.ids)
    requires WasPosted(w, HealHave([], q, TOP, INF, TopReport(w.a.ids)))
    ensures Moves(ca, cb, w, end, x)
  {
    FilteredIsDistinct(w.a.ids, TOP, INF);
    HeldOnly(TopReport(w.a.ids), w.b.ids, x);
    end := OneMissingLeadsOn(ca, cb, w, q, TOP, INF, TopReport(w.a.ids), x);
  }

  /** A list of which the other side lacks one id moves that id. */
  lemma OneMissingLeadsOn(ca: Config, cb: Config, w: World, q: U64, lo: Tag, hi: Tag, named: seq<Tag>, x: Tag) returns (end: World)
    requires Ready(ca, cb, w) && |named| <= ID_CAP && Held(named, w.b.ids, false) == [x] && x in w.a.ids && x !in w.b.ids
    requires WasPosted(w, HealHave([], q, lo, hi, named))
    ensures Moves(ca, cb, w, end, x)
  {
    ListReaction(cb, w.b, q, lo, hi, named, [x]);
    SmallPacks(cb, Origin(cb, w.b), [Want(lo, hi, [x])], w.b.ids);
    var next, k := Answered(ca, cb, w, false, HealHave([], q, lo, hi, named), [Want(lo, hi, [x])], 0);
    end := WantLeadsOn(ca, cb, next, true, k, lo, hi, x);
    MovesAfter(ca, cb, w, next, end, x);
  }

  lemma ReportedIdMoves(ca: Config, cb: Config, w: World, x: Tag) returns (end: World)
    requires Ready(ca, cb, w) && Idle(w.a) && Idle(w.b) && ApartByTop(w.a.ids, w.b.ids, x)
    requires x in TopReport(w.a.ids) && forall q: U64 :: Packs(ca, HealHave([], q, TOP, INF, TopReport(w.a.ids)))
    ensures Moves(ca, cb, w, end, x)
  {
    var next, k := HolderHears(ca, cb, w, x);
    var p, a := FingerprintOf(w.b, Range(TOP, INF), k), next.a;
    TopReaction(a.ids, p.xor);
    OnePacks(ca, a, TopProbe(a));
    var told, q := Answered(ca, cb, next, true, p, [TopProbe(a)], 0);
    end := ListLeadsOn(ca, cb, told, q, x);
    ReachesOn(ca, cb, w, next, told);
    MovesAfter(ca, cb, w, told, end, x);
  }

  /** Whether a list packs does not hang on the number of its packet. */
  ghost predicate NumberBlind(cfg: Config, named: seq<Tag>) {
    forall q: U64, r: U64 :: Packs(cfg, HealHave([], q, TOP, INF, named)) <==> Packs(cfg, HealHave([], r, TOP, INF, named))
  }

  /** Two replicas are apart by one id of the topmost range. Some run of the search brings them together exactly when the
      holder's list shows the id and fits a packet. Otherwise every run leaves them apart. */
  lemma TopIdMovesExactlyWhen(ca: Config, cb: Config, a: seq<Tag>, b: seq<Tag>, x: Tag, clock: U64)
    requires ApartByTop(a, b, x) && NumberBlind(ca, TopReport(a))
    requires var w := FreshWorld(a, b, Some(clock)); Capable(ca, w.a) && Capable(cb, w.b)
    ensures var w := FreshWorld(a, b, Some(clock));
            (exists end :: Reaches(ca, cb, w, end) && Diff(end) == {})
            <==> x in TopReport(a) && Packs(ca, HealHave([], 0, TOP, INF, TopReport(a)))
  {
    var w := FreshWorld(a, b, Some(clock));
    if x in TopReport(a) && Packs(ca, HealHave([], 0, TOP, INF, TopReport(a))) {
      var end := ReportedIdMoves(ca, cb, w, x);
      MovedShrinks(w, end, x);
      assert Diff(end) == {};
    } else {
      forall end | Reaches(ca, cb, w, end)
        ensures Diff(end) == {x}
      {
        var steps :| Runs(ca, cb, w, steps, end);
        TopDifferenceStays(ca, cb, a, b, x, Some(clock), steps);
      }
    }
  }
}
