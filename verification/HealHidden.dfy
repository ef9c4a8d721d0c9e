/** A difference the search cannot see stays for good: in no run of the search does it ever leave. */
module HealHidden {
  import opened HealProtocol
  import opened HealRange
  import opened HealRoot
  import opened HealRow
  import opened HealSearch
  import opened Numbers
  import opened Packets
  import opened SendPositions
  import opened Tags
  import opened Wrappers

  /** One id sets the two sides apart. It lies in the topmost range beyond what either side gets across of it, and
      nothing that was posted names it. */
  ghost predicate Hidden(ca: Config, cb: Config, w: World, x: Tag) {
    && HonestRow(w.a, Some(x)) && HonestRow(w.b, Some(x))
    && Distinct(w.a.ids) && Distinct(w.b.ids)
    && Hides(ca, w.a.ids, Some(x)) && Hides(cb, w.b.ids, Some(x))
    && x in w.a.ids && x !in w.b.ids
    && (forall id :: id != x ==> (id in w.a.ids <==> id in w.b.ids))
  }

  /** Nobody sends the hidden transaction of its own accord. Everything else may be sent. */
  predicate SendsOnlyOthers(s: WorldStep, x: Tag) {
    s.Local? && s.e.Send? ==> s.e.tx != x
  }

  lemma LooserRow(row: Row, x: Option<Tag>)
    requires HonestRow(row, x)
    ensures HonestRow(row, None)
  {
    forall i | 0 <= i < |row.posted|
      ensures OkBody(row.ids, None, row.posted[i].body)
    {
      assert OkBody(row.ids, x, row.posted[i].body);
    }
    forall i | 0 <= i < |row.ephPosted|
      ensures OkBody(row.ids, None, row.ephPosted[i].body)
    {
      assert OkBody(row.ids, x, row.ephPosted[i].body);
    }
    forall i | 0 <= i < |row.heal.ready|
      ensures OkBody(row.ids, None, row.heal.ready[i])
    {
      assert OkBody(row.ids, x, row.heal.ready[i]);
    }
    forall i | 0 <= i < |row.heal.probes|
      ensures OkProbe(None, row.heal.probes[i])
    {
      assert OkProbe(x, row.heal.probes[i]);
    }
  }

  lemma HiddenIsHonest(ca: Config, cb: Config, w: World, x: Tag)
    requires Hidden(ca, cb, w, x)
    ensures WorldInv(w) && Diff(w) == {x}
  {
    LooserRow(w.a, Some(x));
    LooserRow(w.b, Some(x));
  }

  /** What can be delivered does not name the hidden id, and its transaction is not on the way. */
  lemma DeliveredIsOther(ca: Config, cb: Config, w: World, x: Tag, id: Tag)
    requires Hidden(ca, cb, w, x) && exists p :: WasPosted(w, p) && TxOf(p) == Some(id)
    ensures id in w.a.ids && id in w.b.ids
  {
    var p :| WasPosted(w, p) && TxOf(p) == Some(id);
    PostedIsOk(w, Some(x), p);
  }

  lemma RowStaysHidden(cfg: Config, x: Tag, row: Row, e: Event)
    requires HonestRow(row, Some(x)) && Distinct(row.ids) && Hides(cfg, row.ids, Some(x))
    requires e.Packet? ==> OkSearch(Some(x), e.p)
    requires e.Send? ==> e.tx != x
    requires e.Arrived? ==> e.id in row.ids
    ensures var next := Apply(cfg, row, e); HonestRow(next, Some(x)) && next.ids == row.ids
  {
    RowStep(cfg, Some(x), row, e);
    IdsStay(cfg, row, e);
  }

  lemma StaysHidden(ca: Config, cb: Config, w: World, x: Tag, s: WorldStep)
    requires Hidden(ca, cb, w, x) && Enabled(w, s) && SendsOnlyOthers(s, x)
    ensures WorldInv(w) && Hidden(ca, cb, StepOf(ca, cb, w, s), x)
  {
    HiddenIsHonest(ca, cb, w, x);
    if s.Search? {
      PostedIsOk(w, Some(x), s.p);
    }
    if s.Transaction? {
      DeliveredIsOther(ca, cb, w, x, s.id);
    }
    RowStaysHidden(if s.toA then ca else cb, x, Side(w, s.toA), EventOf(s));
  }

  /** In every run in which nobody sends the hidden transaction of its own accord, whatever is searched, posted, lost,
      repeated and reordered, the difference stays exactly the hidden id. */
  lemma {:induction false} HiddenForGood(ca: Config, cb: Config, w: World, x: Tag, steps: seq<WorldStep>)
    requires Hidden(ca, cb, w, x) && Legal(ca, cb, w, steps)
    requires forall i :: 0 <= i < |steps| ==> SendsOnlyOthers(steps[i], x)
    ensures Hidden(ca, cb, RunWorld(ca, cb, w, steps), x) && Diff(RunWorld(ca, cb, w, steps)) == {x}
    decreases |steps|
  {
    if steps == [] {
      HiddenIsHonest(ca, cb, w, x);
    } else {
      StaysHidden(ca, cb, w, x, steps[0]);
      HiddenForGood(ca, cb, StepOf(ca, cb, w, steps[0]), x, steps[1..]);
    }
  }

  /** Two replicas apart by one id of the topmost range, which have posted nothing yet. */
  ghost predicate ApartByTop(a: seq<Tag>, b: seq<Tag>, x: Tag) {
    Distinct(a) && Distinct(b) && InRange(x, TOP, INF) && x !in b
    && forall id :: id in a <==> id in b || id == x
  }

  ghost function FreshWorld(a: seq<Tag>, b: seq<Tag>, clock: Option<U64>): World {
    World(NewRow().(ids := a, ticked := clock), NewRow().(ids := b, ticked := clock))
  }

  /** The holder does not list the id, or never gets its list into a packet. */
  ghost predicate Unreported(ca: Config, a: seq<Tag>, x: Tag) { x !in TopReport(a) || ReportNeverPacks(ca, a) }

  lemma UnreportedIsHidden(ca: Config, cb: Config, a: seq<Tag>, b: seq<Tag>, x: Tag, clock: Option<U64>)
    requires ApartByTop(a, b, x) && Unreported(ca, a, x)
    ensures Hidden(ca, cb, FreshWorld(a, b, clock), x)
  {
    InRangeIsWithin(x, TOP, INF);
    assert x !in TopReport(b);
  }

  /** So the search never finds it: in every run from such replicas the id is still missing at the end. */
  lemma TopDifferenceStays(ca: Config, cb: Config, a: seq<Tag>, b: seq<Tag>, x: Tag, clock: Option<U64>, steps: seq<WorldStep>)
    requires ApartByTop(a, b, x) && Unreported(ca, a, x)
    requires Legal(ca, cb, FreshWorld(a, b, clock), steps) && forall i :: 0 <= i < |steps| ==> SendsOnlyOthers(steps[i], x)
    ensures var end := RunWorld(ca, cb, FreshWorld(a, b, clock), steps); Diff(end) == {x} && x !in end.b.ids
  {
    UnreportedIsHidden(ca, cb, a, b, x, clock);
    HiddenForGood(ca, cb, FreshWorld(a, b, clock), x, steps);
  }

  /** That is so as soon as the two share 32 ids there that come before it. */
  lemma SharedIdsHide(cfg: Config, b: seq<Tag>, x: Tag)
    requires Distinct(b) && x !in b && InRange(x, TOP, INF) && |Filtered(b, TOP, INF)| >= ID_CAP
    ensures ApartByTop(b + [x], b, x) && Unreported(cfg, b + [x], x)
  {
    var a := b + [x];
    assert a[..|b|] == b;
    assert Filtered(a, TOP, INF) == Filtered(b, TOP, INF) + [x];
    assert TopReport(a) == TopReport(b);
    assert x !in Filtered(b, TOP, INF);
  }

  /** And as soon as the holder has 16 ids there, when packing cannot shorten ids below their 32 bytes: 16 of them are more
      than a packet takes. */
  lemma LongReportsHide(cfg: Config, a: seq<Tag>, x: Tag)
    requires cfg.durable != [] && |Filtered(a, TOP, INF)| >= 16
    requires forall q: U64 :: cfg.packedLen(HealHave([], q, TOP, INF, TopReport(a))) >= TAG_LEN * |TopReport(a)|
    ensures Unreported(cfg, a, x)
  {
    assert TAG_LEN * |TopReport(a)| >= TAG_LEN * 16;
  }
}
