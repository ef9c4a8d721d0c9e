/** Which lists a device asks for, which lists it accepts, and why asking comes to an end. */
module Poll {
  import opened Bins
  import opened Numbers
  import opened Wrappers

  const TIME_BIN_SECONDS: nat := 3600

  function TimeBin(now: U64): U64 { now / TIME_BIN_SECONDS }

  /** A tag is a hash of the ticket secret and the bin. */
  datatype InviteTag = InviteTag(secret: nat, bin: U64)

  datatype Locator = Locator(channel: nat, tag: InviteTag)

  /** A handshake row as polling sees it. `done` rows have nothing left to list. */
  datatype TicketRow = TicketRow(secret: nat, listFrom: U64, durable: seq<nat>, done: bool)

  /** Progress is kept per channel and ticket secret. */
  datatype Key = Key(channel: nat, secret: nat)

  datatype Device = Device(rows: seq<TicketRow>, progress: map<Key, Progress>, now: U64)

  datatype Hit = Hit(row: nat, bin: U64)

  function ProgressOf(d: Device, channel: nat, secret: nat): Option<Progress> {
    if Key(channel, secret) in d.progress then Some(d.progress[Key(channel, secret)]) else None
  }

  // ---------------------------------------------------------------- asking

  /** Incomplete bins from the start of the scan to the bin after this hour, and always the three around it. */
  ghost predicate Asks(p: Option<Progress>, listFrom: U64, w: U64, bin: U64) {
    (CatchUpStart(p, listFrom) <= bin <= SatAdd(w, 1) && !BinComplete(p, bin)) || bin in ListenBins(w)
  }

  ghost predicate RowAsks(d: Device, row: TicketRow, l: Locator) {
    && !row.done && l.channel in row.durable && l.tag.secret == row.secret
    && Asks(ProgressOf(d, l.channel, row.secret), row.listFrom, TimeBin(d.now), l.tag.bin)
  }

  ghost predicate Asked(d: Device, l: Locator) { exists r :: 0 <= r < |d.rows| && RowAsks(d, d.rows[r], l) }

  method BinsToAsk(p: Option<Progress>, listFrom: U64, w: U64) returns (bins: set<U64>)
    ensures forall bin :: bin in bins <==> Asks(p, listFrom, w, bin)
  {
    bins := {};
    var start, end := CatchUpStart(p, listFrom), SatAdd(w, 1);
    var n: nat := start;
    while n <= end
      invariant n >= start && (start <= end ==> n <= end + 1)
      invariant forall bin :: bin in bins <==> start <= bin < n && bin <= end && !BinComplete(p, bin)
    {
      if !BinComplete(p, n) {
        bins := bins + {n};
      }
      n := n + 1;
    }
    bins := bins + ListenBins(w);
  }

  /** Every list to ask for now, each once. */
  method PollList(d: Device) returns (list: set<Locator>)
    ensures forall l :: l in list <==> Asked(d, l)
  {
    list := {};
    for r := 0 to |d.rows|
      invariant forall l :: l in list <==> exists k :: 0 <= k < r && RowAsks(d, d.rows[k], l)
    {
      if !d.rows[r].done {
        var more := RowList(d, d.rows[r]);
        list := list + more;
      }
    }
  }

  method RowList(d: Device, row: TicketRow) returns (list: set<Locator>)
    requires !row.done
    ensures forall l :: l in list <==> RowAsks(d, row, l)
  {
    list := {};
    for c := 0 to |row.durable|
      invariant forall l :: l in list <==> l.channel in row.durable[..c] && RowAsks(d, row, l)
    {
      var ch := row.durable[c];
      var bins := BinsToAsk(ProgressOf(d, ch, row.secret), row.listFrom, TimeBin(d.now));
      var more := set bin | bin in bins :: Locator(ch, InviteTag(row.secret, bin));
      assert row.durable[..c + 1] == row.durable[..c] + [ch];
      list := list + more;
    }
    assert row.durable[..|row.durable|] == row.durable;
  }

  // ---------------------------------------------------------------- accepting

  /** Bins a tag is looked for in: the whole scan, complete or not, and the three around this hour. */
  predicate Looks(p: Option<Progress>, listFrom: U64, w: U64, bin: U64) {
    CatchUpStart(p, listFrom) <= bin <= SatAdd(w, 1) || bin in ListenBins(w)
  }

  predicate RowHits(d: Device, row: TicketRow, l: Locator) {
    && l.channel in row.durable && l.tag.secret == row.secret
    && Looks(ProgressOf(d, l.channel, row.secret), row.listFrom, TimeBin(d.now), l.tag.bin)
  }

  /** Rows the tag belongs to, in order. A row has one bin for a tag at most. */
  function Hits(d: Device, l: Locator, upTo: nat): (r: seq<Hit>)
    requires upTo <= |d.rows|
    ensures forall h :: h in r ==> h.row < upTo && h.bin == l.tag.bin && RowHits(d, d.rows[h.row], l)
    ensures forall k :: 0 <= k < upTo && RowHits(d, d.rows[k], l) ==> Hit(k, l.tag.bin) in r
  {
    if upTo == 0 then []
    else Hits(d, l, upTo - 1) + if RowHits(d, d.rows[upTo - 1], l) then [Hit(upTo - 1, l.tag.bin)] else []
  }

  method HandshakeHits(d: Device, l: Locator) returns (hits: seq<Hit>)
    ensures hits == Hits(d, l, |d.rows|)
  {
    hits := [];
    for r := 0 to |d.rows|
      invariant hits == Hits(d, l, r)
    {
      var row := d.rows[r];
      if l.channel in row.durable {
        var p, w := ProgressOf(d, l.channel, row.secret), TimeBin(d.now);
        var n: nat := CatchUpStart(p, row.listFrom);
        var found := false;
        while n <= SatAdd(w, 1)
          invariant n >= CatchUpStart(p, row.listFrom)
          invariant found <==> row.secret == l.tag.secret
                               && CatchUpStart(p, row.listFrom) <= l.tag.bin < n && l.tag.bin <= SatAdd(w, 1)
        {
          if InviteTag(row.secret, n) == l.tag {
            found := true;
          }
          n := n + 1;
        }
        if row.secret == l.tag.secret && l.tag.bin in ListenBins(w) {
          found := true;
        }
        if found {
          hits := hits + [Hit(r, l.tag.bin)];
        }
      }
    }
  }

  /** A list arrived complete: record the bin of the first hit. Absent when no row wants the tag. */
  function IngestList(d: Device, l: Locator): Option<Device> {
    var hits := Hits(d, l, |d.rows|);
    if hits == [] then None
    else
      var row := d.rows[hits[0].row];
      var p := ProgressOf(d, l.channel, row.secret);
      assert hits[0] in hits;
      Some(d.(progress := d.progress[Key(l.channel, row.secret) := Completed(Or(p), hits[0].bin, row.listFrom)]))
  }

  // ---------------------------------------------------------------- what asking and accepting have to do with each other

  /** Every list that is asked for is accepted in the same state. */
  lemma AskedIsAccepted(d: Device, l: Locator)
    requires Asked(d, l)
    ensures Hits(d, l, |d.rows|) != [] && IngestList(d, l).Some?
  {
    var r :| 0 <= r < |d.rows| && RowAsks(d, d.rows[r], l);
    assert RowHits(d, d.rows[r], l);
    assert Hit(r, l.tag.bin) in Hits(d, l, |d.rows|);
  }

  /** No two rows share a ticket. */
  ghost predicate DistinctTickets(d: Device) {
    forall i, j :: 0 <= i < j < |d.rows| ==> d.rows[i].secret != d.rows[j].secret
  }

  /** Progress started from the origin of the row it belongs to. */
  ghost predicate WellStarted(d: Device) {
    forall r, ch {:trigger ProgressOf(d, ch, d.rows[r].secret)} :: 0 <= r < |d.rows| ==>
      AtLeast(ProgressOf(d, ch, d.rows[r].secret), d.rows[r].listFrom)
  }

  /** While progress remembers what was listed, no unlisted bin from the row's origin to the next hour is left out. */
  lemma PollOmitsNothing(d: Device, r: nat, ch: nat, bin: U64, listed: set<U64>)
    requires r < |d.rows| && !d.rows[r].done && ch in d.rows[r].durable
    requires Refines(ProgressOf(d, ch, d.rows[r].secret), d.rows[r].listFrom, listed)
    requires d.rows[r].listFrom <= bin <= SatAdd(TimeBin(d.now), 1) && bin !in listed
    ensures Asked(d, Locator(ch, InviteTag(d.rows[r].secret, bin)))
  {
    assert RowAsks(d, d.rows[r], Locator(ch, InviteTag(d.rows[r].secret, bin)));
  }

  lemma AcceptedIs(d: Device, l: Locator, r: nat)
    requires DistinctTickets(d) && r < |d.rows| && RowHits(d, d.rows[r], l)
    ensures IngestList(d, l)
         == Some(d.(progress := d.progress[Key(l.channel, l.tag.secret) :=
              Completed(Or(ProgressOf(d, l.channel, l.tag.secret)), l.tag.bin, d.rows[r].listFrom)]))
  {
    var hits := Hits(d, l, |d.rows|);
    assert Hit(r, l.tag.bin) in hits;
    assert hits[0] in hits;
  }

  /** Older lists are those outside the three hours around now. */
  ghost predicate Older(d: Device, l: Locator) { Asked(d, l) && l.tag.bin !in ListenBins(TimeBin(d.now)) }

  lemma OlderIs(d: Device, l: Locator, r: nat)
    requires DistinctTickets(d) && WellStarted(d) && r < |d.rows| && l.tag.secret == d.rows[r].secret
    ensures Older(d, l)
            <==> !d.rows[r].done && l.channel in d.rows[r].durable && l.tag.bin !in ListenBins(TimeBin(d.now))
                 && d.rows[r].listFrom <= l.tag.bin <= SatAdd(TimeBin(d.now), 1)
                 && !BinComplete(ProgressOf(d, l.channel, l.tag.secret), l.tag.bin)
  {
    var p := ProgressOf(d, l.channel, d.rows[r].secret);
    assert AtLeast(p, d.rows[r].listFrom);
    if RowAsks(d, d.rows[r], l) {
      assert Asked(d, l);
    }
  }

  lemma AcceptedIsWellStarted(d: Device, l: Locator, r: nat)
    requires DistinctTickets(d) && WellStarted(d) && r < |d.rows| && RowHits(d, d.rows[r], l)
    ensures IngestList(d, l).Some? && WellStarted(IngestList(d, l).value)
  {
    AcceptedIs(d, l, r);
    var e := IngestList(d, l).value;
    assert AtLeast(ProgressOf(d, l.channel, d.rows[r].secret), d.rows[r].listFrom);
    RecordKeepsStart(ProgressOf(d, l.channel, l.tag.secret), l.tag.bin, d.rows[r].listFrom);
    forall k, ch | 0 <= k < |e.rows|
      ensures AtLeast(ProgressOf(e, ch, e.rows[k].secret), e.rows[k].listFrom)
    {
      assert AtLeast(ProgressOf(d, ch, d.rows[k].secret), d.rows[k].listFrom);
    }
  }

  /** Accepting an older list takes exactly that list off what is asked for, and the state stays well started. */
  lemma AcceptingShrinks(d: Device, l: Locator, m: Locator)
    requires DistinctTickets(d) && WellStarted(d) && Older(d, l)
    ensures IngestList(d, l).Some?
    ensures var e := IngestList(d, l).value;
            && e.rows == d.rows && e.now == d.now && WellStarted(e)
            && (Older(e, m) <==> Older(d, m) && m != l)
  {
    var r :| 0 <= r < |d.rows| && RowAsks(d, d.rows[r], l);
    AcceptedIs(d, l, r);
    var e := IngestList(d, l).value;
    var p := ProgressOf(d, l.channel, l.tag.secret);
    AcceptedIsWellStarted(d, l, r);
    if k :| 0 <= k < |d.rows| && d.rows[k].secret == m.tag.secret {
      OlderIs(d, m, k);
      OlderIs(e, m, k);
      CompletedIs(p, l.tag.bin, d.rows[r].listFrom, m.tag.bin);
    }
  }

  // ---------------------------------------------------------------- catching up ends

  /** What happens while a device catches up: an older list that was asked for arrives, or a row is finished. */
  datatype Progressed = Arrived(list: Locator) | Finished(row: nat)

  /** A row that has all it needs is not listed any more. */
  function Finish(d: Device, r: nat): Device {
    if r < |d.rows| then d.(rows := d.rows[r := d.rows[r].(done := true)]) else d
  }

  ghost predicate Happens(d: Device, e: Progressed) {
    e.Arrived? ==> Older(d, e.list) && IngestList(d, e.list).Some?
  }

  ghost function Later(d: Device, e: Progressed): Device
    requires Happens(d, e)
  {
    match e
    case Arrived(l) => IngestList(d, l).value
    case Finished(r) => Finish(d, r)
  }

  ghost predicate CatchesUp(d: Device, es: seq<Progressed>)
    decreases |es|
  {
    es == [] || (Happens(d, es[0]) && CatchesUp(Later(d, es[0]), es[1..]))
  }

  ghost function After(d: Device, es: seq<Progressed>): Device
    requires CatchesUp(d, es)
    decreases |es|
  {
    if es == [] then d else After(Later(d, es[0]), es[1..])
  }

  /** How many lists arrived. */
  function Lists(es: seq<Progressed>): nat {
    if es == [] then 0 else (if es[0].Arrived? then 1 else 0) + Lists(es[1..])
  }

  lemma FinishingOnlyRemoves(d: Device, r: nat, m: Locator)
    requires DistinctTickets(d) && WellStarted(d)
    ensures DistinctTickets(Finish(d, r)) && WellStarted(Finish(d, r))
    ensures Older(Finish(d, r), m) ==> Older(d, m)
  {
    var e := Finish(d, r);
    forall k, ch | 0 <= k < |e.rows|
      ensures AtLeast(ProgressOf(e, ch, e.rows[k].secret), e.rows[k].listFrom)
    {
      assert AtLeast(ProgressOf(d, ch, d.rows[k].secret), d.rows[k].listFrom);
    }
    if Older(e, m) {
      var k :| 0 <= k < |e.rows| && RowAsks(e, e.rows[k], m);
      assert RowAsks(d, d.rows[k], m);
    }
  }

  /** The older lists left after one event, and that an arrival is one fewer. */
  lemma OneFewer(d: Device, older: set<Locator>, e: Progressed) returns (left: set<Locator>)
    requires DistinctTickets(d) && WellStarted(d) && Happens(d, e) && forall m :: m in older <==> Older(d, m)
    ensures DistinctTickets(Later(d, e)) && WellStarted(Later(d, e))
    ensures left <= older && forall m :: m in left <==> Older(Later(d, e), m)
    ensures |left| + (if e.Arrived? then 1 else 0) <= |older|
  {
    match e
    case Arrived(l) =>
      left := older - {l};
      AcceptingShrinks(d, l, l);
      forall m
        ensures m in left <==> Older(Later(d, e), m)
      {
        AcceptingShrinks(d, l, m);
      }
    case Finished(r) =>
      left := set m | m in older && Older(Finish(d, r), m);
      FinishingOnlyRemoves(d, r, Locator(0, InviteTag(0, 0)));
      forall m
        ensures m in left <==> Older(Later(d, e), m)
      {
        FinishingOnlyRemoves(d, r, m);
      }
      FewerIn(left, older);
  }

  lemma {:induction false} FewerIn(a: set<Locator>, b: set<Locator>)
    requires a <= b
    ensures |a| <= |b|
  {
    if a != {} {
      var x :| x in a;
      FewerIn(a - {x}, b - {x});
    }
  }

  /**
    * Whatever order older lists arrive in, and whichever rows are finished meanwhile: what is left to ask for is never
    * more than at the start less what arrived. So there are at most as many arrivals as were asked for at the start, and
    * once as many have arrived no older list is asked for any more.
    */
  lemma {:induction false} CatchUpEnds(d: Device, older: set<Locator>, es: seq<Progressed>) returns (left: set<Locator>)
    requires DistinctTickets(d) && WellStarted(d) && CatchesUp(d, es)
    requires forall l :: l in older <==> Older(d, l)
    ensures left <= older && forall m :: m in left <==> Older(After(d, es), m)
    ensures |left| + Lists(es) <= |older|
    ensures Lists(es) == |older| ==> forall m :: !Older(After(d, es), m)
    decreases |es|
  {
    if es == [] {
      left := older;
    } else {
      var next := OneFewer(d, older, es[0]);
      left := CatchUpEnds(Later(d, es[0]), next, es[1..]);
    }
    assert |left| == 0 ==> left == {};
  }

  /** After an accepted list the bin it held counts as listed, so it is not asked for as an older list again. */
  lemma AcceptedIsComplete(d: Device, l: Locator)
    requires DistinctTickets(d) && WellStarted(d) && Older(d, l)
    ensures IngestList(d, l).Some?
    ensures var e := IngestList(d, l).value; BinComplete(ProgressOf(e, l.channel, l.tag.secret), l.tag.bin)
  {
    var r :| 0 <= r < |d.rows| && RowAsks(d, d.rows[r], l);
    AcceptedIs(d, l, r);
    CompletedIs(ProgressOf(d, l.channel, l.tag.secret), l.tag.bin, d.rows[r].listFrom, l.tag.bin);
  }
}
