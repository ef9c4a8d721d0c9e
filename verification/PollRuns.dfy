/** Polling over whole runs: hours pass, rows finish, reopen and change channels, and lists arrive in any order. */
module PollRuns {
  import opened Bins
  import opened Numbers
  import opened Poll
  import opened Wrappers

  /** Any list may arrive, also one that nobody asked for. */
  datatype Event =
    | Listed(list: Locator)
    | Changed(row: nat, durable: seq<nat>, done: bool)
    | Clock(now: U64)

  function Changing(d: Device, r: nat, durable: seq<nat>, done: bool): Device {
    if r < |d.rows| then d.(rows := d.rows[r := d.rows[r].(durable := durable, done := done)]) else d
  }

  /** A list that no row wants changes nothing, and the clock does not go back. */
  function Next(d: Device, e: Event): Device {
    match e
    case Listed(l) => if IngestList(d, l).Some? then IngestList(d, l).value else d
    case Changed(r, durable, done) => Changing(d, r, durable, done)
    case Clock(now) => if d.now <= now then d.(now := now) else d
  }

  function Run(d: Device, events: seq<Event>): Device
    decreases |events|
  {
    if events == [] then d else Run(Next(d, events[0]), events[1..])
  }

  function AcceptedNow(d: Device, e: Event): set<Locator> {
    if e.Listed? && IngestList(d, e.list).Some? then {e.list} else {}
  }

  /** Every list that is accepted along the run. */
  function Accepted(d: Device, events: seq<Event>): set<Locator>
    decreases |events|
  {
    if events == [] then {} else AcceptedNow(d, events[0]) + Accepted(Next(d, events[0]), events[1..])
  }

  /** For every ticket, from its origin on, a bin is complete exactly when its list was accepted. */
  ghost predicate Remembers(d: Device, accepted: set<Locator>) {
    forall r, ch, bin: U64 {:trigger BinComplete(ProgressOf(d, ch, d.rows[r].secret), bin)} ::
      0 <= r < |d.rows| && d.rows[r].listFrom <= bin ==>
        (BinComplete(ProgressOf(d, ch, d.rows[r].secret), bin) <==> Locator(ch, InviteTag(d.rows[r].secret, bin)) in accepted)
  }

  ghost predicate Sound(d: Device, accepted: set<Locator>) { DistinctTickets(d) && WellStarted(d) && Remembers(d, accepted) }

  lemma ListedKeeps(d: Device, accepted: set<Locator>, l: Locator)
    requires Sound(d, accepted) && IngestList(d, l).Some?
    ensures Sound(IngestList(d, l).value, accepted + {l})
  {
    var hits := Hits(d, l, |d.rows|);
    assert hits[0] in hits;
    var r := hits[0].row;
    AcceptedIs(d, l, r);
    AcceptedIsWellStarted(d, l, r);
    var e := IngestList(d, l).value;
    forall k, ch, bin: U64 | 0 <= k < |e.rows| && e.rows[k].listFrom <= bin
      ensures BinComplete(ProgressOf(e, ch, e.rows[k].secret), bin)
              <==> Locator(ch, InviteTag(e.rows[k].secret, bin)) in accepted + {l}
    {
      assert BinComplete(ProgressOf(d, ch, d.rows[k].secret), bin)
             <==> Locator(ch, InviteTag(d.rows[k].secret, bin)) in accepted;
      if ch == l.channel && e.rows[k].secret == l.tag.secret {
        assert k == r;
        CompletedIs(ProgressOf(d, ch, l.tag.secret), l.tag.bin, d.rows[r].listFrom, bin);
      }
    }
  }

  lemma ChangedKeeps(d: Device, accepted: set<Locator>, r: nat, durable: seq<nat>, done: bool)
    requires Sound(d, accepted)
    ensures Sound(Changing(d, r, durable, done), accepted)
  {
    var e := Changing(d, r, durable, done);
    forall k, ch | 0 <= k < |e.rows|
      ensures AtLeast(ProgressOf(e, ch, e.rows[k].secret), e.rows[k].listFrom)
    {
      assert AtLeast(ProgressOf(d, ch, d.rows[k].secret), d.rows[k].listFrom);
    }
    forall k, ch, bin: U64 | 0 <= k < |e.rows| && e.rows[k].listFrom <= bin
      ensures BinComplete(ProgressOf(e, ch, e.rows[k].secret), bin)
              <==> Locator(ch, InviteTag(e.rows[k].secret, bin)) in accepted
    {
      assert BinComplete(ProgressOf(d, ch, d.rows[k].secret), bin)
             <==> Locator(ch, InviteTag(d.rows[k].secret, bin)) in accepted;
    }
  }

  lemma ClockKeeps(d: Device, accepted: set<Locator>, now: U64)
    requires Sound(d, accepted)
    ensures Sound(d.(now := now), accepted)
  {
    var e := d.(now := now);
    forall k, ch | 0 <= k < |e.rows|
      ensures AtLeast(ProgressOf(e, ch, e.rows[k].secret), e.rows[k].listFrom)
    {
      assert AtLeast(ProgressOf(d, ch, d.rows[k].secret), d.rows[k].listFrom);
    }
    forall k, ch, bin: U64 | 0 <= k < |e.rows| && e.rows[k].listFrom <= bin
      ensures BinComplete(ProgressOf(e, ch, e.rows[k].secret), bin)
              <==> Locator(ch, InviteTag(e.rows[k].secret, bin)) in accepted
    {
      assert BinComplete(ProgressOf(d, ch, d.rows[k].secret), bin)
             <==> Locator(ch, InviteTag(d.rows[k].secret, bin)) in accepted;
    }
  }

  lemma NextKeeps(d: Device, accepted: set<Locator>, e: Event)
    requires Sound(d, accepted)
    ensures Sound(Next(d, e), accepted + AcceptedNow(d, e)) && SameTickets(d, Next(d, e))
  {
    assert accepted + {} == accepted;
    match e
    case Listed(l) =>
      if IngestList(d, l).Some? {
        ListedKeeps(d, accepted, l);
      }
    case Changed(r, durable, done) => ChangedKeeps(d, accepted, r, durable, done);
    case Clock(now) => ClockKeeps(d, accepted, now);
  }

  /** The rows keep their tickets and their origins. */
  ghost predicate SameTickets(d: Device, e: Device) {
    |e.rows| == |d.rows|
    && forall r :: 0 <= r < |d.rows| ==> e.rows[r].secret == d.rows[r].secret && e.rows[r].listFrom == d.rows[r].listFrom
  }

  lemma {:induction false} RunKeeps(d: Device, accepted: set<Locator>, events: seq<Event>)
    requires Sound(d, accepted)
    ensures Sound(Run(d, events), accepted + Accepted(d, events)) && SameTickets(d, Run(d, events))
    decreases |events|
  {
    if events == [] {
      assert accepted + {} == accepted;
    } else {
      var now, next := AcceptedNow(d, events[0]), Next(d, events[0]);
      NextKeeps(d, accepted, events[0]);
      RunKeeps(next, accepted + now, events[1..]);
      assert accepted + now + Accepted(next, events[1..]) == accepted + Accepted(d, events);
    }
  }

  /**
    * Start from rows with tickets of their own and no progress. After any run whatever, an older list from the row's origin
    * to the next hour is asked for exactly while the row is open on that channel and no such list was ever accepted.
    */
  lemma OlderExactlyWhenNeverAccepted(start: Device, events: seq<Event>, r: nat, l: Locator)
    requires DistinctTickets(start) && start.progress == map[] && r < |start.rows| && l.tag.secret == start.rows[r].secret
    ensures var d := Run(start, events);
            && SameTickets(start, d)
            && (Older(d, l)
                <==> && !d.rows[r].done && l.channel in d.rows[r].durable && l.tag.bin !in ListenBins(TimeBin(d.now))
                     && start.rows[r].listFrom <= l.tag.bin <= SatAdd(TimeBin(d.now), 1)
                     && l !in Accepted(start, events))
  {
    RunKeeps(start, {}, events);
    var d := Run(start, events);
    assert {} + Accepted(start, events) == Accepted(start, events);
    assert l == Locator(l.channel, InviteTag(d.rows[r].secret, l.tag.bin));
    OlderIs(d, l, r);
  }

  /**
    * All that is asked for after any run. An open row asks on each of its channels for the hour before this one, for this
    * one and for the next, whatever was accepted, so that packets which come late are still seen. And it asks for every list
    * from its origin to the next hour that was never accepted.
    */
  lemma AskedExactlyWhen(start: Device, events: seq<Event>, r: nat, l: Locator)
    requires DistinctTickets(start) && start.progress == map[] && r < |start.rows| && l.tag.secret == start.rows[r].secret
    ensures var d := Run(start, events);
            && SameTickets(start, d)
            && (Asked(d, l)
                <==> var hour, bin := d.now / 3600, l.tag.bin;
                     && !d.rows[r].done && l.channel in d.rows[r].durable
                     && (bin + 1 == hour || bin == hour || bin == hour + 1
                         || (start.rows[r].listFrom <= bin <= hour + 1 && l !in Accepted(start, events))))
  {
    OlderExactlyWhenNeverAccepted(start, events, r, l);
    RunKeeps(start, {}, events);
    var d := Run(start, events);
    if Asked(d, l) {
      var k :| 0 <= k < |d.rows| && RowAsks(d, d.rows[k], l);
      assert k == r;
    }
    if !d.rows[r].done && l.channel in d.rows[r].durable && l.tag.bin in ListenBins(TimeBin(d.now)) {
      assert RowAsks(d, d.rows[r], l);
    }
  }

  /** So no list is ever asked for as an older one after it was accepted, however the run goes on. */
  lemma NeverAskedAgain(start: Device, before: seq<Event>, l: Locator, after: seq<Event>)
    requires DistinctTickets(start) && start.progress == map[] && IngestList(Run(start, before), l).Some?
    ensures !Older(Run(start, before + [Listed(l)] + after), l)
  {
    var events := before + [Listed(l)] + after;
    AcceptedStays(start, before, l, after);
    RunKeeps(start, {}, events);
    var d := Run(start, events);
    if Older(d, l) {
      var r :| 0 <= r < |d.rows| && RowAsks(d, d.rows[r], l);
      OlderExactlyWhenNeverAccepted(start, events, r, l);
    }
  }

  lemma {:induction false} AcceptedStays(d: Device, before: seq<Event>, l: Locator, after: seq<Event>)
    requires IngestList(Run(d, before), l).Some?
    ensures l in Accepted(d, before + [Listed(l)] + after)
    decreases |before|
  {
    var events := before + [Listed(l)] + after;
    if before == [] {
      assert events[0] == Listed(l);
    } else {
      AcceptedStays(Next(d, before[0]), before[1..], l, after);
      assert events[0] == before[0] && events[1..] == before[1..] + [Listed(l)] + after;
    }
  }

  // ---------------------------------------------------------------- what is taken

  /** The bin a scan starts from is never one that is complete, and bins are hours the clock can reach. */
  ghost predicate Gapped(p: Option<Progress>, listFrom: U64) {
    p.Some? ==>
      && Bins.Next(p.value, listFrom) !in p.value.completed
      && (p.value.watermark.Some? ==> p.value.watermark.value < U64_MAX)
      && forall bin :: bin in p.value.completed ==> bin < U64_MAX
  }

  lemma {:induction false} AdvancedIsGapped(p: Progress, listFrom: U64)
    requires (p.watermark.Some? ==> p.watermark.value < U64_MAX) && forall bin :: bin in p.completed ==> bin < U64_MAX
    ensures Gapped(Some(Advanced(p, listFrom)), listFrom)
    decreases |p.completed|
  {
    var next := Bins.Next(p, listFrom);
    if next in p.completed {
      AdvancedIsGapped(Progress(Some(next), p.completed - {next}), listFrom);
    }
  }

  ghost predicate AllGapped(d: Device) {
    forall r, ch {:trigger ProgressOf(d, ch, d.rows[r].secret)} :: 0 <= r < |d.rows| ==>
      Gapped(ProgressOf(d, ch, d.rows[r].secret), d.rows[r].listFrom)
  }

  lemma NextKeepsGaps(d: Device, accepted: set<Locator>, e: Event)
    requires Sound(d, accepted) && AllGapped(d)
    ensures AllGapped(Next(d, e))
  {
    var n := Next(d, e);
    if e.Listed? && IngestList(d, e.list).Some? {
      var l := e.list;
      var hits := Hits(d, l, |d.rows|);
      assert hits[0] in hits;
      var r := hits[0].row;
      AcceptedIs(d, l, r);
      var q := Or(ProgressOf(d, l.channel, l.tag.secret));
      assert Gapped(ProgressOf(d, l.channel, d.rows[r].secret), d.rows[r].listFrom);
      AdvancedIsGapped(q.(completed := q.completed + {l.tag.bin}), d.rows[r].listFrom);
    }
    forall k, ch | 0 <= k < |n.rows|
      ensures Gapped(ProgressOf(n, ch, n.rows[k].secret), n.rows[k].listFrom)
    {
      assert Gapped(ProgressOf(d, ch, d.rows[k].secret), d.rows[k].listFrom);
    }
  }

  lemma {:induction false} RunKeepsGaps(d: Device, accepted: set<Locator>, events: seq<Event>)
    requires Sound(d, accepted) && AllGapped(d)
    ensures AllGapped(Run(d, events))
    decreases |events|
  {
    if events != [] {
      NextKeepsGaps(d, accepted, events[0]);
      NextKeeps(d, accepted, events[0]);
      RunKeepsGaps(Next(d, events[0]), accepted + AcceptedNow(d, events[0]), events[1..]);
    }
  }

  /** From the origin on, a scan starts at the first bin that is not complete. */
  lemma ScanStartsAtFirstGap(p: Option<Progress>, listFrom: U64, bin: U64)
    requires Gapped(p, listFrom) && AtLeast(p, listFrom)
    ensures CatchUpStart(p, listFrom) <= bin <==> exists b: U64 :: listFrom <= b <= bin && !BinComplete(p, b)
  {
    var start := CatchUpStart(p, listFrom);
    assert listFrom <= start && !BinComplete(p, start);
  }

  /**
    * All that is taken after any run. A list is taken exactly when some row with its ticket has its channel, finished or not, and
    * it is of the three hours around now, or of an hour up to the next with some list from the origin up to it never accepted.
    */
  lemma TakenExactlyWhen(start: Device, events: seq<Event>, r: nat, l: Locator)
    requires DistinctTickets(start) && start.progress == map[] && r < |start.rows| && l.tag.secret == start.rows[r].secret
    ensures var d := Run(start, events);
            && SameTickets(start, d)
            && (IngestList(d, l).Some?
                <==> var hour, bin := d.now / 3600, l.tag.bin;
                     && l.channel in d.rows[r].durable
                     && (bin + 1 == hour || bin == hour || bin == hour + 1
                         || (bin <= hour + 1
                             && exists b: U64 :: start.rows[r].listFrom <= b <= bin
                                                 && Locator(l.channel, InviteTag(l.tag.secret, b)) !in Accepted(start, events))))
  {
    var d := Run(start, events);
    RunKeeps(start, {}, events);
    assert {} + Accepted(start, events) == Accepted(start, events);
    RunKeepsGaps(start, {}, events);
    var p := ProgressOf(d, l.channel, d.rows[r].secret);
    assert Gapped(p, d.rows[r].listFrom) && AtLeast(p, d.rows[r].listFrom);
    ScanStartsAtFirstGap(p, d.rows[r].listFrom, l.tag.bin);
    assert forall b: U64 :: d.rows[r].listFrom <= b ==>
      (BinComplete(p, b) <==> Locator(l.channel, InviteTag(d.rows[r].secret, b)) in Accepted(start, events));
    HitsExactly(d, r, l);
  }

  lemma HitsExactly(d: Device, r: nat, l: Locator)
    requires DistinctTickets(d) && r < |d.rows| && l.tag.secret == d.rows[r].secret
    ensures IngestList(d, l).Some? <==> RowHits(d, d.rows[r], l)
  {
    var hits := Hits(d, l, |d.rows|);
    if RowHits(d, d.rows[r], l) {
      assert Hit(r, l.tag.bin) in hits;
    }
    if hits != [] {
      assert hits[0] in hits;
    }
  }
}
