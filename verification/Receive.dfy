/** The receiving side of a handshake row: one sender's packets, arriving in any order. */
module Receive {
  import opened Numbers
  import opened Packets
  import opened Tags
  import opened Wrappers
  import opened Chain

  /** The stored receive chain, and the keys skipped on the way to it. */
  datatype RecvState = RecvState(recv: Option<SendChain>, cached: seq<CachedMk>)

  function Live(cached: seq<CachedMk>, now: U64): (r: seq<CachedMk>)
    ensures forall e :: e in r <==> e in cached && e.expiresAt > now
  {
    if cached == [] then []
    else
      var rest := Live(cached[1..], now);
      assert cached == [cached[0]] + cached[1..];
      if cached[0].expiresAt > now then [cached[0]] + rest else rest
  }

  /** Remember which transaction a cached key found. */
  function Annotate(cached: seq<CachedMk>, mk: PacketKey, tx: Tag): (r: seq<CachedMk>)
    ensures |r| == |cached|
    ensures forall i :: 0 <= i < |r| ==> r[i] == if cached[i].mk == mk then cached[i].(txId := Some(tx)) else cached[i]
  {
    seq(|cached|, i requires 0 <= i < |cached| =>
      if cached[i].mk == mk then cached[i].(txId := Some(tx)) else cached[i])
  }

  /** Drop the keys of transactions every actor has acknowledged. */
  function Prune(cached: seq<CachedMk>, acked: set<Tag>): (r: seq<CachedMk>)
    ensures forall e :: e in r <==> e in cached && !(e.txId.Some? && e.txId.value in acked)
  {
    if cached == [] then []
    else
      var rest := Prune(cached[1..], acked);
      assert cached == [cached[0]] + cached[1..];
      if cached[0].txId.Some? && cached[0].txId.value in acked then rest else [cached[0]] + rest
  }

  predicate Ahead(a: SendChain, b: SendChain) {
    a.epoch > b.epoch || (a.epoch == b.epoch && a.packetSeq > b.packetSeq)
  }

  function StartOf(joined: SendChain, st: RecvState): SendChain {
    if st.recv.Some? then st.recv.value else joined
  }

  /** Open from the stored chain, and failing that from the start of the conversation. */
  function OpenFrom(joined: SendChain, st: RecvState, now: U64, body: Body): Option<Opened> {
    var start := StartOf(joined, st);
    var found := OpenAhead(start, Live(st.cached, now), now, body);
    if found.None? && (start.epoch != joined.epoch || start.packetSeq != joined.packetSeq || start.root != joined.root)
    then OpenAhead(joined, Live(st.cached, now), now, body)
    else found
  }

  function AfterOpen(joined: SendChain, st: RecvState, now: U64, o: Opened): RecvState {
    var cached := Live(Live(st.cached, now) + o.skipped, now);
    var recv :=
      if o.fromCache then Some(StartOf(joined, st))
      else if st.recv.None? || Ahead(o.chain, st.recv.value) then Some(o.chain)
      else st.recv;
    RecvState(recv, if o.fromCache && TxOf(o.plain).Some? then Annotate(cached, o.mk, TxOf(o.plain).value) else cached)
  }

  function ReceiveBody(joined: SendChain, st: RecvState, now: U64, body: Body): (RecvState, Option<PacketPlain>) {
    var found := OpenFrom(joined, st, now, body);
    if found.None? then (st, None) else (AfterOpen(joined, st, now, found.value), Some(found.value.plain))
  }

  /** Receive chain and key cache of one handshake row. */
  class RecvRow {
    const joined: SendChain
    var recv: Option<SendChain>
    var skippedMks: seq<CachedMk>

    ghost function State(): RecvState
      reads this
    {
      RecvState(recv, skippedMks)
    }

    constructor (joined: SendChain)
      ensures this.joined == joined && State() == RecvState(None, [])
    {
      this.joined := joined;
      recv := None;
      skippedMks := [];
    }

    method Accept(now: U64, body: Body) returns (plain: Option<PacketPlain>)
      modifies this
      ensures (State(), plain) == ReceiveBody(joined, old(State()), now, body)
    {
      var start := if recv.Some? then recv.value else joined;
      var cached := Live(skippedMks, now);
      var found, trials := OpenSkipAhead(start, cached, now, body);
      if found.None? {
        if start.epoch == joined.epoch && start.packetSeq == joined.packetSeq && start.root == joined.root {
          return None;
        }
        found, trials := OpenSkipAhead(joined, cached, now, body);
        if found.None? {
          return None;
        }
      }
      var o := found.value;
      skippedMks := Live(cached + o.skipped, now);
      if !o.fromCache {
        if recv.None? || Ahead(o.chain, recv.value) {
          recv := Some(o.chain);
        }
      } else if recv.None? {
        recv := Some(start);
      }
      if o.fromCache && TxOf(o.plain).Some? {
        skippedMks := Annotate(skippedMks, o.mk, TxOf(o.plain).value);
      }
      return Some(o.plain);
    }

    method Tick(now: U64)
      modifies this
      ensures State() == old(State()).(cached := Live(old(skippedMks), now))
    {
      skippedMks := Live(skippedMks, now);
    }

    method PruneAcked(acked: set<Tag>)
      modifies this
      ensures State() == old(State()).(cached := Prune(old(skippedMks), acked))
    {
      skippedMks := Prune(skippedMks, acked);
    }
  }

  // ---------------------------------------------------------------- one step

  /** How far along the chain the row has stored. */
  function Pos(st: RecvState): nat {
    if st.recv.None? then 0 else Depth(st.recv.value.c)
  }

  function BodyAt(joined: SendChain, p: nat, plain: PacketPlain): Body {
    Sealed(KeyAt(joined, p), plain)
  }

  /** A key nobody has used yet, good at least until `until`. */
  ghost predicate Kept(cached: seq<CachedMk>, mk: PacketKey, until: nat) {
    exists e :: e in cached && e.mk == mk && e.expiresAt >= until && e.txId == None
  }

  /** A fresh handshake chain, as `Join` makes it. */
  predicate FreshChain(joined: SendChain) {
    Depth(joined.c) == 0 && joined.epoch == 0 && joined.packetSeq == 0
  }

  /** What the sender can know of the row: which positions have opened, when the row last moved past
      each of the others and until when its key is therefore good, and how late it is. */
  datatype Ledger = Ledger(done: set<nat>, due: map<nat, nat>, clock: U64)

  /** Every position passed over has a deadline. Until then its key is there, and none lasts longer. */
  ghost predicate Inv(joined: SendChain, st: RecvState, l: Ledger) {
    && FreshChain(joined)
    && (st.recv.Some? ==> st.recv.value == StepN(joined, Pos(st)))
    && Pos(st) <= U64_MAX
    && (forall p :: p in l.done ==> p < Pos(st))
    && (forall p: nat :: p < Pos(st) && p !in l.done ==> Owed(joined, st.cached, l, p))
    && (forall e :: e in st.cached ==> exists q: nat :: q < Pos(st) && Ends(joined, l, e, q))
    && (forall q :: q in l.due ==> l.due[q] <= SatAdd(l.clock, MK_CACHE_SECS))
  }

  ghost predicate Owed(joined: SendChain, cached: seq<CachedMk>, l: Ledger, p: nat) {
    p in l.due && (l.clock < l.due[p] ==> Kept(cached, KeyAt(joined, p), l.due[p]))
  }

  ghost predicate Ends(joined: SendChain, l: Ledger, e: CachedMk, q: nat) {
    e.mk == KeyAt(joined, q) && q in l.due && e.expiresAt <= l.due[q]
  }

  lemma StartIsStored(joined: SendChain, st: RecvState, l: Ledger)
    requires Inv(joined, st, l)
    ensures StartOf(joined, st) == StepN(joined, Pos(st))
    ensures StepN(joined, Pos(st)).packetSeq == Pos(st)
  {
    StepNFacts(joined, Pos(st));
  }

  lemma KeptFits(cached: seq<CachedMk>, mk: PacketKey, until: nat, now: U64, plain: PacketPlain)
    requires Kept(cached, mk, until) && now < until
    ensures CacheFits(Live(cached, now), now, Sealed(mk, plain))
  {
    var live := Live(cached, now);
    var e :| e in cached && e.mk == mk && e.expiresAt >= until && e.txId == None;
    assert e in live;
    var i :| 0 <= i < |live| && live[i] == e;
    assert Fits(live[i], now, Sealed(mk, plain));
  }

  /** A key that fits belongs to a position the row has passed, whose deadline is still ahead. */
  lemma CachedIsPast(joined: SendChain, st: RecvState, l: Ledger, now: U64, p: nat, plain: PacketPlain)
    requires Inv(joined, st, l) && CacheFits(Live(st.cached, now), now, BodyAt(joined, p, plain))
    ensures p < Pos(st) && p in l.due && now < l.due[p]
  {
    var live := Live(st.cached, now);
    var i :| 0 <= i < |live| && Fits(live[i], now, BodyAt(joined, p, plain));
    assert live[i] in st.cached;
    var q: nat :| q < Pos(st) && Ends(joined, l, live[i], q);
    KeysAreDistinct(joined, p, q);
  }

  /** For a position still owed, a key fits exactly until the deadline. */
  lemma OwedFitsExactlyWhen(joined: SendChain, st: RecvState, l: Ledger, now: U64, p: nat, plain: PacketPlain)
    requires Inv(joined, st, l) && l.clock <= now && p < Pos(st) && p !in l.done
    ensures p in l.due
    ensures CacheFits(Live(st.cached, now), now, BodyAt(joined, p, plain)) <==> now < l.due[p]
  {
    assert Owed(joined, st.cached, l, p);
    if now < l.due[p] {
      KeptFits(st.cached, KeyAt(joined, p), l.due[p], now, plain);
    }
    if CacheFits(Live(st.cached, now), now, BodyAt(joined, p, plain)) {
      CachedIsPast(joined, st, l, now, p, plain);
    }
  }

  /** Which of the searches opens position `p`, by where `p` lies. */
  lemma OpensByPosition(joined: SendChain, st: RecvState, l: Ledger, now: U64, p: nat, plain: PacketPlain)
    requires Inv(joined, st, l)
    ensures var body := BodyAt(joined, p, plain);
            var live := Live(st.cached, now);
            var o := OpenFrom(joined, st, now, body);
            && (CacheFits(live, now, body) ==>
                  p < Pos(st) && o == Some(Opened(plain, StepN(joined, Pos(st)), [], true, body.key)))
            && (!CacheFits(live, now, body) && p >= Pos(st) ==>
                  o == if p <= Pos(st) + SKIP_AHEAD
                       then Some(Opened(plain, StepN(joined, p + 1), SkippedRun(StepN(joined, Pos(st)), p - Pos(st), now), false, body.key))
                       else None)
            && (!CacheFits(live, now, body) && p < Pos(st) ==>
                  o == if p <= SKIP_AHEAD
                       then Some(Opened(plain, StepN(joined, p + 1), SkippedRun(joined, p, now), false, body.key))
                       else None)
  {
    var body := BodyAt(joined, p, plain);
    var live := Live(st.cached, now);
    var n := Pos(st);
    StartIsStored(joined, st, l);
    if CacheFits(live, now, body) {
      CachedIsPast(joined, st, l, now, p, plain);
      CacheIsSearched(StepN(joined, n), live, now, body);
    } else {
      assert StepN(joined, 0) == joined;
      SealedAhead(joined, live, now, body, p);
      if p >= n {
        StepNAdds(joined, n, p - n);
        StepNAdds(joined, n, p - n + 1);
        SealedAhead(StepN(joined, n), live, now, body, p - n);
      } else {
        SealedBehind(joined, n, live, now, body, p);
      }
    }
  }

  /** A key kept before an arrival is still kept after it, unless the arrival used that very key. */
  lemma KeptSurvives(joined: SendChain, st: RecvState, now: U64, o: Opened, mk: PacketKey, until: nat)
    requires now < until && Kept(st.cached, mk, until) && mk != o.mk
    ensures Kept(AfterOpen(joined, st, now, o).cached, mk, until)
  {
    var e :| e in st.cached && e.mk == mk && e.expiresAt >= until && e.txId == None;
    var cached := Live(Live(st.cached, now) + o.skipped, now);
    assert e in cached;
    var i :| 0 <= i < |cached| && cached[i] == e;
    assert AfterOpen(joined, st, now, o).cached[i] == e;
  }

  lemma FreshIsKept(joined: SendChain, st: RecvState, now: U64, o: Opened, e: CachedMk, until: nat)
    requires now < until <= e.expiresAt && e in o.skipped && e.txId == None && !o.fromCache
    ensures Kept(AfterOpen(joined, st, now, o).cached, e.mk, until)
  {
    assert e in AfterOpen(joined, st, now, o).cached;
  }

  /** The keys a walk skipped are kept, fresh, for everything between the two positions. */
  lemma SkippedAreKept(joined: SendChain, st: RecvState, now: U64, o: Opened, from: nat, q: nat, p: nat, until: nat)
    requires now < until <= SatAdd(now, MK_CACHE_SECS) && from <= q < p
    requires o.skipped == SkippedRun(StepN(joined, from), p - from, now) && !o.fromCache
    ensures Kept(AfterOpen(joined, st, now, o).cached, KeyAt(joined, q), until)
  {
    var e := o.skipped[q - from];
    assert e.mk == KeyAt(joined, q) by { StepNAdds(joined, from, q - from); }
    FreshIsKept(joined, st, now, o, e, until);
  }

  lemma CachedComesFrom(joined: SendChain, st: RecvState, now: U64, o: Opened, e: CachedMk)
    requires e in AfterOpen(joined, st, now, o).cached
    ensures (exists f :: f in st.cached && f.mk == e.mk && f.expiresAt == e.expiresAt)
         || (exists f :: f in o.skipped && f.mk == e.mk && f.expiresAt == e.expiresAt)
  {
    var cached := Live(Live(st.cached, now) + o.skipped, now);
    var i :| 0 <= i < |AfterOpen(joined, st, now, o).cached| && AfterOpen(joined, st, now, o).cached[i] == e;
    assert cached[i] in cached && cached[i].mk == e.mk;
  }

  lemma AheadIsFurther(joined: SendChain, m: nat, n: nat)
    requires FreshChain(joined) && m <= U64_MAX && n <= U64_MAX
    ensures Ahead(StepN(joined, m), StepN(joined, n)) <==> m > n
    ensures Depth(StepN(joined, m).c) == m && Depth(StepN(joined, n).c) == n
  {
    StepNFacts(joined, m);
    StepNFacts(joined, n);
  }

  /** The stored chain moves to the opened position only when that is further along. */
  lemma StoredAfter(joined: SendChain, st: RecvState, now: U64, o: Opened, k: nat)
    requires FreshChain(joined) && Pos(st) <= U64_MAX && k <= U64_MAX
    requires st.recv.Some? ==> st.recv.value == StepN(joined, Pos(st))
    requires if o.fromCache then st.recv.Some? else o.chain == StepN(joined, k)
    ensures var after := AfterOpen(joined, st, now, o);
            Pos(after) == (if o.fromCache || k <= Pos(st) then Pos(st) else k)
            && (st.recv.Some? || k > 0 ==> after.recv == Some(StepN(joined, Pos(after))))
  {
    AheadIsFurther(joined, k, Pos(st));
  }

  /** Where the row stands after position `p` opened. */
  lemma PosAfter(joined: SendChain, st: RecvState, l: Ledger, now: U64, p: nat, plain: PacketPlain)
    requires Inv(joined, st, l) && p < U64_MAX
    requires OpenFrom(joined, st, now, BodyAt(joined, p, plain)).Some?
    ensures var after := AfterOpen(joined, st, now, OpenFrom(joined, st, now, BodyAt(joined, p, plain)).value);
            Pos(after) == (if p < Pos(st) then Pos(st) else p + 1)
            && after.recv == Some(StepN(joined, Pos(after)))
  {
    OpensByPosition(joined, st, l, now, p, plain);
    StoredAfter(joined, st, now, OpenFrom(joined, st, now, BodyAt(joined, p, plain)).value, p + 1);
  }

  // ---------------------------------------------------------------- the ledger

  function Span(from: nat, to: nat): (s: set<nat>)
    ensures forall q: nat :: q in s <==> from <= q < to
  {
    if to <= from then {} else Span(from, to - 1) + {to - 1}
  }

  /** Every position from `from` to before `to` gets a new deadline. */
  function Passed(l: Ledger, from: nat, to: nat, deadline: nat): (r: Ledger)
    ensures r.done == l.done && r.clock == l.clock
    ensures forall q: nat :: q in r.due <==> q in l.due || from <= q < to
    ensures forall q: nat :: q in r.due ==> r.due[q] == if from <= q < to then deadline else l.due[q]
  {
    l.(due := map q: nat | q in l.due.Keys + Span(from, to) :: if from <= q < to then deadline else l.due[q])
  }

  /** The ledger after position `p` arrived: what the walk, if there was one, passed over. */
  ghost function Noted(joined: SendChain, st: RecvState, l: Ledger, now: U64, p: nat, plain: PacketPlain): Ledger {
    var late := l.(clock := now);
    var deadline := SatAdd(now, 172_800);
    if CacheFits(Live(st.cached, now), now, BodyAt(joined, p, plain)) then late.(done := late.done + {p})
    else if p >= Pos(st) then
      if p <= Pos(st) + 50 then Passed(late.(done := late.done + {p}), Pos(st), p, deadline) else late
    else if p <= 50 then Passed(late.(done := late.done + {p}), 0, p, deadline)
    else late
  }

  /** When a position that has not opened yet opens: ahead within the window, passed over but not
      yet past its deadline, or early enough to be found from the start of the conversation. */
  predicate OpensNow(st: RecvState, l: Ledger, now: U64, p: nat) {
    if p >= Pos(st) then p <= Pos(st) + 50 else (p in l.due && now < l.due[p]) || p <= 50
  }

  /** One arrival. A position that has not opened yet opens exactly when `OpensNow` says, and the
      ledger goes on telling the truth. */
  lemma Arrival(joined: SendChain, st: RecvState, l: Ledger, now: U64, p: nat, plain: PacketPlain)
    requires Inv(joined, st, l) && l.clock <= now && p < U64_MAX
    ensures var (after, got) := ReceiveBody(joined, st, now, BodyAt(joined, p, plain));
            && (p !in l.done ==> got == if OpensNow(st, l, now, p) then Some(plain) else None)
            && (got.Some? ==> got.value == plain)
            && Pos(after) == (if got.Some? && p >= Pos(st) then p + 1 else Pos(st))
            && Inv(joined, after, Noted(joined, st, l, now, p, plain))
  {
    OpensByPosition(joined, st, l, now, p, plain);
    if p < Pos(st) && p !in l.done {
      OwedFitsExactlyWhen(joined, st, l, now, p, plain);
    }
    if OpenFrom(joined, st, now, BodyAt(joined, p, plain)).Some? {
      PosAfter(joined, st, l, now, p, plain);
      InvAfter(joined, st, l, now, p, plain);
    } else {
      LaterKeeps(joined, st, l, now);
    }
  }

  /** Time passing alone costs nothing that the ledger still promises. */
  lemma LaterKeeps(joined: SendChain, st: RecvState, l: Ledger, now: U64)
    requires Inv(joined, st, l) && l.clock <= now
    ensures Inv(joined, st, l.(clock := now))
  {
    var late := l.(clock := now);
    forall p: nat | p < Pos(st) && p !in l.done
      ensures Owed(joined, st.cached, late, p)
    {
      assert Owed(joined, st.cached, l, p);
    }
    forall e | e in st.cached
      ensures exists q: nat :: q < Pos(st) && Ends(joined, late, e, q)
    {
      var q: nat :| q < Pos(st) && Ends(joined, l, e, q);
      assert Ends(joined, late, e, q);
    }
  }

  lemma InvAfter(joined: SendChain, st: RecvState, l: Ledger, now: U64, p: nat, plain: PacketPlain)
    requires Inv(joined, st, l) && l.clock <= now && p < U64_MAX
    requires OpenFrom(joined, st, now, BodyAt(joined, p, plain)).Some?
    ensures var after := AfterOpen(joined, st, now, OpenFrom(joined, st, now, BodyAt(joined, p, plain)).value);
            Inv(joined, after, Noted(joined, st, l, now, p, plain))
  {
    var after := AfterOpen(joined, st, now, OpenFrom(joined, st, now, BodyAt(joined, p, plain)).value);
    var n := Noted(joined, st, l, now, p, plain);
    assert after.recv == Some(StepN(joined, Pos(after))) && Pos(after) == (if p < Pos(st) then Pos(st) else p + 1) by {
      PosAfter(joined, st, l, now, p, plain);
    }
    assert n.done == l.done + {p} && n.clock == now && (forall q :: q in n.due ==> n.due[q] <= SatAdd(now, MK_CACHE_SECS)) by {
      NotedIs(joined, st, l, now, p, plain);
    }
    assert forall q: nat :: q < Pos(after) && q !in n.done ==> Owed(joined, after.cached, n, q) by {
      OwedIsKept(joined, st, l, now, p, plain);
    }
    assert forall e :: e in after.cached ==> exists q: nat :: q < Pos(after) && Ends(joined, n, e, q) by {
      CachedIsBehind(joined, st, l, now, p, plain);
    }
    HoldsTogether(joined, after, n);
  }

  lemma HoldsTogether(joined: SendChain, st: RecvState, l: Ledger)
    requires FreshChain(joined) && st.recv == Some(StepN(joined, Pos(st))) && Pos(st) <= U64_MAX
    requires forall p :: p in l.done ==> p < Pos(st)
    requires forall p: nat :: p < Pos(st) && p !in l.done ==> Owed(joined, st.cached, l, p)
    requires forall e :: e in st.cached ==> exists q: nat :: q < Pos(st) && Ends(joined, l, e, q)
    requires forall q :: q in l.due ==> l.due[q] <= SatAdd(l.clock, MK_CACHE_SECS)
    ensures Inv(joined, st, l)
  {
  }

  /** Where the walk that opened `p` started, if one did. */
  ghost function WalkFrom(st: RecvState, p: nat): nat { if p >= Pos(st) then Pos(st) else 0 }

  lemma NotedIs(joined: SendChain, st: RecvState, l: Ledger, now: U64, p: nat, plain: PacketPlain)
    requires Inv(joined, st, l) && l.clock <= now
    requires OpenFrom(joined, st, now, BodyAt(joined, p, plain)).Some?
    ensures var o := OpenFrom(joined, st, now, BodyAt(joined, p, plain)).value;
            var n := Noted(joined, st, l, now, p, plain);
            var from := WalkFrom(st, p);
            && n.done == l.done + {p} && n.clock == now
            && o.mk == KeyAt(joined, p)
            && (o.fromCache ==> o.skipped == [] && n.due == l.due)
            && (!o.fromCache ==>
                  && o.skipped == SkippedRun(StepN(joined, from), p - from, now)
                  && n == Passed(l.(clock := now, done := l.done + {p}), from, p, SatAdd(now, MK_CACHE_SECS)))
            && (forall q :: q in l.due ==> q in n.due && l.due[q] <= n.due[q])
            && (forall q :: q in n.due ==> n.due[q] <= SatAdd(now, MK_CACHE_SECS))
  {
    OpensByPosition(joined, st, l, now, p, plain);
    assert StepN(joined, 0) == joined;
  }

  /** After an arrival every position still owed has its key until its deadline. */
  lemma OwedIsKept(joined: SendChain, st: RecvState, l: Ledger, now: U64, p: nat, plain: PacketPlain)
    requires Inv(joined, st, l) && l.clock <= now && p < U64_MAX
    requires OpenFrom(joined, st, now, BodyAt(joined, p, plain)).Some?
    ensures var after := AfterOpen(joined, st, now, OpenFrom(joined, st, now, BodyAt(joined, p, plain)).value);
            var n := Noted(joined, st, l, now, p, plain);
            forall q: nat :: q < Pos(after) && q !in n.done ==> Owed(joined, after.cached, n, q)
  {
    PosAfter(joined, st, l, now, p, plain);
    NotedIs(joined, st, l, now, p, plain);
    var o := OpenFrom(joined, st, now, BodyAt(joined, p, plain)).value;
    var after := AfterOpen(joined, st, now, o);
    var n := Noted(joined, st, l, now, p, plain);
    forall q: nat | q < Pos(after) && q !in n.done
      ensures Owed(joined, after.cached, n, q)
    {
      if !o.fromCache && WalkFrom(st, p) <= q < p {
        NewlyOwed(joined, st, now, o, WalkFrom(st, p), p, q, n);
      } else {
        assert q < Pos(st) && n.due[q] == l.due[q];
        StillOwed(joined, st, l, now, o, p, q, n);
      }
    }
  }

  lemma NewlyOwed(joined: SendChain, st: RecvState, now: U64, o: Opened, from: nat, p: nat, q: nat, n: Ledger)
    requires from <= q < p && !o.fromCache && o.skipped == SkippedRun(StepN(joined, from), p - from, now)
    requires n.clock == now && q in n.due && n.due[q] == SatAdd(now, MK_CACHE_SECS)
    ensures Owed(joined, AfterOpen(joined, st, now, o).cached, n, q)
  {
    if now < n.due[q] {
      SkippedAreKept(joined, st, now, o, from, q, p, n.due[q]);
    }
  }

  lemma StillOwed(joined: SendChain, st: RecvState, l: Ledger, now: U64, o: Opened, p: nat, q: nat, n: Ledger)
    requires Owed(joined, st.cached, l, q) && l.clock <= now && o.mk == KeyAt(joined, p) && q != p
    requires n.clock == now && q in n.due && n.due[q] == l.due[q]
    ensures Owed(joined, AfterOpen(joined, st, now, o).cached, n, q)
  {
    if now < n.due[q] {
      KeysAreDistinct(joined, p, q);
      KeptSurvives(joined, st, now, o, KeyAt(joined, q), l.due[q]);
    }
  }

  /** Every key the row holds belongs to a position it has passed, and lasts no longer than the deadline. */
  lemma CachedIsBehind(joined: SendChain, st: RecvState, l: Ledger, now: U64, p: nat, plain: PacketPlain)
    requires Inv(joined, st, l) && l.clock <= now && p < U64_MAX
    requires OpenFrom(joined, st, now, BodyAt(joined, p, plain)).Some?
    ensures var after := AfterOpen(joined, st, now, OpenFrom(joined, st, now, BodyAt(joined, p, plain)).value);
            var n := Noted(joined, st, l, now, p, plain);
            forall e :: e in after.cached ==> exists q: nat :: q < Pos(after) && Ends(joined, n, e, q)
  {
    PosAfter(joined, st, l, now, p, plain);
    NotedIs(joined, st, l, now, p, plain);
    var o := OpenFrom(joined, st, now, BodyAt(joined, p, plain)).value;
    var after := AfterOpen(joined, st, now, o);
    var n := Noted(joined, st, l, now, p, plain);
    forall e | e in after.cached
      ensures exists q: nat :: q < Pos(after) && Ends(joined, n, e, q)
    {
      var q := KeyIsBehind(joined, st, l, now, o, WalkFrom(st, p), p, n, e);
    }
  }

  /** The position a key in the cache belongs to: one already passed, or one the walk has just passed. */
  lemma KeyIsBehind(joined: SendChain, st: RecvState, l: Ledger, now: U64, o: Opened, from: nat, p: nat, n: Ledger, e: CachedMk)
    returns (q: nat)
    requires Inv(joined, st, l) && e in AfterOpen(joined, st, now, o).cached && from <= p
    requires forall r :: r in l.due ==> r in n.due && l.due[r] <= n.due[r]
    requires o.skipped == [] || (o.skipped == SkippedRun(StepN(joined, from), p - from, now)
                                 && forall r: nat :: from <= r < p ==> r in n.due && n.due[r] == SatAdd(now, MK_CACHE_SECS))
    ensures (q < Pos(st) || q < p) && Ends(joined, n, e, q)
  {
    CachedComesFrom(joined, st, now, o, e);
    if f :| f in st.cached && f.mk == e.mk && f.expiresAt == e.expiresAt {
      q := OldEnds(joined, st, l, n, f);
    } else {
      q := SkippedIsBehind(joined, from, p, now, o.skipped, e);
    }
  }

  lemma OldEnds(joined: SendChain, st: RecvState, l: Ledger, n: Ledger, f: CachedMk) returns (q: nat)
    requires Inv(joined, st, l) && f in st.cached
    requires forall p :: p in l.due ==> p in n.due && l.due[p] <= n.due[p]
    ensures q < Pos(st) && Ends(joined, n, f, q)
  {
    q :| q < Pos(st) && Ends(joined, l, f, q);
  }

  lemma SkippedIsBehind(joined: SendChain, from: nat, p: nat, now: U64, skipped: seq<CachedMk>, e: CachedMk) returns (q: nat)
    requires from <= p && (skipped == [] || skipped == SkippedRun(StepN(joined, from), p - from, now))
    requires exists f :: f in skipped && f.mk == e.mk && f.expiresAt == e.expiresAt
    ensures from <= q < p && e.mk == KeyAt(joined, q) && e.expiresAt == SatAdd(now, MK_CACHE_SECS)
  {
    var i :| 0 <= i < |skipped| && skipped[i].mk == e.mk && skipped[i].expiresAt == e.expiresAt;
    StepNAdds(joined, from, i);
    q := from + i;
  }

  // ---------------------------------------------------------------- whole runs

  datatype Event =
    | Deliver(now: U64, pos: nat)
    | Tick(now: U64)
    | Acked(txs: set<Tag>)

  function Apply(joined: SendChain, plains: nat -> PacketPlain, st: RecvState, e: Event): RecvState {
    match e
    case Deliver(now, pos) => ReceiveBody(joined, st, now, BodyAt(joined, pos, plains(pos))).0
    case Tick(now) => st.(cached := Live(st.cached, now))
    case Acked(txs) => st.(cached := Prune(st.cached, txs))
  }

  ghost function NotedAt(joined: SendChain, plains: nat -> PacketPlain, st: RecvState, l: Ledger, e: Event): Ledger {
    match e
    case Deliver(now, pos) => Noted(joined, st, l, now, pos, plains(pos))
    case Tick(now) => l.(clock := now)
    case Acked(_) => l
  }

  /** The clock never goes back, and positions are those a sender can number. */
  ghost predicate Timely(events: seq<Event>, clock: U64)
    decreases |events|
  {
    events != [] ==>
      match events[0]
      case Deliver(now, pos) => clock <= now && pos < U64_MAX && Timely(events[1..], now)
      case Tick(now) => clock <= now && Timely(events[1..], now)
      case Acked(_) => Timely(events[1..], clock)
  }

  /** Every delivery of a position that has not opened yet opens exactly when `OpensNow` says, and
      the stored position never moves back. */
  ghost predicate OpensExactly(joined: SendChain, plains: nat -> PacketPlain, st: RecvState, l: Ledger, events: seq<Event>)
    decreases |events|
  {
    events != [] ==>
      && (events[0].Deliver? && events[0].pos !in l.done ==>
            ReceiveBody(joined, st, events[0].now, BodyAt(joined, events[0].pos, plains(events[0].pos))).1
              == if OpensNow(st, l, events[0].now, events[0].pos) then Some(plains(events[0].pos)) else None)
      && Pos(Apply(joined, plains, st, events[0])) >= Pos(st)
      && OpensExactly(joined, plains, Apply(joined, plains, st, events[0]),
                      NotedAt(joined, plains, st, l, events[0]), events[1..])
  }

  lemma OneEvent(joined: SendChain, plains: nat -> PacketPlain, st: RecvState, l: Ledger, e: Event)
    requires Inv(joined, st, l) && Timely([e], l.clock)
    ensures OpensExactly(joined, plains, st, l, [e])
    ensures Inv(joined, Apply(joined, plains, st, e), NotedAt(joined, plains, st, l, e))
    ensures e.Acked? || NotedAt(joined, plains, st, l, e).clock == e.now
  {
    match e
    case Deliver(now, pos) => Arrival(joined, st, l, now, pos, plains(pos));
    case Tick(now) => TickKeepsInv(joined, st, l, now);
    case Acked(txs) => PruneKeepsInv(joined, st, l, txs);
  }

  /** Runs of any length, over any stretch of time. */
  lemma {:induction false} RunOpensExactlyWhen(joined: SendChain, plains: nat -> PacketPlain, st: RecvState, l: Ledger,
                                               events: seq<Event>)
    requires Inv(joined, st, l) && Timely(events, l.clock)
    ensures OpensExactly(joined, plains, st, l, events)
    decreases |events|
  {
    if events != [] {
      OneEvent(joined, plains, st, l, events[0]);
      RunOpensExactlyWhen(joined, plains, Apply(joined, plains, st, events[0]),
                          NotedAt(joined, plains, st, l, events[0]), events[1..]);
    }
  }

  lemma TickKeepsInv(joined: SendChain, st: RecvState, l: Ledger, now: U64)
    requires Inv(joined, st, l) && l.clock <= now
    ensures Inv(joined, st.(cached := Live(st.cached, now)), l.(clock := now))
  {
    LaterKeeps(joined, st, l, now);
    var after, late := st.(cached := Live(st.cached, now)), l.(clock := now);
    forall p: nat | p < Pos(st) && p !in l.done
      ensures Owed(joined, after.cached, late, p)
    {
      assert Owed(joined, st.cached, late, p);
      if now < l.due[p] {
        var e :| e in st.cached && e.mk == KeyAt(joined, p) && e.expiresAt >= l.due[p] && e.txId == None;
        assert e in after.cached;
      }
    }
  }

  /** Pruning drops used keys only, so it costs no position still owed. */
  lemma PruneKeepsInv(joined: SendChain, st: RecvState, l: Ledger, txs: set<Tag>)
    requires Inv(joined, st, l)
    ensures Inv(joined, st.(cached := Prune(st.cached, txs)), l)
  {
    var after := st.(cached := Prune(st.cached, txs));
    forall p: nat | p < Pos(st) && p !in l.done
      ensures Owed(joined, after.cached, l, p)
    {
      assert Owed(joined, st.cached, l, p);
      if l.clock < l.due[p] {
        var e :| e in st.cached && e.mk == KeyAt(joined, p) && e.expiresAt >= l.due[p] && e.txId == None;
        assert e in after.cached;
      }
    }
  }

  /** A cached key that opened a transaction is gone once that transaction is acknowledged, so the packet does not open from
      the cache again. */
  lemma UsedKeyIsForgotten(joined: SendChain, st: RecvState, now: U64, body: Body, acked: set<Tag>)
    requires OpenFrom(joined, st, now, body).Some? && OpenFrom(joined, st, now, body).value.fromCache
    requires body.Sealed? && TxOf(body.plain).Some? && TxOf(body.plain).value in acked
    ensures var after := ReceiveBody(joined, st, now, body).0;
            && ReceiveBody(joined, st, now, body).1 == Some(body.plain)
            && (forall e :: e in after.cached && e.mk == body.key ==> e.txId == TxOf(body.plain))
            && (forall e :: e in Prune(after.cached, acked) ==> e.mk != body.key)
            && forall later: U64, start: SendChain :: FromCache(start, Prune(after.cached, acked), later, body).None?
  {
    OpensExactlyWhen(StartOf(joined, st), Live(st.cached, now), now, body);
    OpensExactlyWhen(joined, Live(st.cached, now), now, body);
    var kept := Prune(ReceiveBody(joined, st, now, body).0.cached, acked);
    forall later: U64, start: SendChain
      ensures FromCache(start, kept, later, body).None?
    {
      CacheIsSearched(start, kept, later, body);
    }
  }

  const NOTHING_YET: Ledger := Ledger({}, map[], 0)

  /** From a row that has received nothing, whatever arrives, whenever and in whatever order. */
  lemma AnyOrderOpensExactlyWhen(secret: nat, sort: Sort, plains: nat -> PacketPlain, events: seq<Event>)
    requires !sort.Engine? && Timely(events, 0)
    ensures OpensExactly(Join(secret, sort, []).value, plains, RecvState(None, []), NOTHING_YET, events)
  {
    RunOpensExactlyWhen(Join(secret, sort, []).value, plains, RecvState(None, []), NOTHING_YET, events);
  }

  // ---------------------------------------------------------------- while no cached key has expired

  ghost predicate NoneExpired(cached: seq<CachedMk>, now: U64) { forall e :: e in cached ==> e.expiresAt > now }

  /** No cached key has expired when something arrives, and each packet arrives while it is at most
      50 positions past the stored chain. A key made at the last second of the clock would expire at once. */
  ghost predicate InWindow(joined: SendChain, plains: nat -> PacketPlain, st: RecvState, events: seq<Event>)
    decreases |events|
  {
    events != [] ==>
      && (!events[0].Acked? ==> NoneExpired(st.cached, events[0].now) && events[0].now < U64_MAX)
      && (events[0].Deliver? ==> events[0].pos <= Pos(st) + SKIP_AHEAD)
      && InWindow(joined, plains, Apply(joined, plains, st, events[0]), events[1..])
  }

  function SeenAfter(e: Event, seen: set<nat>): set<nat> {
    if e.Deliver? then seen + {e.pos} else seen
  }

  /** Every packet opens the first time it arrives. */
  ghost predicate FirstDeliveriesOpen(joined: SendChain, plains: nat -> PacketPlain, st: RecvState, events: seq<Event>, seen: set<nat>)
    decreases |events|
  {
    events != [] ==>
      && (events[0].Deliver? && events[0].pos !in seen ==>
            ReceiveBody(joined, st, events[0].now, BodyAt(joined, events[0].pos, plains(events[0].pos))).1
              == Some(plains(events[0].pos)))
      && FirstDeliveriesOpen(joined, plains, Apply(joined, plains, st, events[0]), events[1..], SeenAfter(events[0], seen))
  }

  /** Every position still owed is before its deadline. */
  ghost predicate AllInTime(st: RecvState, l: Ledger, now: U64) {
    forall p: nat :: p < Pos(st) && p !in l.done ==> p in l.due && now < l.due[p]
  }

  lemma UnexpiredIsInTime(joined: SendChain, st: RecvState, l: Ledger, now: U64)
    requires Inv(joined, st, l) && AllInTime(st, l, l.clock) && NoneExpired(st.cached, now)
    ensures AllInTime(st, l, now)
  {
    forall p: nat | p < Pos(st) && p !in l.done
      ensures p in l.due && now < l.due[p]
    {
      assert Owed(joined, st.cached, l, p);
      var e :| e in st.cached && e.mk == KeyAt(joined, p) && e.expiresAt >= l.due[p] && e.txId == None;
      var q: nat :| q < Pos(st) && Ends(joined, l, e, q);
      KeysAreDistinct(joined, p, q);
    }
  }

  lemma StaysInTime(joined: SendChain, plains: nat -> PacketPlain, st: RecvState, l: Ledger, now: U64, p: nat)
    requires Inv(joined, st, l) && l.clock <= now < U64_MAX && p < U64_MAX
    requires AllInTime(st, l, now) && p <= Pos(st) + SKIP_AHEAD
    ensures var e := Deliver(now, p);
            var (after, n) := (Apply(joined, plains, st, e), NotedAt(joined, plains, st, l, e));
            && AllInTime(after, n, now)
            && (p !in l.done ==> ReceiveBody(joined, st, now, BodyAt(joined, p, plains(p))).1 == Some(plains(p)))
            && n.done == l.done + {p}
  {
    Arrival(joined, st, l, now, p, plains(p));
    NotedInTime(joined, st, l, now, p, plains(p));
    ArrivedAt(joined, st, l, now, p, plains(p));
  }

  /** Where the row stands after an arrival within the window. */
  lemma ArrivedAt(joined: SendChain, st: RecvState, l: Ledger, now: U64, p: nat, plain: PacketPlain)
    requires Inv(joined, st, l) && l.clock <= now && p < U64_MAX && p <= Pos(st) + SKIP_AHEAD
    ensures Pos(ReceiveBody(joined, st, now, BodyAt(joined, p, plain)).0) == if p >= Pos(st) then p + 1 else Pos(st)
  {
    Arrival(joined, st, l, now, p, plain);
  }

  lemma NotedInTime(joined: SendChain, st: RecvState, l: Ledger, now: U64, p: nat, plain: PacketPlain)
    requires Inv(joined, st, l) && l.clock <= now < U64_MAX && AllInTime(st, l, now) && p <= Pos(st) + SKIP_AHEAD
    ensures var n := Noted(joined, st, l, now, p, plain);
            && n.done == l.done + {p}
            && forall q: nat :: q < (if p >= Pos(st) then p + 1 else Pos(st)) && q !in n.done ==> q in n.due && now < n.due[q]
  {
    if CacheFits(Live(st.cached, now), now, BodyAt(joined, p, plain)) {
      CachedIsPast(joined, st, l, now, p, plain);
    } else if p < Pos(st) && p !in l.done {
      OwedFitsExactlyWhen(joined, st, l, now, p, plain);
    }
    if p in l.done {
      assert l.done + {p} == l.done;
    }
  }

  /** While no cached key has expired, every first delivery opens, however long the run. */
  lemma {:induction false} RunOpens(joined: SendChain, plains: nat -> PacketPlain, st: RecvState, l: Ledger, events: seq<Event>)
    requires Inv(joined, st, l) && AllInTime(st, l, l.clock) && Timely(events, l.clock)
    requires InWindow(joined, plains, st, events)
    ensures FirstDeliveriesOpen(joined, plains, st, events, l.done)
    decreases |events|
  {
    if events != [] {
      var e := events[0];
      OneEvent(joined, plains, st, l, e);
      if !e.Acked? {
        UnexpiredIsInTime(joined, st, l, e.now);
      }
      if e.Deliver? {
        StaysInTime(joined, plains, st, l, e.now, e.pos);
      }
      RunOpens(joined, plains, Apply(joined, plains, st, e), NotedAt(joined, plains, st, l, e), events[1..]);
    }
  }

  /** One sender's packets from the start, in any order and with repetitions, each at most 50
      positions past the stored chain: every first delivery opens while no cached key has expired. */
  lemma AnyOrderOpens(secret: nat, sort: Sort, plains: nat -> PacketPlain, events: seq<Event>)
    requires !sort.Engine? && Timely(events, 0)
    requires InWindow(Join(secret, sort, []).value, plains, RecvState(None, []), events)
    ensures FirstDeliveriesOpen(Join(secret, sort, []).value, plains, RecvState(None, []), events, {})
  {
    RunOpens(Join(secret, sort, []).value, plains, RecvState(None, []), NOTHING_YET, events);
  }

  /** The row after bodies from anyone have arrived, sealed or forged, at any times. */
  function AfterAll(joined: SendChain, st: RecvState, arrivals: seq<(U64, Body)>): RecvState
    decreases |arrivals|
  {
    if arrivals == [] then st
    else AfterAll(joined, ReceiveBody(joined, st, arrivals[0].0, arrivals[0].1).0, arrivals[1..])
  }

  predicate NotBehind(a: Option<SendChain>, b: Option<SendChain>) {
    b.Some? ==> a.Some? && (a == b || Ahead(a.value, b.value))
  }

  /** Whatever arrives, from whomever, the stored epoch and sequence never move back over a run. */
  lemma {:induction false} NeverMovesBack(joined: SendChain, st: RecvState, arrivals: seq<(U64, Body)>)
    ensures NotBehind(AfterAll(joined, st, arrivals).recv, st.recv)
    decreases |arrivals|
  {
    if arrivals != [] {
      var next := ReceiveBody(joined, st, arrivals[0].0, arrivals[0].1).0;
      assert NotBehind(next.recv, st.recv);
      NeverMovesBack(joined, next, arrivals[1..]);
    }
  }
}
