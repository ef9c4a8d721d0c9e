/** One direction of packet keys, and the bounded search a receiver that fell behind makes.

    Keys are terms. Deriving a key builds a term, so two keys are equal only when they were
    derived from the same key, under the same label, at the same position. */
module Chain {
  import opened Numbers
  import opened Packets
  import opened Tags
  import opened Wrappers

  const SKIP_AHEAD: nat := 50
  const LATER_EPOCHS: nat := 8
  const MK_CACHE_SECS: nat := 172_800

  datatype Sort = HandshakeDm | HandshakeSync | DirectMessage | Group | Synchronization | Engine

  predicate OmitsActor(sort: Sort) { sort.HandshakeDm? || sort.HandshakeSync? }

  datatype ChainRoot = RootOf(secret: nat, sort: Sort, actor: seq<Byte>)

  datatype ChainKey =
    | FirstKey(root: ChainRoot, sort: Sort)
    | NextKey(key: ChainKey, epoch: U64, seqNo: U64)

  datatype PacketKey =
    | MessageKey(c: ChainKey, epoch: U64, seqNo: U64)
    | EphMessageKey(c: ChainKey, epoch: U64, seqNo: U64)

  /** A place in one direction of traffic: which chain, which key, which epoch and number. */
  datatype SendChain = SendChain(root: ChainRoot, c: ChainKey, epoch: U64, packetSeq: U64)

  /** The first place of a chain. The engine log has none, and handshake sides share one. */
  function Join(secret: nat, sort: Sort, actor: seq<Byte>): Option<SendChain> {
    if sort.Engine? then None
    else
      var root := RootOf(secret, sort, if OmitsActor(sort) then [] else actor);
      Some(SendChain(root, FirstKey(root, sort), 0, 0))
  }

  function Mk(chain: SendChain): PacketKey {
    MessageKey(chain.c, chain.epoch, chain.packetSeq)
  }

  function EphMk(chain: SendChain): PacketKey {
    EphMessageKey(chain.c, chain.epoch, chain.packetSeq)
  }

  /** The next place. Its key is derived from this one, under the number this one has. */
  function Step(chain: SendChain): SendChain {
    chain.(c := NextKey(chain.c, chain.epoch, chain.packetSeq), packetSeq := SatAdd(chain.packetSeq, 1))
  }

  function StepN(chain: SendChain, n: nat): SendChain {
    if n == 0 then chain else Step(StepN(chain, n - 1))
  }

  /** The message key of position `p` of a chain. */
  function KeyAt(chain: SendChain, p: nat): PacketKey {
    Mk(StepN(chain, p))
  }

  /** How many steps separate a stepping key from the start of its chain. */
  function Depth(c: ChainKey): nat {
    match c
    case FirstKey(_, _) => 0
    case NextKey(key, _, _) => 1 + Depth(key)
  }

  lemma {:induction false} StepNFacts(chain: SendChain, n: nat)
    ensures Depth(StepN(chain, n).c) == Depth(chain.c) + n
    ensures StepN(chain, n).root == chain.root && StepN(chain, n).epoch == chain.epoch
    ensures StepN(chain, n).packetSeq == SatAdd(chain.packetSeq, n)
  {
    if n > 0 {
      StepNFacts(chain, n - 1);
    }
  }

  lemma {:induction false} StepNAdds(chain: SendChain, m: nat, n: nat)
    ensures StepN(StepN(chain, m), n) == StepN(chain, m + n)
  {
    if n > 0 {
      StepNAdds(chain, m, n - 1);
    }
  }

  /** No two positions of one chain share a message key, even where the sequence saturates. */
  lemma KeysAreDistinct(chain: SendChain, m: nat, n: nat)
    ensures Mk(StepN(chain, m)) == Mk(StepN(chain, n)) <==> m == n
  {
    StepNFacts(chain, m);
    StepNFacts(chain, n);
  }

  /** What a stepping key was first derived from. */
  function Source(c: ChainKey): (ChainRoot, Sort) {
    match c
    case FirstKey(root, sort) => (root, sort)
    case NextKey(key, _, _) => Source(key)
  }

  lemma {:induction false} SourceStays(chain: SendChain, n: nat)
    ensures Source(StepN(chain, n).c) == Source(chain.c)
  {
    if n > 0 {
      SourceStays(chain, n - 1);
    }
  }

  /** Every kind of conversation but the engine's own log has chains. The sides of a handshake share them, and everywhere
      else each sender has its own: two places have the same keys exactly when they are one place of one sender. No key of
      the ephemeral path is ever a key of the durable one. */
  lemma KeysAreTheSendersOwn(secret: nat, sort: Sort, actor: seq<Byte>, m: nat, secret': nat, sort': Sort, actor': seq<Byte>, n: nat)
    ensures Join(secret, sort, actor).None? <==> sort.Engine?
    ensures !sort.Engine? && !sort'.Engine? ==>
              var a, b := StepN(Join(secret, sort, actor).value, m), StepN(Join(secret', sort', actor').value, n);
              var same := secret == secret' && sort == sort' && m == n && (actor == actor' || sort == HandshakeDm || sort == HandshakeSync);
              && (Mk(a) == Mk(b) <==> same)
              && (EphMk(a) == EphMk(b) <==> same)
              && EphMk(a) != Mk(b)
  {
    if !sort.Engine? && !sort'.Engine? {
      var a, b := Join(secret, sort, actor).value, Join(secret', sort', actor').value;
      StepNFacts(a, m);
      StepNFacts(b, n);
      SourceStays(a, m);
      SourceStays(b, n);
      assert m == n && a == b ==> StepN(a, m) == StepN(b, n);
    }
  }

  // ---------------------------------------------------------------- opening

  /** A posted body is either sealed under one key, or nothing any key opens. */
  datatype Body = Sealed(key: PacketKey, plain: PacketPlain) | Garbage

  function OpenPlain(key: PacketKey, body: Body): Option<PacketPlain> {
    if body.Sealed? && body.key == key then Some(body.plain) else None
  }

  /** The key of a place the receiver walked past, with its last second and what it has opened. */
  datatype CachedMk = CachedMk(mk: PacketKey, expiresAt: U64, txId: Option<Tag>)

  datatype Opened = Opened(plain: PacketPlain, chain: SendChain, skipped: seq<CachedMk>, fromCache: bool, mk: PacketKey)

  predicate Fits(entry: CachedMk, now: U64, body: Body) {
    entry.expiresAt > now && OpenPlain(entry.mk, body).Some?
  }

  /** The first live cached key that opens the body. */
  function FromCache(start: SendChain, cached: seq<CachedMk>, now: U64, body: Body): Option<Opened> {
    if cached == [] then None
    else if Fits(cached[0], now, body) then
      Some(Opened(OpenPlain(cached[0].mk, body).value, start, [], true, cached[0].mk))
    else FromCache(start, cached[1..], now, body)
  }

  function SkippedMk(chain: SendChain, now: U64): CachedMk {
    CachedMk(Mk(chain), SatAdd(now, MK_CACHE_SECS), None)
  }

  /** Try `tries` positions from `chain` on, remembering each key that failed. */
  function Walk(chain: SendChain, tries: nat, skipped: seq<CachedMk>, now: U64, body: Body): Option<Opened>
    decreases tries
  {
    if tries == 0 then None
    else if OpenPlain(Mk(chain), body).Some? then
      Some(Opened(OpenPlain(Mk(chain), body).value, Step(chain), skipped, false, Mk(chain)))
    else Walk(Step(chain), tries - 1, skipped + [SkippedMk(chain, now)], now, body)
  }

  /** The stepping key of `start`, labelled with a later epoch. */
  function LaterEpoch(start: SendChain, de: nat, s: U64): SendChain {
    SendChain(start.root, start.c, SatAdd(start.epoch, de), s)
  }

  function Probe(start: SendChain, de: nat, s: U64, body: Body): Option<Opened>
    decreases LATER_EPOCHS - de, SKIP_AHEAD - s
  {
    if de > LATER_EPOCHS then None
    else if s > SKIP_AHEAD then Probe(start, de + 1, 0, body)
    else
      var probe := LaterEpoch(start, de, s);
      if OpenPlain(Mk(probe), body).Some? then
        Some(Opened(OpenPlain(Mk(probe), body).value, Step(probe), [], false, Mk(probe)))
      else Probe(start, de, s + 1, body)
  }

  function OpenAhead(start: SendChain, cached: seq<CachedMk>, now: U64, body: Body): Option<Opened> {
    var hit := FromCache(start, cached, now, body);
    if hit.Some? then hit
    else
      var walked := Walk(start, SKIP_AHEAD + 1, [], now, body);
      if walked.Some? then walked else Probe(start, 1, 0, body)
  }

  /** Cached keys first, then the next 50 positions, then later epochs. `trials` counts the
      bodies it tried to open, and is bounded whatever the body is. */
  method OpenSkipAhead(start: SendChain, cached: seq<CachedMk>, now: U64, body: Body)
    returns (r: Option<Opened>, trials: nat)
    ensures r == OpenAhead(start, cached, now, body)
    ensures trials <= |cached| + 459
  {
    trials := 0;
    for i := 0 to |cached|
      invariant trials <= i
      invariant FromCache(start, cached[i..], now, body) == FromCache(start, cached, now, body)
    {
      assert cached[i..][0] == cached[i] && cached[i..][1..] == cached[i + 1..];
      if cached[i].expiresAt > now {
        trials := trials + 1;
        var plain := OpenPlain(cached[i].mk, body);
        if plain.Some? {
          return Some(Opened(plain.value, start, [], true, cached[i].mk)), trials;
        }
      }
    }
    assert cached[|cached|..] == [];
    var chain, skipped := start, [];
    for n := 0 to SKIP_AHEAD + 1
      invariant trials <= |cached| + n
      invariant Walk(chain, SKIP_AHEAD + 1 - n, skipped, now, body) == Walk(start, SKIP_AHEAD + 1, [], now, body)
    {
      var key := Mk(chain);
      trials := trials + 1;
      var plain := OpenPlain(key, body);
      if plain.Some? {
        return Some(Opened(plain.value, Step(chain), skipped, false, key)), trials;
      }
      skipped := skipped + [SkippedMk(chain, now)];
      chain := Step(chain);
    }
    for de := 1 to LATER_EPOCHS + 1
      invariant trials <= |cached| + 51 * de
      invariant Probe(start, de, 0, body) == Probe(start, 1, 0, body)
    {
      for s := 0 to SKIP_AHEAD + 1
        invariant trials <= |cached| + 51 * de + s
        invariant Probe(start, de, s, body) == Probe(start, 1, 0, body)
      {
        var probe := LaterEpoch(start, de, s);
        trials := trials + 1;
        var plain := OpenPlain(Mk(probe), body);
        if plain.Some? {
          return Some(Opened(plain.value, Step(probe), [], false, Mk(probe))), trials;
        }
      }
    }
    return None, trials;
  }

  // ---------------------------------------------------------------- when it opens

  ghost predicate CacheFits(cached: seq<CachedMk>, now: U64, body: Body) {
    exists i :: 0 <= i < |cached| && Fits(cached[i], now, body)
  }

  ghost predicate WalkFits(start: SendChain, body: Body)
    requires body.Sealed?
  {
    exists d :: 0 <= d <= 50 && body.key == Mk(StepN(start, d))
  }

  /** The stepping key of the stored place, used under a later epoch and any number of it. */
  function LaterKey(start: SendChain, de: nat, s: U64): PacketKey { MessageKey(start.c, SatAdd(start.epoch, de), s) }

  ghost predicate ProbeFits(start: SendChain, body: Body)
    requires body.Sealed?
  {
    exists de, s :: 1 <= de <= 8 && 0 <= s <= 50 && body.key == LaterKey(start, de, s)
  }

  /** The keys passed over on the way to position `d`, in order. */
  function SkippedRun(start: SendChain, d: nat, now: U64): (r: seq<CachedMk>)
    ensures |r| == d && forall i :: 0 <= i < d ==> r[i] == SkippedMk(StepN(start, i), now)
  {
    if d == 0 then [] else SkippedRun(start, d - 1, now) + [SkippedMk(StepN(start, d - 1), now)]
  }

  lemma {:induction false} CacheIsSearched(start: SendChain, cached: seq<CachedMk>, now: U64, body: Body)
    ensures FromCache(start, cached, now, body).Some? <==> CacheFits(cached, now, body)
    ensures CacheFits(cached, now, body) ==>
              FromCache(start, cached, now, body) == Some(Opened(body.plain, start, [], true, body.key))
  {
    if cached != [] {
      CacheIsSearched(start, cached[1..], now, body);
      if Fits(cached[0], now, body) {
      } else if CacheFits(cached, now, body) {
        var i :| 0 <= i < |cached| && Fits(cached[i], now, body);
        assert cached[1..][i - 1] == cached[i];
      }
    }
  }

  /** From `n` steps past the start, the walk reaches position `d` and hands over what it skipped. */
  lemma {:induction false} WalkReaches(start: SendChain, n: nat, tries: nat, d: nat, now: U64, body: Body)
    requires body.Sealed? && body.key == Mk(StepN(start, d)) && n <= d
    ensures Walk(StepN(start, n), tries, SkippedRun(start, n, now), now, body)
            == if d < n + tries
               then Some(Opened(body.plain, StepN(start, d + 1), SkippedRun(start, d, now), false, body.key))
               else None
    decreases tries
  {
    if tries > 0 && n < d {
      KeysAreDistinct(start, n, d);
      WalkReaches(start, n + 1, tries - 1, d, now, body);
    }
  }

  lemma {:induction false} WalkMisses(start: SendChain, n: nat, tries: nat, skipped: seq<CachedMk>, now: U64, body: Body)
    requires forall d :: n <= d < n + tries ==> OpenPlain(Mk(StepN(start, d)), body).None?
    ensures Walk(StepN(start, n), tries, skipped, now, body) == None
    decreases tries
  {
    if tries > 0 {
      assert OpenPlain(Mk(StepN(start, n)), body).None?;
      WalkMisses(start, n + 1, tries - 1, skipped + [SkippedMk(StepN(start, n), now)], now, body);
    }
  }

  lemma {:induction false} ProbeSearches(start: SendChain, de: nat, s: U64, body: Body)
    requires s <= SKIP_AHEAD + 1
    ensures Probe(start, de, s, body).Some? <==>
            body.Sealed? && exists e, t :: de <= e <= 8 && 0 <= t <= 50 && (e == de ==> s <= t) && body.key == LaterKey(start, e, t)
    ensures Probe(start, de, s, body).Some? ==>
              var o := Probe(start, de, s, body).value;
              && o.plain == body.plain && o.mk == body.key && o.skipped == [] && !o.fromCache
              && o.chain == SendChain(start.root, NextKey(body.key.c, body.key.epoch, body.key.seqNo), body.key.epoch,
                                      SatAdd(body.key.seqNo, 1))
    decreases LATER_EPOCHS - de, SKIP_AHEAD - s
  {
    if de > LATER_EPOCHS {
    } else if s > SKIP_AHEAD {
      ProbeSearches(start, de + 1, 0, body);
    } else if OpenPlain(Mk(LaterEpoch(start, de, s)), body).Some? {
      assert body.key == LaterKey(start, de, s);
    } else {
      ProbeSearches(start, de, s + 1, body);
    }
  }

  /** A body opens exactly when a live cached key fits it, it is at most 50 positions ahead, or
      it was sealed by one of the later-epoch keys. Whatever opens it yields what was sealed. */
  lemma OpensExactlyWhen(start: SendChain, cached: seq<CachedMk>, now: U64, body: Body)
    ensures OpenAhead(start, cached, now, body).Some? <==>
            body.Sealed? && (CacheFits(cached, now, body) || WalkFits(start, body) || ProbeFits(start, body))
    ensures OpenAhead(start, cached, now, body).Some? ==>
              OpenAhead(start, cached, now, body).value.plain == body.plain
              && OpenAhead(start, cached, now, body).value.mk == body.key
  {
    CacheIsSearched(start, cached, now, body);
    ProbeSearches(start, 1, 0, body);
    assert StepN(start, 0) == start && SkippedRun(start, 0, now) == [];
    if body.Sealed? && WalkFits(start, body) {
      var d :| 0 <= d <= SKIP_AHEAD && body.key == Mk(StepN(start, d));
      WalkReaches(start, 0, SKIP_AHEAD + 1, d, now, body);
    } else {
      WalkMisses(start, 0, SKIP_AHEAD + 1, [], now, body);
    }
  }

  /** A body sealed `d` steps ahead that no cached key fits opens exactly when `d` is at most 50.
      The receiver then holds the chain one past it, and every key it skipped, in order. */
  lemma SealedAhead(start: SendChain, cached: seq<CachedMk>, now: U64, body: Body, d: nat)
    requires body.Sealed? && body.key == Mk(StepN(start, d))
    requires !CacheFits(cached, now, body)
    ensures OpenAhead(start, cached, now, body)
            == if d <= SKIP_AHEAD
               then Some(Opened(body.plain, StepN(start, d + 1), SkippedRun(start, d, now), false, body.key))
               else None
  {
    CacheIsSearched(start, cached, now, body);
    ProbeSearches(start, 1, 0, body);
    assert StepN(start, 0) == start && SkippedRun(start, 0, now) == [];
    WalkReaches(start, 0, SKIP_AHEAD + 1, d, now, body);
    StepNFacts(start, d);
  }

  /** A body sealed under one of the next eight epochs, at any of its first 51 numbers, opens. The receiver is then in that
      epoch, one past the body, and has skipped nothing. */
  lemma SealedInLaterEpoch(start: SendChain, cached: seq<CachedMk>, now: U64, body: Body, de: nat, s: U64)
    requires body.Sealed? && 1 <= de <= 8 && s <= 50 && start.epoch + de <= U64_MAX
    requires body.key == MessageKey(start.c, start.epoch + de, s) && !CacheFits(cached, now, body)
    ensures OpenAhead(start, cached, now, body)
         == Some(Opened(body.plain, SendChain(start.root, NextKey(start.c, start.epoch + de, s), start.epoch + de, s + 1), [],
                        false, body.key))
  {
    CacheIsSearched(start, cached, now, body);
    ProbeSearches(start, 1, 0, body);
    assert StepN(start, 0) == start && body.key == LaterKey(start, de, s);
    forall d: nat | d <= SKIP_AHEAD
      ensures OpenPlain(Mk(StepN(start, d)), body).None?
    {
      StepNFacts(start, d);
    }
    WalkMisses(start, 0, SKIP_AHEAD + 1, [], now, body);
  }

  /** A body sealed by a key of an earlier position of the same chain opens only from the cache. */
  lemma SealedBehind(first: SendChain, n: nat, cached: seq<CachedMk>, now: U64, body: Body, p: nat)
    requires body.Sealed? && body.key == Mk(StepN(first, p)) && p < n
    requires !CacheFits(cached, now, body)
    ensures OpenAhead(StepN(first, n), cached, now, body) == None
  {
    OpensExactlyWhen(StepN(first, n), cached, now, body);
    StepNFacts(first, p);
    StepNFacts(first, n);
    forall d: nat
      ensures body.key != Mk(StepN(StepN(first, n), d))
    {
      StepNFacts(StepN(first, n), d);
    }
  }
}
