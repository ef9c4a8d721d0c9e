/** Cutting a packed transaction into the packets that carry it. */
module Fragment {
  import opened Numbers
  import opened Packets
  import opened Tags
  import opened Wrappers

  const PACKET_PAD_LEN: nat := 484
  const MAX_FRAGS: nat := 64

  datatype FragmentError = BodyTooLarge

  /** What stays the same across the fragments of one body. `packedLen` is how long a packet is
      after JSON and compression. */
  datatype Frame = Frame(packedLen: PacketPlain -> nat, actorId: seq<Byte>, txId: Tag, setXor: Tag) {
    predicate Fits(p: PacketPlain) { packedLen(p) <= PACKET_PAD_LEN }

    function Last(packetSeq: U64, fragI: U64, frag: seq<Byte>): PacketPlain {
      TxFragLast(actorId, packetSeq, txId, fragI, frag, setXor)
    }

    function More(packetSeq: U64, fragI: U64, frag: seq<Byte>): PacketPlain {
      TxFragMore(actorId, packetSeq, txId, fragI, frag)
    }

    predicate FillerFits(last: bool, packetSeq: U64, fragI: U64, n: nat) {
      var frag := Fill(0x5a, n);
      Fits(if last then Last(packetSeq, fragI, frag) else More(packetSeq, fragI, frag))
    }
  }

  // ---------------------------------------------------------------- how much fits

  /** Binary search for the largest filler that fits, between `lo` and `hi`. */
  function Search(f: Frame, last: bool, packetSeq: U64, fragI: U64, lo: nat, hi: nat): nat
    requires lo <= hi
    decreases hi - lo, packetSeq
  {
    if lo == hi then lo
    else
      var mid := lo + (hi - lo + 1) / 2;
      if f.FillerFits(last, packetSeq, fragI, mid) then Search(f, last, packetSeq, fragI, mid, hi)
      else Search(f, last, packetSeq, fragI, lo, mid - 1)
  }

  function Largest(f: Frame, last: bool, packetSeq: U64, fragI: U64): nat {
    Search(f, last, packetSeq, fragI, 0, PACKET_PAD_LEN)
  }

  method LargestFrag(f: Frame, last: bool, packetSeq: U64, fragI: U64) returns (n: nat)
    ensures n == Largest(f, last, packetSeq, fragI)
  {
    var lo, hi := 0, PACKET_PAD_LEN;
    ghost var found := Search(f, last, packetSeq, fragI, lo, hi);
    while lo < hi
      invariant lo <= hi
      invariant Search(f, last, packetSeq, fragI, lo, hi) == found
    {
      var mid := lo + (hi - lo + 1) / 2;
      SearchStep(f, last, packetSeq, fragI, lo, hi);
      if f.FillerFits(last, packetSeq, fragI, mid) {
        lo := mid;
      } else {
        hi := mid - 1;
      }
    }
    n := lo;
  }

  /** The filler fits at `r` and does not fit one byte on, as far as the bounds tell. */
  predicate Edge(f: Frame, last: bool, packetSeq: U64, fragI: U64, lo: nat, hi: nat, r: nat) {
    && lo <= r <= hi
    && (r == lo || f.FillerFits(last, packetSeq, fragI, r))
    && (r == hi || !f.FillerFits(last, packetSeq, fragI, r + 1))
  }

  /** The search ends where the filler fits and one byte more does not, whatever fits beyond. */
  lemma {:induction false} SearchEnds(f: Frame, last: bool, packetSeq: U64, fragI: U64, lo: nat, hi: nat)
    requires lo <= hi
    ensures Edge(f, last, packetSeq, fragI, lo, hi, Search(f, last, packetSeq, fragI, lo, hi))
    decreases hi - lo
  {
    if lo < hi {
      var mid := lo + (hi - lo + 1) / 2;
      SearchStep(f, last, packetSeq, fragI, lo, hi);
      if f.FillerFits(last, packetSeq, fragI, mid) {
        SearchEnds(f, last, packetSeq, fragI, mid, hi);
      } else {
        SearchEnds(f, last, packetSeq, fragI, lo, mid - 1);
      }
    }
  }

  lemma SearchStep(f: Frame, last: bool, packetSeq: U64, fragI: U64, lo: nat, hi: nat)
    requires lo < hi
    ensures var mid := lo + (hi - lo + 1) / 2;
            lo < mid <= hi
            && Search(f, last, packetSeq, fragI, lo, hi)
               == if f.FillerFits(last, packetSeq, fragI, mid) then Search(f, last, packetSeq, fragI, mid, hi)
                  else Search(f, last, packetSeq, fragI, lo, mid - 1)
  {
  }

  /** Longer fragments never pack into less. */
  ghost predicate Grows(f: Frame, last: bool, packetSeq: U64, fragI: U64) {
    forall m: nat, n: nat :: m <= n && f.FillerFits(last, packetSeq, fragI, n) ==> f.FillerFits(last, packetSeq, fragI, m)
  }

  /** When packed size grows with length, the search finds exactly the lengths that fit. */
  lemma LargestIsMaximal(f: Frame, last: bool, packetSeq: U64, fragI: U64, n: nat)
    requires Grows(f, last, packetSeq, fragI) && f.FillerFits(last, packetSeq, fragI, 0) && n <= PACKET_PAD_LEN
    ensures f.FillerFits(last, packetSeq, fragI, n) <==> n <= Largest(f, last, packetSeq, fragI)
  {
    SearchEnds(f, last, packetSeq, fragI, 0, PACKET_PAD_LEN);
  }

  // ---------------------------------------------------------------- one fragment

  /** A frame and the room it leaves in each packet, by kind, sequence number and index. */
  datatype Carrier = Carrier(frame: Frame, room: (bool, U64, U64) -> nat) {
    /** The room is what the search finds. */
    ghost predicate Measured() {
      forall l: bool, s: U64, i: U64 {:trigger Largest(frame, l, s, i)} :: Largest(frame, l, s, i) == room(l, s, i)
    }
  }

  function Measure(frame: Frame): (c: Carrier)
    ensures c.frame == frame && c.Measured()
  {
    Carrier(frame, (l: bool, s: U64, i: U64) => Largest(frame, l, s, i))
  }

  function NextFrag(c: Carrier, remaining: seq<Byte>, packetSeq: U64, fragI: U64): (r: Result<(PacketPlain, nat), FragmentError>)
    ensures r.Ok? ==> r.value.1 <= |remaining|
    ensures r.Ok? && r.value.0.TxFragLast? ==> r.value.1 == |remaining|
  {
    if fragI >= MAX_FRAGS then Err(BodyTooLarge)
    else if |remaining| <= c.room(true, packetSeq, fragI) then
      Ok((c.frame.Last(packetSeq, fragI, remaining), |remaining|))
    else
      var maxMore := c.room(false, packetSeq, fragI);
      if maxMore == 0 then Err(BodyTooLarge)
      else
        var take := if |remaining| <= maxMore then |remaining| else maxMore;
        Ok((c.frame.More(packetSeq, fragI, remaining[..take]), take))
  }

  method NextFragment(c: Carrier, remaining: seq<Byte>, packetSeq: U64, fragI: U64)
    returns (r: Result<(PacketPlain, nat), FragmentError>)
    requires c.Measured()
    ensures r == NextFrag(c, remaining, packetSeq, fragI)
  {
    if fragI >= MAX_FRAGS {
      return Err(BodyTooLarge);
    }
    var maxLast := LargestFrag(c.frame, true, packetSeq, fragI);
    if |remaining| <= maxLast {
      return Ok((c.frame.Last(packetSeq, fragI, remaining), |remaining|));
    }
    var maxMore := LargestFrag(c.frame, false, packetSeq, fragI);
    if maxMore == 0 {
      return Err(BodyTooLarge);
    }
    var take := if |remaining| <= maxMore then |remaining| else maxMore;
    return Ok((c.frame.More(packetSeq, fragI, remaining[..take]), take));
  }

  // ---------------------------------------------------------------- the whole body

  /** The packets from fragment `fragI` on. */
  function Fragments(c: Carrier, remaining: seq<Byte>, packetSeq: U64, fragI: nat): (r: Result<seq<PacketPlain>, FragmentError>)
    requires fragI <= MAX_FRAGS
    ensures r.Ok? ==> |r.value| > 0
    decreases MAX_FRAGS - fragI, remaining
  {
    match NextFrag(c, remaining, packetSeq, fragI)
    case Err(e) => Err(e)
    case Ok((packet, n)) =>
      if packet.TxFragLast? then Ok([packet])
      else
        match Fragments(c, remaining[n..], SatAdd(packetSeq, 1), fragI + 1)
        case Err(e) => Err(e)
        case Ok(rest) => Ok([packet] + rest)
  }

  method FragmentBody(c: Carrier, body: seq<Byte>, startSeq: U64)
    returns (r: Result<seq<PacketPlain>, FragmentError>)
    requires c.Measured()
    ensures r == Fragments(c, body, startSeq, 0)
  {
    var remaining := body;
    var packets := [];
    ghost var whole := Fragments(c, body, startSeq, 0);
    assert whole.Ok? ==> [] + whole.value == whole.value;
    while true
      invariant |packets| <= MAX_FRAGS
      invariant whole == Prefixed(packets, Fragments(c, remaining, SatAdd(startSeq, |packets|), |packets|))
      decreases MAX_FRAGS - |packets|
    {
      var packetSeq, fragI := SatAdd(startSeq, |packets|), |packets|;
      FragmentsStep(c, remaining, packetSeq, fragI, packets);
      assert SatAdd(startSeq, fragI + 1) == SatAdd(packetSeq, 1);
      var next := NextFragment(c, remaining, packetSeq, fragI);
      if next.Err? {
        return Err(next.error);
      }
      packets := packets + [next.value.0];
      if next.value.0.TxFragLast? {
        return Ok(packets);
      }
      remaining := remaining[next.value.1..];
    }
  }

  ghost function Prefixed(front: seq<PacketPlain>, rest: Result<seq<PacketPlain>, FragmentError>)
    : Result<seq<PacketPlain>, FragmentError>
  {
    match rest
    case Err(e) => Err(e)
    case Ok(packets) => Ok(front + packets)
  }

  /** One turn of the loop moves one packet from the part still to cut to the part already cut. */
  lemma FragmentsStep(c: Carrier, remaining: seq<Byte>, packetSeq: U64, fragI: nat, front: seq<PacketPlain>)
    requires fragI <= MAX_FRAGS
    ensures var next := NextFrag(c, remaining, packetSeq, fragI);
            Prefixed(front, Fragments(c, remaining, packetSeq, fragI))
            == match next
               case Err(e) => Err(e)
               case Ok((packet, n)) =>
                 if packet.TxFragLast? then Ok(front + [packet])
                 else Prefixed(front + [packet], Fragments(c, remaining[n..], SatAdd(packetSeq, 1), fragI + 1))
  {
    var next := NextFrag(c, remaining, packetSeq, fragI);
    if next.Ok? && !next.value.0.TxFragLast? {
      var (packet, n) := next.value;
      var rest := Fragments(c, remaining[n..], SatAdd(packetSeq, 1), fragI + 1);
      if rest.Ok? {
        assert front + ([packet] + rest.value) == front + [packet] + rest.value;
      }
    }
  }

  /** The bytes the fragments carry, in order. */
  function Carried(packets: seq<PacketPlain>): seq<Byte>
    requires forall i :: 0 <= i < |packets| ==> packets[i].TxFragMore? || packets[i].TxFragLast?
  {
    if packets == [] then [] else packets[0].frag + Carried(packets[1..])
  }

  /** Only the final packet is `Last`, and indices and sequence numbers count up from the first. */
  ghost predicate InOrder(c: Carrier, packets: seq<PacketPlain>, startSeq: U64, from: nat) {
    forall i :: 0 <= i < |packets| ==>
      && packets[i].TxFragLast? == (i == |packets| - 1)
      && packets[i].TxFragMore? == (i < |packets| - 1)
      && packets[i].fragI == from + i
      && packets[i].packetSeq == SatAdd(startSeq, i)
      && packets[i].txId == c.frame.txId && packets[i].actorId == c.frame.actorId
      && (packets[i].TxFragLast? ==> packets[i].setXor == c.frame.setXor)
  }

  lemma {:induction false} FragmentsAreInOrder(c: Carrier, remaining: seq<Byte>, packetSeq: U64, fragI: nat)
    requires fragI <= MAX_FRAGS && Fragments(c, remaining, packetSeq, fragI).Ok?
    ensures InOrder(c, Fragments(c, remaining, packetSeq, fragI).value, packetSeq, fragI)
    ensures fragI + |Fragments(c, remaining, packetSeq, fragI).value| <= MAX_FRAGS
    decreases MAX_FRAGS - fragI
  {
    var packets := Fragments(c, remaining, packetSeq, fragI).value;
    var (packet, n) := NextFrag(c, remaining, packetSeq, fragI).value;
    if !packet.TxFragLast? {
      FragmentsAreInOrder(c, remaining[n..], SatAdd(packetSeq, 1), fragI + 1);
      var rest := Fragments(c, remaining[n..], SatAdd(packetSeq, 1), fragI + 1).value;
      PrependInOrder(c, packet, rest, packetSeq, fragI);
    }
  }

  lemma PrependInOrder(c: Carrier, packet: PacketPlain, rest: seq<PacketPlain>, packetSeq: U64, fragI: U64)
    requires rest != [] && InOrder(c, rest, SatAdd(packetSeq, 1), fragI + 1)
    requires packet.TxFragMore? && packet == c.frame.More(packetSeq, fragI, packet.frag)
    ensures InOrder(c, [packet] + rest, packetSeq, fragI)
  {
    forall i | 1 <= i <= |rest|
      ensures ([packet] + rest)[i] == rest[i - 1] && SatAdd(SatAdd(packetSeq, 1), i - 1) == SatAdd(packetSeq, i)
    {
    }
  }

  lemma {:induction false} FragmentsCarryAll(c: Carrier, remaining: seq<Byte>, packetSeq: U64, fragI: nat)
    requires fragI <= MAX_FRAGS && Fragments(c, remaining, packetSeq, fragI).Ok?
    ensures var packets := Fragments(c, remaining, packetSeq, fragI).value;
            (forall i :: 0 <= i < |packets| ==> packets[i].TxFragMore? || packets[i].TxFragLast?)
            && Carried(packets) == remaining
    decreases MAX_FRAGS - fragI
  {
    var (packet, n) := NextFrag(c, remaining, packetSeq, fragI).value;
    if packet.TxFragLast? {
      assert Carried([packet]) == packet.frag + Carried([]);
    } else {
      FragmentsCarryAll(c, remaining[n..], SatAdd(packetSeq, 1), fragI + 1);
      var rest := Fragments(c, remaining[n..], SatAdd(packetSeq, 1), fragI + 1).value;
      assert ([packet] + rest)[1..] == rest;
    }
  }

  /** Every successful split carries the whole body in order, in at most 64 packets, and uses only
      indices the packet parser accepts: at most 62 on a packet with more to come, 63 on the last. */
  lemma SplitIsComplete(c: Carrier, body: seq<Byte>, startSeq: U64)
    requires Fragments(c, body, startSeq, 0).Ok?
    ensures var packets := Fragments(c, body, startSeq, 0).value;
            && InOrder(c, packets, startSeq, 0) && Carried(packets) == body
            && 1 <= |packets| <= MAX_FRAGS
            && forall i :: 0 <= i < |packets| ==> packets[i].fragI <= if packets[i].TxFragLast? then 63 else 62
  {
    FragmentsAreInOrder(c, body, startSeq, 0);
    FragmentsCarryAll(c, body, startSeq, 0);
  }

  /** The same room in every fragment, whatever its position. */
  ghost predicate EvenRoom(c: Carrier, more: nat, last: nat) {
    forall s: U64, i: U64 :: c.room(true, s, i) == last && c.room(false, s, i) == more
  }

  /** Whether `len` bytes can be split from fragment `fragI` on. */
  predicate CanSplit(len: nat, fragI: nat, more: nat, last: nat)
    decreases MAX_FRAGS - fragI, len
  {
    fragI < MAX_FRAGS
    && (len <= last || (more > 0 && CanSplit(if len <= more then 0 else len - more, fragI + 1, more, last)))
  }

  lemma NextFollowsRoom(c: Carrier, remaining: seq<Byte>, packetSeq: U64, fragI: U64, more: nat, last: nat)
    requires c.room(true, packetSeq, fragI) == last && c.room(false, packetSeq, fragI) == more
    ensures var next := NextFrag(c, remaining, packetSeq, fragI);
            && (next.Ok? <==> fragI < MAX_FRAGS && (|remaining| <= last || more > 0))
            && (next.Ok? ==> next.value.0.TxFragLast? == (|remaining| <= last))
            && (next.Ok? && |remaining| > last ==> next.value.1 == if |remaining| <= more then |remaining| else more)
  {
  }

  lemma {:induction false} SplitFollowsRoom(c: Carrier, remaining: seq<Byte>, packetSeq: U64, fragI: nat, more: nat, last: nat)
    requires EvenRoom(c, more, last) && fragI <= MAX_FRAGS
    ensures Fragments(c, remaining, packetSeq, fragI).Ok? <==> CanSplit(|remaining|, fragI, more, last)
    decreases MAX_FRAGS - fragI
  {
    NextFollowsRoom(c, remaining, packetSeq, fragI, more, last);
    if fragI < MAX_FRAGS && |remaining| > last && more > 0 {
      var take := if |remaining| <= more then |remaining| else more;
      SplitFollowsRoom(c, remaining[take..], SatAdd(packetSeq, 1), fragI + 1, more, last);
    }
  }

  lemma {:induction false} CanSplitExactlyWhen(len: nat, fragI: nat, more: nat, last: nat)
    requires fragI < MAX_FRAGS
    ensures CanSplit(len, fragI, more, last)
            <==> len <= last || (more > 0 && fragI < MAX_FRAGS - 1 && len <= (MAX_FRAGS - 1 - fragI) * more + last)
    decreases MAX_FRAGS - fragI
  {
    if len > last && more > 0 && fragI < MAX_FRAGS - 1 {
      CanSplitExactlyWhen(if len <= more then 0 else len - more, fragI + 1, more, last);
      OneMoreTime(MAX_FRAGS - 1 - fragI, more);
    }
  }

  lemma OneMoreTime(n: nat, m: nat)
    requires n > 0
    ensures n * m == (n - 1) * m + m && (n - 1) * m >= 0
  {
  }

  /** With the same room in every fragment, a body is refused exactly when it exceeds 63 full
      fragments and a last one, or when a fragment with more to come has no room at all. */
  lemma SplitsExactlyWhen(c: Carrier, body: seq<Byte>, startSeq: U64, more: nat, last: nat)
    requires EvenRoom(c, more, last)
    ensures Fragments(c, body, startSeq, 0).Ok? <==> |body| <= last || (more > 0 && |body| <= 63 * more + last)
  {
    SplitFollowsRoom(c, body, startSeq, 0, more, last);
    CanSplitExactlyWhen(|body|, 0, more, last);
  }

  /** Packed size depends on the kind of packet, its numbers and how long the fragment is, not on
      which bytes it holds. */
  ghost predicate LengthOnly(c: Carrier) {
    && (forall s: U64, i: U64, f: seq<Byte>, g: seq<Byte> :: |f| == |g| ==> c.frame.Fits(c.frame.Last(s, i, f)) == c.frame.Fits(c.frame.Last(s, i, g)))
    && (forall s: U64, i: U64, f: seq<Byte>, g: seq<Byte> :: |f| == |g| ==> c.frame.Fits(c.frame.More(s, i, f)) == c.frame.Fits(c.frame.More(s, i, g)))
  }

  /** An empty fragment always fits, and longer fragments never pack into less. */
  ghost predicate RoomGrows(c: Carrier) {
    forall l: bool, s: U64, i: U64 {:trigger Grows(c.frame, l, s, i)} :: Grows(c.frame, l, s, i) && c.frame.FillerFits(l, s, i, 0)
  }

  lemma NextFits(c: Carrier, remaining: seq<Byte>, packetSeq: U64, fragI: U64)
    requires c.Measured() && LengthOnly(c) && NextFrag(c, remaining, packetSeq, fragI).Ok?
    requires RoomGrows(c)
    ensures c.frame.Fits(NextFrag(c, remaining, packetSeq, fragI).value.0)
  {
    var (packet, n) := NextFrag(c, remaining, packetSeq, fragI).value;
    var last := packet.TxFragLast?;
    SearchEnds(c.frame, last, packetSeq, fragI, 0, PACKET_PAD_LEN);
    assert Grows(c.frame, last, packetSeq, fragI);
    assert n <= Largest(c.frame, last, packetSeq, fragI) == c.room(last, packetSeq, fragI);
    assert c.frame.FillerFits(last, packetSeq, fragI, n);
    assert |packet.frag| == |Fill(0x5a, n)|;
  }

  /** Then every packet of a split fits the fixed packet size. */
  lemma {:induction false} EveryPacketFits(c: Carrier, remaining: seq<Byte>, packetSeq: U64, fragI: nat)
    requires c.Measured() && LengthOnly(c)
    requires RoomGrows(c)
    requires fragI <= MAX_FRAGS && Fragments(c, remaining, packetSeq, fragI).Ok?
    ensures forall p :: p in Fragments(c, remaining, packetSeq, fragI).value ==> c.frame.Fits(p)
    decreases MAX_FRAGS - fragI
  {
    NextFits(c, remaining, packetSeq, fragI);
    var (packet, n) := NextFrag(c, remaining, packetSeq, fragI).value;
    if !packet.TxFragLast? {
      EveryPacketFits(c, remaining[n..], SatAdd(packetSeq, 1), fragI + 1);
    }
  }

  /** A packed size that tells the filler from other bytes. */
  function ChoosyLen(p: PacketPlain): nat {
    if (p.TxFragMore? || p.TxFragLast?) && exists i :: 0 <= i < |p.frag| && p.frag[i] != 0x5a then PACKET_PAD_LEN + 1 else 0
  }

  /** Without that assumption a packet need not fit: the search measures a filler, and the fragment is other bytes. */
  lemma FillerCanMislead(actorId: seq<Byte>, tx: Tag, setXor: Tag)
    ensures var c := Measure(Frame(ChoosyLen, actorId, tx, setXor));
            && Fragments(c, [0], 0, 0) == Ok([c.frame.Last(0, 0, [0])])
            && !c.frame.Fits(c.frame.Last(0, 0, [0]))
  {
    var c := Measure(Frame(ChoosyLen, actorId, tx, setXor));
    SearchEnds(c.frame, true, 0, 0, 0, PACKET_PAD_LEN);
    assert c.frame.FillerFits(true, 0, 0, 1);
    assert forall n: nat :: c.frame.FillerFits(true, 0, 0, n);
    assert Largest(c.frame, true, 0, 0) == c.room(true, 0, 0);
    assert [0 as Byte][0] != 0x5a;
  }

  /** The fragments that may be cut as ones with more to come: full ones, and rests too long for a last packet. */
  predicate CutAsMore(c: Carrier, s: U64, i: U64, frag: seq<Byte>) {
    0 < c.room(false, s, i) && |frag| <= c.room(false, s, i)
    && (|frag| == c.room(false, s, i) || |frag| > c.room(true, s, i))
  }

  /** Whatever is cut fits exactly when every fragment that may be cut at this place, of whatever bytes, fits. */
  lemma NextFitsExactlyWhen(c: Carrier, s: U64, i: U64)
    requires i < MAX_FRAGS
    ensures (forall body :: NextFrag(c, body, s, i).Ok? ==> c.frame.Fits(NextFrag(c, body, s, i).value.0))
            <==> (forall frag: seq<Byte> :: |frag| <= c.room(true, s, i) ==> c.frame.Fits(c.frame.Last(s, i, frag)))
                 && (forall frag: seq<Byte> :: CutAsMore(c, s, i, frag) ==> c.frame.Fits(c.frame.More(s, i, frag)))
  {
    if forall body :: NextFrag(c, body, s, i).Ok? ==> c.frame.Fits(NextFrag(c, body, s, i).value.0) {
      forall frag: seq<Byte> | |frag| <= c.room(true, s, i)
        ensures c.frame.Fits(c.frame.Last(s, i, frag))
      {
        assert NextFrag(c, frag, s, i).value.0 == c.frame.Last(s, i, frag);
      }
      forall frag: seq<Byte> | CutAsMore(c, s, i, frag)
        ensures c.frame.Fits(c.frame.More(s, i, frag))
      {
        var body := BodyCutAt(c, s, i, frag);
        assert c.frame.Fits(NextFrag(c, body, s, i).value.0);
      }
    }
  }

  lemma BodyCutAt(c: Carrier, s: U64, i: U64, frag: seq<Byte>) returns (body: seq<Byte>)
    requires i < MAX_FRAGS && CutAsMore(c, s, i, frag)
    ensures NextFrag(c, body, s, i) == Ok((c.frame.More(s, i, frag), |frag|))
  {
    body := if |frag| > c.room(true, s, i) then frag else frag + Fill(0, c.room(true, s, i) + 1);
    assert body[..|frag|] == frag;
  }
}
