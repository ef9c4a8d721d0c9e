/** Putting a transaction back together from fragments that arrive in any order. */
module Reassemble {
  import opened Fragment
  import opened Numbers
  import opened Packets
  import opened Tags
  import opened Wrappers

  /** Fragments of one transaction until the whole of it is here. */
  datatype FragSet = FragSet(parts: map<nat, seq<Byte>>, lastI: Option<nat>)

  datatype Part = Part(txId: Tag, fragI: nat, frag: seq<Byte>, last: bool)

  /** What one fragment led to. `B` is a decoded transaction. */
  datatype Outcome<B> = Pending | Stored(body: B) | Repeated | UnlockFailed | Equivocation

  datatype State<B> = State(frags: map<Tag, FragSet>, bodies: map<Tag, B>)

  function PartOf(p: PacketPlain): Option<Part> {
    match p
    case TxFragMore(_, _, txId, fragI, frag) => Some(Part(txId, fragI, frag, false))
    case TxFragLast(_, _, txId, fragI, frag, _) => Some(Part(txId, fragI, frag, true))
    case _ => None
  }

  predicate HasAll(parts: map<nat, seq<Byte>>, n: nat) {
    forall i: nat :: i < n ==> i in parts
  }

  function Joined(parts: map<nat, seq<Byte>>, n: nat): seq<Byte>
    requires HasAll(parts, n)
  {
    if n == 0 then [] else Joined(parts, n - 1) + parts[n - 1]
  }

  predicate Conflicts(set_: FragSet, part: Part) {
    (part.fragI in set_.parts && set_.parts[part.fragI] != part.frag)
    || (part.last && set_.lastI.Some? && set_.lastI.value != part.fragI)
  }

  function WithPart(frags: map<Tag, FragSet>, part: Part): FragSet {
    var held := if part.txId in frags then frags[part.txId] else FragSet(map[], None);
    FragSet(held.parts[part.fragI := part.frag], if part.last then Some(part.fragI) else held.lastI)
  }

  /** One fragment. A conflict is an error, and the caller then drops the state it was changing. */
  function Accept<B(==)>(st: State<B>, decode: seq<Byte> -> Option<B>, part: Part): (State<B>, Outcome<B>) {
    if part.txId in st.frags && Conflicts(st.frags[part.txId], part) then (st, Equivocation)
    else
      var held := WithPart(st.frags, part);
      if held.lastI.None? || !HasAll(held.parts, held.lastI.value + 1) then
        (st.(frags := st.frags[part.txId := held]), Pending)
      else Finish(st, part.txId, decode(Joined(held.parts, held.lastI.value + 1)))
  }

  /** Every fragment is here and has been put together. */
  function Finish<B(==)>(st: State<B>, tx: Tag, decoded: Option<B>): (State<B>, Outcome<B>) {
    var frags := st.frags - {tx};
    match decoded
    case None => (st.(frags := frags), UnlockFailed)
    case Some(body) =>
      if tx !in st.bodies then (State(frags, st.bodies[tx := body]), Stored(body))
      else if st.bodies[tx] == body then (st.(frags := frags), Repeated)
      else (st, Equivocation)
  }

  class FragTable<B(==)> {
    var frags: map<Tag, FragSet>
    var bodies: map<Tag, B>

    ghost function Value(): State<B>
      reads this
    {
      State(frags, bodies)
    }

    constructor ()
      ensures Value() == State(map[], map[])
    {
      frags, bodies := map[], map[];
    }

    method AcceptPart(decode: seq<Byte> -> Option<B>, part: Part) returns (out: Outcome<B>)
      modifies this
      ensures (Value(), out) == Accept(old(Value()), decode, part)
    {
      if part.txId in frags && Conflicts(frags[part.txId], part) {
        return Equivocation;
      }
      var held := WithPart(frags, part);
      if held.lastI.None? {
        frags := frags[part.txId := held];
        return Pending;
      }
      var end := held.lastI.value + 1;
      var n := 0;
      while n < end
        invariant n <= end && HasAll(held.parts, n)
      {
        if n !in held.parts {
          frags := frags[part.txId := held];
          return Pending;
        }
        n := n + 1;
      }
      var packed, m := [], 0;
      while m < end
        invariant m <= end && packed == Joined(held.parts, m)
      {
        packed := packed + held.parts[m];
        m := m + 1;
      }
      var body := decode(packed);
      if body.None? {
        frags := frags - {part.txId};
        return UnlockFailed;
      }
      if part.txId in bodies {
        if bodies[part.txId] != body.value {
          return Equivocation;
        }
        frags := frags - {part.txId};
        return Repeated;
      }
      frags := frags - {part.txId};
      bodies := bodies[part.txId := body.value];
      return Stored(body.value);
    }
  }

  // ---------------------------------------------------------------- one body, any order

  function Concat(pieces: seq<seq<Byte>>): seq<Byte> {
    if pieces == [] then [] else Concat(pieces[..|pieces| - 1]) + pieces[|pieces| - 1]
  }

  function PieceOf(tx: Tag, pieces: seq<seq<Byte>>, i: nat): Part
    requires i < |pieces|
  {
    Part(tx, i, pieces[i], i == |pieces| - 1)
  }

  ghost function AllOf(pieces: seq<seq<Byte>>): set<nat> { UpTo(|pieces|) }

  ghost function UpTo(n: nat): (s: set<nat>)
    ensures forall i: nat :: i in s <==> i < n
  {
    if n == 0 then {} else UpTo(n - 1) + {n - 1}
  }

  /** The table holds exactly the pieces in `seen`. */
  ghost predicate Holds(frags: map<Tag, FragSet>, tx: Tag, pieces: seq<seq<Byte>>, seen: set<nat>) {
    && seen <= AllOf(pieces)
    && (seen == {} ==> tx !in frags)
    && (seen != {} ==>
          && tx in frags
          && frags[tx].parts.Keys == seen
          && (forall i :: i in seen ==> frags[tx].parts[i] == pieces[i])
          && frags[tx].lastI == if |pieces| - 1 in seen then Some(|pieces| - 1) else None)
  }

  lemma {:induction false} JoinedIsConcat(parts: map<nat, seq<Byte>>, pieces: seq<seq<Byte>>)
    requires HasAll(parts, |pieces|) && forall i: nat :: i < |pieces| ==> parts[i] == pieces[i]
    ensures Joined(parts, |pieces|) == Concat(pieces)
  {
    if pieces != [] {
      JoinedIsConcat(parts, pieces[..|pieces| - 1]);
    }
  }

  /** The set after one of our pieces is added to it. */
  lemma PieceIsHeld(frags: map<Tag, FragSet>, tx: Tag, pieces: seq<seq<Byte>>, seen: set<nat>, i: nat)
    requires i < |pieces| && Holds(frags, tx, pieces, seen)
    ensures tx in frags ==> !Conflicts(frags[tx], PieceOf(tx, pieces, i))
    ensures var held := WithPart(frags, PieceOf(tx, pieces, i));
            Holds(frags[tx := held], tx, pieces, seen + {i})
  {
    var held := WithPart(frags, PieceOf(tx, pieces, i));
    assert held.parts.Keys == seen + {i};
  }

  lemma HasAllWhen(held: FragSet, pieces: seq<seq<Byte>>, seen: set<nat>)
    requires held.parts.Keys == seen && seen <= AllOf(pieces)
    ensures HasAll(held.parts, |pieces|) <==> seen == AllOf(pieces)
  {
    if HasAll(held.parts, |pieces|) {
      assert AllOf(pieces) <= seen;
    }
  }

  /** One of our pieces arrives. Nothing completes while an index is missing. The piece that fills
      the last gap completes the body. */
  lemma PieceArrives<B>(st: State<B>, decode: seq<Byte> -> Option<B>, tx: Tag, pieces: seq<seq<Byte>>,
                        body: B, seen: set<nat>, i: nat)
    requires i < |pieces| && seen != AllOf(pieces) && Holds(st.frags, tx, pieces, seen)
    requires decode(Concat(pieces)) == Some(body)
    requires tx in st.bodies ==> st.bodies[tx] == body
    ensures var (after, out) := Accept(st, decode, PieceOf(tx, pieces, i));
            && (seen + {i} != AllOf(pieces) ==>
                  out == Pending && after.bodies == st.bodies && Holds(after.frags, tx, pieces, seen + {i}))
            && (seen + {i} == AllOf(pieces) ==>
                  && out == (if tx in st.bodies then Repeated else Stored(body))
                  && after.bodies == st.bodies[tx := body] && Holds(after.frags, tx, pieces, {}))
  {
    if seen + {i} == AllOf(pieces) {
      LastPiece(st, decode, tx, pieces, body, seen, i);
    } else {
      EarlierPiece(st, decode, tx, pieces, seen, i);
    }
  }

  lemma EarlierPiece<B>(st: State<B>, decode: seq<Byte> -> Option<B>, tx: Tag, pieces: seq<seq<Byte>>, seen: set<nat>, i: nat)
    requires i < |pieces| && Holds(st.frags, tx, pieces, seen) && seen + {i} != AllOf(pieces)
    ensures var (after, out) := Accept(st, decode, PieceOf(tx, pieces, i));
            out == Pending && after.bodies == st.bodies && Holds(after.frags, tx, pieces, seen + {i})
  {
    PieceIsHeld(st.frags, tx, pieces, seen, i);
    HasAllWhen(WithPart(st.frags, PieceOf(tx, pieces, i)), pieces, seen + {i});
  }

  lemma LastPiece<B>(st: State<B>, decode: seq<Byte> -> Option<B>, tx: Tag, pieces: seq<seq<Byte>>,
                     body: B, seen: set<nat>, i: nat)
    requires i < |pieces| && Holds(st.frags, tx, pieces, seen) && seen + {i} == AllOf(pieces)
    requires decode(Concat(pieces)) == Some(body)
    requires tx in st.bodies ==> st.bodies[tx] == body
    ensures var (after, out) := Accept(st, decode, PieceOf(tx, pieces, i));
            && out == (if tx in st.bodies then Repeated else Stored(body))
            && after.bodies == st.bodies[tx := body] && tx !in after.frags
  {
    LastPieceFinishes(st, decode, tx, pieces, seen, i);
    assert tx in st.bodies ==> st.bodies[tx := body] == st.bodies;
  }

  lemma LastPieceFinishes<B>(st: State<B>, decode: seq<Byte> -> Option<B>, tx: Tag, pieces: seq<seq<Byte>>, seen: set<nat>, i: nat)
    requires i < |pieces| && Holds(st.frags, tx, pieces, seen) && seen + {i} == AllOf(pieces)
    ensures Accept(st, decode, PieceOf(tx, pieces, i)) == Finish(st, tx, decode(Concat(pieces)))
  {
    Completes(st.frags, tx, pieces, seen, i);
    CompleteFinishes(st, decode, PieceOf(tx, pieces, i), Concat(pieces));
  }

  lemma CompleteFinishes<B>(st: State<B>, decode: seq<Byte> -> Option<B>, part: Part, packed: seq<Byte>)
    requires part.txId in st.frags ==> !Conflicts(st.frags[part.txId], part)
    requires IsWhole(WithPart(st.frags, part), packed)
    ensures Accept(st, decode, part) == Finish(st, part.txId, decode(packed))
  {
  }

  /** A body that does not decode leaves nothing behind, so it can be sent again from the start. One that contradicts what is
      stored changes nothing. */
  lemma LastPieceRefused<B>(st: State<B>, decode: seq<Byte> -> Option<B>, tx: Tag, pieces: seq<seq<Byte>>, seen: set<nat>, i: nat)
    requires i < |pieces| && Holds(st.frags, tx, pieces, seen) && seen + {i} == AllOf(pieces)
    ensures decode(Concat(pieces)) == None ==>
              Accept(st, decode, PieceOf(tx, pieces, i)) == (State(st.frags - {tx}, st.bodies), UnlockFailed)
    ensures decode(Concat(pieces)).Some? && tx in st.bodies && st.bodies[tx] != decode(Concat(pieces)).value ==>
              Accept(st, decode, PieceOf(tx, pieces, i)) == (st, Equivocation)
  {
    LastPieceFinishes(st, decode, tx, pieces, seen, i);
  }

  /** Every part up to the last one is here, and together they are this. */
  predicate IsWhole(held: FragSet, packed: seq<Byte>) {
    held.lastI.Some? && HasAll(held.parts, held.lastI.value + 1) && Joined(held.parts, held.lastI.value + 1) == packed
  }

  lemma Completes(frags: map<Tag, FragSet>, tx: Tag, pieces: seq<seq<Byte>>, seen: set<nat>, i: nat)
    requires i < |pieces| && Holds(frags, tx, pieces, seen) && seen + {i} == AllOf(pieces)
    ensures tx in frags ==> !Conflicts(frags[tx], PieceOf(tx, pieces, i))
    ensures IsWhole(WithPart(frags, PieceOf(tx, pieces, i)), Concat(pieces))
  {
    var held := WithPart(frags, PieceOf(tx, pieces, i));
    PieceIsHeld(frags, tx, pieces, seen, i);
    HasAllWhen(held, pieces, seen + {i});
    LastIsHere(held, pieces, seen + {i});
  }

  lemma LastIsHere(held: FragSet, pieces: seq<seq<Byte>>, seen: set<nat>)
    requires pieces != [] && seen == AllOf(pieces) && HasAll(held.parts, |pieces|)
    requires forall i :: i in seen ==> held.parts[i] == pieces[i]
    ensures |pieces| - 1 in seen && Joined(held.parts, |pieces|) == Concat(pieces)
  {
    JoinedIsConcat(held.parts, pieces);
  }

  /** A fragment of another transaction leaves ours alone. */
  lemma OtherArrives<B>(st: State<B>, decode: seq<Byte> -> Option<B>, tx: Tag, part: Part)
    requires part.txId != tx
    ensures var after := Accept(st, decode, part).0;
            && (tx in after.frags <==> tx in st.frags) && (tx in st.frags ==> after.frags[tx] == st.frags[tx])
            && (tx in after.bodies <==> tx in st.bodies) && (tx in st.bodies ==> after.bodies[tx] == st.bodies[tx])
  {
  }

  datatype Event = Ours(i: nat) | Other(part: Part)

  function PartAt(tx: Tag, pieces: seq<seq<Byte>>, e: Event): Part
    requires e.Ours? ==> e.i < |pieces|
  {
    if e.Ours? then PieceOf(tx, pieces, e.i) else e.part
  }

  ghost predicate About(tx: Tag, pieces: seq<seq<Byte>>, e: Event) {
    if e.Ours? then e.i < |pieces| else e.part.txId != tx
  }

  /** Which pieces the table holds after a piece: none, once it had them all. */
  ghost function SeenAfter(pieces: seq<seq<Byte>>, seen: set<nat>, e: Event): set<nat> {
    if e.Other? then seen
    else if seen + {e.i} == AllOf(pieces) then {}
    else seen + {e.i}
  }

  /** The first time all pieces are present the body is stored, no earlier and no later. After that
      it never changes, and no arrival of ours is ever an equivocation. */
  ghost predicate Reassembles<B>(st: State<B>, decode: seq<Byte> -> Option<B>, tx: Tag, pieces: seq<seq<Byte>>,
                                 body: B, events: seq<Event>, seen: set<nat>)
    decreases |events|
  {
    events != [] ==>
      && About(tx, pieces, events[0])
      && (var (after, out) := Accept(st, decode, PartAt(tx, pieces, events[0]));
          && (events[0].Ours? ==>
                out == if seen + {events[0].i} != AllOf(pieces) then Pending
                       else if tx in st.bodies then Repeated else Stored(body))
          && (tx in after.bodies <==> tx in st.bodies || (events[0].Ours? && seen + {events[0].i} == AllOf(pieces)))
          && (tx in after.bodies ==> after.bodies[tx] == body)
          && Reassembles(after, decode, tx, pieces, body, events[1..], SeenAfter(pieces, seen, events[0])))
  }

  lemma {:induction false} AnyOrderReassembles<B>(st: State<B>, decode: seq<Byte> -> Option<B>, tx: Tag,
                                                  pieces: seq<seq<Byte>>, body: B, events: seq<Event>, seen: set<nat>)
    requires pieces != [] && seen != AllOf(pieces) && Holds(st.frags, tx, pieces, seen)
    requires decode(Concat(pieces)) == Some(body)
    requires tx in st.bodies ==> st.bodies[tx] == body
    requires forall e :: e in events ==> About(tx, pieces, e)
    ensures Reassembles(st, decode, tx, pieces, body, events, seen)
    decreases |events|
  {
    if events != [] {
      var e := events[0];
      assert About(tx, pieces, e);
      var after := Accept(st, decode, PartAt(tx, pieces, e)).0;
      if e.Ours? {
        PieceArrives(st, decode, tx, pieces, body, seen, e.i);
        assert 0 in AllOf(pieces);
      } else {
        OtherArrives(st, decode, tx, e.part);
      }
      AnyOrderReassembles(after, decode, tx, pieces, body, events[1..], SeenAfter(pieces, seen, e));
    }
  }

  // ---------------------------------------------------------------- from the packets of a split

  function PiecesOf(packets: seq<PacketPlain>): seq<seq<Byte>>
    requires forall i :: 0 <= i < |packets| ==> packets[i].TxFragMore? || packets[i].TxFragLast?
  {
    seq(|packets|, i requires 0 <= i < |packets| => packets[i].frag)
  }

  lemma {:induction false} ConcatFront(x: seq<Byte>, rest: seq<seq<Byte>>)
    ensures Concat([x] + rest) == x + Concat(rest)
  {
    var all := [x] + rest;
    if rest == [] {
      assert all[..0] == [] && all[0] == x;
    } else {
      ConcatFront(x, rest[..|rest| - 1]);
      assert all[..|rest|] == [x] + rest[..|rest| - 1];
    }
  }

  lemma {:induction false} ConcatIsCarried(packets: seq<PacketPlain>)
    requires forall i :: 0 <= i < |packets| ==> packets[i].TxFragMore? || packets[i].TxFragLast?
    ensures Concat(PiecesOf(packets)) == Carried(packets)
  {
    if packets != [] {
      ConcatIsCarried(packets[1..]);
      ConcatFront(packets[0].frag, PiecesOf(packets[1..]));
      assert PiecesOf(packets) == [packets[0].frag] + PiecesOf(packets[1..]);
    }
  }

  /** The packets of any successful split, delivered in any order and any number of times among
      fragments of other transactions, store the body that was split. */
  lemma SplitReassembles<B>(c: Carrier, packed: seq<Byte>, startSeq: U64, decode: seq<Byte> -> Option<B>,
                            body: B, st: State<B>, events: seq<Event>)
    requires Fragments(c, packed, startSeq, 0).Ok? && decode(packed) == Some(body)
    requires c.frame.txId !in st.frags && c.frame.txId !in st.bodies
    requires var packets := Fragments(c, packed, startSeq, 0).value;
             forall e :: e in events ==>
               if e.Ours? then e.i < |packets| else e.part.txId != c.frame.txId
    ensures var packets := Fragments(c, packed, startSeq, 0).value;
            (forall i :: 0 <= i < |packets| ==> packets[i].TxFragMore? || packets[i].TxFragLast?)
            && (forall i :: 0 <= i < |packets| ==>
                  PartOf(packets[i]) == Some(PieceOf(c.frame.txId, PiecesOf(packets), i)))
            && Reassembles(st, decode, c.frame.txId, PiecesOf(packets), body, events, {})
  {
    SplitIsComplete(c, packed, startSeq);
    var packets := Fragments(c, packed, startSeq, 0).value;
    ConcatIsCarried(packets);
    var pieces := PiecesOf(packets);
    assert 0 in AllOf(pieces);
    AnyOrderReassembles(st, decode, c.frame.txId, pieces, body, events, {});
  }

  // ---------------------------------------------------------------- several transmissions of one body

  /** One transmission of a packed body: how it was cut, and the sequence number it started at. */
  datatype Sending = Sending(c: Carrier, startSeq: U64)

  ghost predicate Sends(s: Sending, tx: Tag, packed: seq<Byte>, pieces: seq<seq<Byte>>) {
    && s.c.frame.txId == tx
    && Fragments(s.c, packed, s.startSeq, 0).Ok?
    && (forall p :: p in Fragments(s.c, packed, s.startSeq, 0).value ==> p.TxFragMore? || p.TxFragLast?)
    && PiecesOf(Fragments(s.c, packed, s.startSeq, 0).value) == pieces
  }

  /** Packet `i` of the transmission carries piece `i`. */
  ghost predicate PacketIs(s: Sending, tx: Tag, packed: seq<Byte>, pieces: seq<seq<Byte>>, i: nat)
    requires i < |pieces|
  {
    var r := Fragments(s.c, packed, s.startSeq, 0);
    r.Ok? && i < |r.value| && PartOf(r.value[i]) == Some(PieceOf(tx, pieces, i))
  }

  /** Packets of several transmissions with the same pieces, mixed in any order and with any repetitions, store the
      body that was sent: packet `i` of each is piece `i`, and pieces in any order reassemble. */
  lemma ResendsReassemble<B>(sendings: seq<Sending>, tx: Tag, packed: seq<Byte>, pieces: seq<seq<Byte>>,
                             decode: seq<Byte> -> Option<B>, body: B, st: State<B>, events: seq<Event>)
    requires sendings != [] && forall k :: 0 <= k < |sendings| ==> Sends(sendings[k], tx, packed, pieces)
    requires decode(packed) == Some(body) && tx !in st.frags && tx !in st.bodies
    requires forall e :: e in events ==> About(tx, pieces, e)
    ensures forall k, i :: 0 <= k < |sendings| && 0 <= i < |pieces| ==> PacketIs(sendings[k], tx, packed, pieces, i)
    ensures pieces != [] && Reassembles(st, decode, tx, pieces, body, events, {})
  {
    forall k, i | 0 <= k < |sendings| && 0 <= i < |pieces|
      ensures PacketIs(sendings[k], tx, packed, pieces, i)
    {
      PacketIsPiece(sendings[k], tx, packed, pieces, i);
    }
    var s := sendings[0];
    SplitIsComplete(s.c, packed, s.startSeq);
    ConcatIsCarried(Fragments(s.c, packed, s.startSeq, 0).value);
    assert 0 in AllOf(pieces);
    AnyOrderReassembles(st, decode, tx, pieces, body, events, {});
  }

  lemma PacketIsPiece(s: Sending, tx: Tag, packed: seq<Byte>, pieces: seq<seq<Byte>>, i: nat)
    requires Sends(s, tx, packed, pieces) && i < |pieces|
    ensures PacketIs(s, tx, packed, pieces, i)
  {
    SplitIsComplete(s.c, packed, s.startSeq);
  }

  /** Transmissions that leave the same room in every packet cut the body into the same pieces, wherever they start. */
  lemma {:induction false} EvenRoomSamePieces(c: Carrier, d: Carrier, remaining: seq<Byte>, s: U64, t: U64, fragI: nat, more: nat, last: nat)
    requires EvenRoom(c, more, last) && EvenRoom(d, more, last) && fragI <= MAX_FRAGS
    requires Fragments(c, remaining, s, fragI).Ok?
    ensures Fragments(d, remaining, t, fragI).Ok?
    ensures var p, q := Fragments(c, remaining, s, fragI).value, Fragments(d, remaining, t, fragI).value;
            |p| == |q| && forall i :: 0 <= i < |p| ==>
              && (p[i].TxFragMore? || p[i].TxFragLast?) && (q[i].TxFragMore? || q[i].TxFragLast?) && p[i].frag == q[i].frag
    decreases MAX_FRAGS - fragI
  {
    var (packet, n) := NextFrag(c, remaining, s, fragI).value;
    if !packet.TxFragLast? {
      EvenRoomSamePieces(c, d, remaining[n..], SatAdd(s, 1), SatAdd(t, 1), fragI + 1, more, last);
    }
  }

  /** So a resend in even room may be mixed with the first transmission. */
  lemma EvenResendMixes(c: Carrier, d: Carrier, packed: seq<Byte>, s: U64, t: U64, more: nat, last: nat)
    requires EvenRoom(c, more, last) && EvenRoom(d, more, last) && c.frame.txId == d.frame.txId
    requires Fragments(c, packed, s, 0).Ok?
    ensures forall p :: p in Fragments(c, packed, s, 0).value ==> p.TxFragMore? || p.TxFragLast?
    ensures var pieces := PiecesOf(Fragments(c, packed, s, 0).value);
            Sends(Sending(c, s), c.frame.txId, packed, pieces) && Sends(Sending(d, t), c.frame.txId, packed, pieces)
  {
    EvenRoomSamePieces(c, d, packed, s, t, 0, more, last);
    SplitIsComplete(c, packed, s);
    SplitIsComplete(d, packed, t);
    assert PiecesOf(Fragments(c, packed, s, 0).value) == PiecesOf(Fragments(d, packed, t, 0).value);
  }

  /** A table that holds one piece. */
  function Holding(pieces: seq<seq<Byte>>, i: nat): FragSet
    requires i < |pieces|
  {
    FragSet(map[i := pieces[i]], if i == |pieces| - 1 then Some(i) else None)
  }

  /** Two transmissions mix without a conflict exactly when they have the same pieces. */
  lemma MixExactlyWhen(tx: Tag, p: seq<seq<Byte>>, q: seq<seq<Byte>>)
    requires p != [] && q != []
    ensures (forall i, j :: 0 <= i < |p| && 0 <= j < |q| ==> !Conflicts(Holding(p, i), PieceOf(tx, q, j))) <==> p == q
  {
    if forall i, j :: 0 <= i < |p| && 0 <= j < |q| ==> !Conflicts(Holding(p, i), PieceOf(tx, q, j)) {
      assert !Conflicts(Holding(p, |p| - 1), PieceOf(tx, q, |q| - 1));
      forall i | 0 <= i < |p|
        ensures p[i] == q[i]
      {
        assert !Conflicts(Holding(p, i), PieceOf(tx, q, i));
      }
    }
  }

  // ---------------------------------------------------------------- a resend that conflicts

  /** A packet grows by the fragment it carries and by the digits of its number, and two bytes fit beside one digit. */
  function TightLen(p: PacketPlain): nat {
    if p.TxFragMore? || p.TxFragLast? then PACKET_PAD_LEN - 3 + (if p.packetSeq < 10 then 1 else 2) + |p.frag| else 0
  }

  lemma TightRoom(f: Frame, last: bool, s: U64, i: U64)
    requires f.packedLen == TightLen
    ensures Largest(f, last, s, i) == if s < 10 then 2 else 1
  {
    var room := if s < 10 then 2 else 1;
    assert forall n: nat :: f.FillerFits(last, s, i, n) <==> n <= room;
    SearchEnds(f, last, s, i, 0, PACKET_PAD_LEN);
  }

  /** Sent from number 0, three bytes go out as two and one; sent again from number 10, one by one. */
  lemma TightSplits(c: Carrier)
    requires c.Measured() && c.frame.packedLen == TightLen
    ensures var (p, q) := (Fragments(c, [1, 2, 3], 0, 0), Fragments(c, [1, 2, 3], 10, 0));
            p.Ok? && q.Ok? && p.value[0] == c.frame.More(0, 0, [1, 2]) && q.value[0] == c.frame.More(10, 0, [1])
  {
    var body: seq<Byte> := [1, 2, 3];
    TightNext(c, body, 0, 0);
    TightNext(c, body[2..], 1, 1);
    TightNext(c, body, 10, 0);
    TightNext(c, body[1..], 11, 1);
    TightNext(c, body[1..][1..], 12, 2);
    assert body[..2] == [1, 2] && body[..1] == [1];
  }

  /** The first fragment of that resend conflicts with the first fragment of the first transmission. */
  lemma ResendCanConflict(tx: Tag, st: State<nat>, decode: seq<Byte> -> Option<nat>)
    requires st.frags == map[tx := Holding([[1, 2], [3]], 0)]
    ensures var c := Measure(Frame(TightLen, [], tx, ZERO));
            var resend := Fragments(c, [1, 2, 3], 10, 0);
            && Fragments(c, [1, 2, 3], 0, 0).Ok? && PartOf(Fragments(c, [1, 2, 3], 0, 0).value[0]) == Some(Part(tx, 0, [1, 2], false))
            && resend.Ok? && PartOf(resend.value[0]).Some?
            && Accept(st, decode, PartOf(resend.value[0]).value) == (st, Equivocation)
  {
    TightSplits(Measure(Frame(TightLen, [], tx, ZERO)));
  }

  lemma TightNext(c: Carrier, remaining: seq<Byte>, s: U64, i: U64)
    requires c.Measured() && c.frame.packedLen == TightLen && i < MAX_FRAGS
    ensures var room := if s < 10 then 2 else 1;
            NextFrag(c, remaining, s, i)
            == if |remaining| <= room then Ok((c.frame.Last(s, i, remaining), |remaining|))
               else Ok((c.frame.More(s, i, remaining[..room]), room))
  {
    TightRoom(c.frame, true, s, i);
    TightRoom(c.frame, false, s, i);
    assert Largest(c.frame, true, s, i) == c.room(true, s, i);
    assert Largest(c.frame, false, s, i) == c.room(false, s, i);
  }
}
