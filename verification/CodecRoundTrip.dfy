/** Packets survive being written, sorted, printed, parsed and read, exactly when they are within the limits. */
module CodecRoundTrip {
  import opened Codec
  import opened Json
  import opened JsonText
  import JsonRoundTrip
  import opened Packets
  import opened Tags
  import opened Wrappers

  // ---------------------------------------------------------------- sorting does not change what a key reads

  lemma {:induction false} FirstOfJoin(a: seq<Member>, b: seq<Member>)
    ensures FirstValues(a + b) == FirstValues(b) + FirstValues(a)
  {
    if a == [] {
      assert a + b == b;
    } else {
      assert (a + b)[1..] == a[1..] + b;
      FirstOfJoin(a[1..], b);
      Override(FirstValues(b), FirstValues(a[1..]), a[0]);
    }
  }

  lemma Override(f: map<string, Json>, g: map<string, Json>, m: Member)
    ensures (f + g)[m.key := m.value] == f + g[m.key := m.value]
  {
  }

  lemma FirstOfOne(m: Member)
    ensures FirstValues([m]) == map[m.key := m.value]
  {
    assert [m][1..] == [];
  }

  lemma FirstOfPush(a: seq<Member>, m: Member)
    ensures FirstValues(a + [m]) == map[m.key := m.value] + FirstValues(a)
  {
    FirstOfJoin(a, [m]);
    FirstOfOne(m);
  }

  lemma Commute(f: map<string, Json>, a: Member, b: Member)
    requires a.key != b.key
    ensures map[a.key := a.value] + (map[b.key := b.value] + f) == map[b.key := b.value] + (map[a.key := a.value] + f)
  {
  }

  lemma {:induction false} FirstOfInsert(sorted: seq<Member>, m: Member)
    ensures FirstValues(Insert(sorted, m)) == map[m.key := m.value] + FirstValues(sorted)
  {
    if sorted == [] {
      FirstOfPush(sorted, m);
      assert sorted + [m] == [m];
    } else {
      var n := |sorted| - 1;
      var front, last := sorted[..n], sorted[n];
      if KeyBefore(m.key, last.key) {
        KeysAreTotal(m.key, last.key);
        FirstOfInsert(front, m);
        FirstOfPush(Insert(front, m), last);
        Commute(FirstValues(front), last, m);
        FirstOfPush(front, last);
        assert sorted == front + [last];
      } else {
        FirstOfPush(sorted, m);
      }
    }
  }

  /** The sort is stable, so even a repeated key reads its first value. */
  lemma {:induction false} FirstOfSorted(ms: seq<Member>)
    ensures FirstValues(Sorted(ms)) == FirstValues(ms)
  {
    if ms != [] {
      var n := |ms| - 1;
      var front, last := ms[..n], ms[n];
      assert ms == front + [last];
      FirstOfSorted(front);
      FirstOfInsert(Sorted(front), last);
      FirstOfPush(front, last);
    }
  }

  // ---------------------------------------------------------------- members of a packet are plain

  predicate Plain(v: Json) { v.Number? || v.Bool? || v.String? || (v.Array? && forall x :: x in v.items ==> x.String?) }

  lemma {:induction false} PlainItems(items: seq<Json>)
    requires forall x :: x in items ==> x.String?
    ensures NormItems(items) == items
  {
    if items != [] {
      PlainItems(items[1..]);
    }
  }

  lemma {:induction false} PlainMembers(ms: seq<Member>)
    requires forall m :: m in ms ==> Plain(m.value)
    ensures NormMembers(ms) == ms
  {
    if ms != [] {
      PlainMembers(ms[1..]);
      assert ms[0] in ms;
      var v := ms[0].value;
      if v.Array? {
        PlainItems(v.items);
      }
      assert Norm(v) == v;
    }
  }

  lemma {:induction false} IdsArePlain(b64: Base64Url, ids: seq<Tag>)
    ensures forall x :: x in Ids(b64, ids) ==> x.String?
  {
    if ids != [] {
      IdsArePlain(b64, ids[1..]);
    }
  }

  lemma FieldsArePlain(b64: Base64Url, p: PacketPlain)
    ensures forall m :: m in Fields(b64, p) ==> Plain(m.value)
  {
    if p.HealWant? || p.HealHave? {
      IdsArePlain(b64, p.ids);
    }
  }

  lemma HeaderIsPlain(b64: Base64Url, p: PacketPlain)
    ensures forall m :: m in Header(b64, p) ==> Plain(m.value)
  {
  }

  lemma PlainJoin(a: seq<Member>, b: seq<Member>)
    requires (forall m :: m in a ==> Plain(m.value)) && forall m :: m in b ==> Plain(m.value)
    ensures forall m :: m in a + b ==> Plain(m.value)
  {
  }

  /** What the parser yields for printed plain members: the same members, sorted. */
  lemma PlainPrints(ms: seq<Member>)
    requires forall m :: m in ms ==> Plain(m.value)
    ensures Decode(Encode(Object(ms))) == Some(Object(Sorted(ms)))
  {
    PlainMembers(ms);
    JsonRoundTrip.EncodeThenDecode(Object(ms));
  }

  lemma PrintedPacket(b64: Base64Url, p: PacketPlain)
    ensures Decode(Encode(ToJson(b64, p))) == Some(Object(Sorted(Header(b64, p) + Fields(b64, p))))
  {
    HeaderIsPlain(b64, p);
    FieldsArePlain(b64, p);
    PlainJoin(Header(b64, p), Fields(b64, p));
    PlainPrints(Header(b64, p) + Fields(b64, p));
  }

  // ---------------------------------------------------------------- reading back what was written

  lemma {:induction false} IdsRead(b64: Base64Url, ids: seq<Tag>)
    requires b64.RoundTrips()
    ensures ReadIds(b64, Ids(b64, ids)) == Some(ids)
  {
    if ids != [] {
      IdsRead(b64, ids[1..]);
      assert Ids(b64, ids)[1..] == Ids(b64, ids[1..]);
      assert [ids[0]] + ids[1..] == ids;
    }
  }

  /** A list of fields holds `m`, and what follows holds only other keys or is overridden. */
  lemma FirstOfCons(m: Member, rest: seq<Member>)
    ensures FirstValues([m] + rest) == FirstValues(rest)[m.key := m.value]
  {
    assert ([m] + rest)[1..] == rest;
  }

  lemma HeaderReads(b64: Base64Url, p: PacketPlain)
    ensures FirstValues(Header(b64, p))
         == map["type" := String(TypeName(p)), "version" := Number(1),
                "actor_id" := Bytes(b64, p.actorId), "packet_seq" := Number(p.packetSeq)]
  {
    FourReads(Member("type", String(TypeName(p))), Member("version", Number(1)),
      Member("actor_id", Bytes(b64, p.actorId)), Member("packet_seq", Number(p.packetSeq)));
  }

  lemma TwoReads(a: Member, b: Member)
    ensures FirstValues([a, b]) == map[b.key := b.value][a.key := a.value]
  {
    FirstOfOne(b);
    FirstOfCons(a, [b]);
    assert [a] + [b] == [a, b];
  }

  lemma ThreeReads(a: Member, b: Member, c: Member)
    ensures FirstValues([a, b, c]) == map[c.key := c.value][b.key := b.value][a.key := a.value]
  {
    TwoReads(b, c);
    FirstOfCons(a, [b, c]);
    assert [a] + [b, c] == [a, b, c];
  }

  lemma FourReads(a: Member, b: Member, c: Member, d: Member)
    ensures FirstValues([a, b, c, d]) == map[d.key := d.value][c.key := c.value][b.key := b.value][a.key := a.value]
  {
    ThreeReads(b, c, d);
    FirstOfCons(a, [b, c, d]);
    assert [a] + [b, c, d] == [a, b, c, d];
  }

  /** Everything a written packet shows its reader. */
  function Seen(b64: Base64Url, p: PacketPlain): map<string, Json> {
    FirstValues(Header(b64, p) + Fields(b64, p))
  }

  lemma SeenHeader(b64: Base64Url, p: PacketPlain)
    ensures Seen(b64, p) == FirstValues(Fields(b64, p)) + FirstValues(Header(b64, p))
  {
    FirstOfJoin(Header(b64, p), Fields(b64, p));
  }

  /** The keys are pairwise different; most differ in length. */
  lemma KeysDiffer()
    ensures "type" != "frag" && "version" != "set_xor" && "lo" != "hi" && "xor" != "ids"
  {
    assert "type"[0] == 't' && "frag"[0] == 'f';
    assert "version"[0] == 'v' && "set_xor"[0] == 's';
    assert "lo"[0] == 'l' && "hi"[0] == 'h';
  }

  lemma HeaderSeen(b64: Base64Url, p: PacketPlain)
    requires b64.RoundTrips()
    ensures GetU64(Seen(b64, p), "version") == Some(1)
    ensures GetStr(Seen(b64, p), "type") == Some(TypeName(p))
    ensures GetBytes(b64, Seen(b64, p), "actor_id") == Some(p.actorId)
    ensures GetU64(Seen(b64, p), "packet_seq") == Some(p.packetSeq)
  {
    SeenHeader(b64, p);
    HeaderReads(b64, p);
    assert |"version"| == 7 && |"type"| == 4 && |"actor_id"| == 8 && |"packet_seq"| == 10;
  }

  lemma SeenKeys(b64: Base64Url, p: PacketPlain)
    ensures Seen(b64, p).Keys == FirstValues(Fields(b64, p)).Keys + HEADER
    ensures forall k :: k in FirstValues(Fields(b64, p)) && k !in HEADER ==> Seen(b64, p)[k] == FirstValues(Fields(b64, p))[k]
  {
    SeenHeader(b64, p);
    HeaderReads(b64, p);
  }

  lemma MoreReads(b64: Base64Url, p: PacketPlain)
    requires b64.RoundTrips() && p.TxFragMore?
    ensures ReadMore(b64, Seen(b64, p), p.actorId, p.packetSeq) == if Legal(p) then Some(p) else None
  {
    SeenKeys(b64, p);
    KeysDiffer();
    ThreeReads(Member("tx_id", Bytes(b64, p.txId)), Member("frag_i", Number(p.fragI)), Member("frag", Bytes(b64, p.frag)));
  }

  lemma LastReads(b64: Base64Url, p: PacketPlain)
    requires b64.RoundTrips() && p.TxFragLast?
    ensures ReadLast(b64, Seen(b64, p), p.actorId, p.packetSeq) == if Legal(p) then Some(p) else None
  {
    LastSeen(b64, p);
  }

  lemma LastSeen(b64: Base64Url, p: PacketPlain)
    requires p.TxFragLast?
    ensures var f := Seen(b64, p);
            && f.Keys == HEADER + {"tx_id", "frag_i", "frag", "set_xor"} && f["tx_id"] == Bytes(b64, p.txId)
            && f["frag_i"] == Number(p.fragI) && f["frag"] == Bytes(b64, p.frag) && f["set_xor"] == Bytes(b64, p.setXor)
  {
    SeenKeys(b64, p);
    KeysDiffer();
    FourReads(Member("tx_id", Bytes(b64, p.txId)), Member("frag_i", Number(p.fragI)), Member("frag", Bytes(b64, p.frag)),
      Member("set_xor", Bytes(b64, p.setXor)));
  }

  lemma AckReads(b64: Base64Url, p: PacketPlain)
    requires b64.RoundTrips() && p.XorAck?
    ensures ReadAck(b64, Seen(b64, p), p.actorId, p.packetSeq) == Some(p)
  {
    SeenKeys(b64, p);
    KeysDiffer();
    FirstOfOne(Member("set_xor", Bytes(b64, p.setXor)));
  }

  lemma HalfReads(b64: Base64Url, p: PacketPlain)
    requires b64.RoundTrips() && p.HealHalfXor?
    ensures ReadHalf(b64, Seen(b64, p), p.actorId, p.packetSeq) == Some(p)
  {
    SeenKeys(b64, p);
    KeysDiffer();
    ThreeReads(Member("lo", Bytes(b64, p.lo)), Member("hi", Bytes(b64, p.hi)), Member("xor", Bytes(b64, p.xor)));
  }

  lemma HealSeen(b64: Base64Url, p: PacketPlain)
    requires p.HealWant? || p.HealHave?
    ensures var f := Seen(b64, p);
            && f.Keys == HEADER + {"lo", "hi", "ids"} && f["lo"] == Bytes(b64, p.lo)
            && f["hi"] == Bytes(b64, p.hi) && f["ids"] == Array(Ids(b64, p.ids))
  {
    SeenKeys(b64, p);
    KeysDiffer();
    ThreeReads(Member("lo", Bytes(b64, p.lo)), Member("hi", Bytes(b64, p.hi)), Member("ids", Array(Ids(b64, p.ids))));
  }

  lemma IdsSeen(b64: Base64Url, f: map<string, Json>, ids: seq<Tag>)
    requires b64.RoundTrips() && "ids" in f && f["ids"] == Array(Ids(b64, ids))
    ensures GetIds(b64, f) == if |ids| <= MAX_IDS then Some(ids) else None
  {
    IdsRead(b64, ids);
  }

  lemma HealReads(b64: Base64Url, p: PacketPlain)
    requires b64.RoundTrips() && (p.HealWant? || p.HealHave?)
    ensures ReadHeal(b64, Seen(b64, p), p.actorId, p.packetSeq, p.HealWant?) == if Legal(p) then Some(p) else None
  {
    HealSeen(b64, p);
    IdsSeen(b64, Seen(b64, p), p.ids);
  }

  lemma TypingReads(b64: Base64Url, p: PacketPlain)
    requires b64.RoundTrips() && p.Typing?
    ensures ReadTyping(b64, Seen(b64, p), p.actorId, p.packetSeq) == Some(p)
  {
    SeenKeys(b64, p);
    TwoReads(Member("conversation_id", Bytes(b64, p.conversationId)), Member("composing", Bool(p.composing)));
  }

  lemma TypingActiveReads(b64: Base64Url, p: PacketPlain)
    requires b64.RoundTrips() && p.TypingActive?
    ensures ReadTypingActive(b64, Seen(b64, p), p.actorId, p.packetSeq) == Some(p)
  {
    SeenKeys(b64, p);
    ThreeReads(Member("conversation_id", Bytes(b64, p.conversationId)), Member("last_active", Number(p.lastActive)),
      Member("composing", Bool(p.composing)));
  }

  lemma PresenceReads(b64: Base64Url, p: PacketPlain)
    requires b64.RoundTrips() && p.Presence?
    ensures ReadPresence(b64, Seen(b64, p), p.actorId, p.packetSeq) == Some(p)
  {
    SeenKeys(b64, p);
    FirstOfOne(Member("conversation_id", Bytes(b64, p.conversationId)));
  }

  lemma PresenceActiveReads(b64: Base64Url, p: PacketPlain)
    requires b64.RoundTrips() && p.PresenceActive?
    ensures ReadPresenceActive(b64, Seen(b64, p), p.actorId, p.packetSeq) == Some(p)
  {
    SeenKeys(b64, p);
    TwoReads(Member("conversation_id", Bytes(b64, p.conversationId)), Member("last_active", Number(p.lastActive)));
  }

  // ---------------------------------------------------------------- the round trip

  lemma FragmentReads(b64: Base64Url, p: PacketPlain)
    requires b64.RoundTrips() && (p.TxFragMore? || p.TxFragLast? || p.XorAck? || p.HealHalfXor?)
    ensures FromMembers(b64, Seen(b64, p), TypeName(p)) == if Legal(p) then Some(p) else None
  {
    HeaderSeen(b64, p);
    match p
    case TxFragMore(_, _, _, _, _) => MoreReads(b64, p);
    case TxFragLast(_, _, _, _, _, _) => LastReads(b64, p);
    case XorAck(_, _, _) => AckReads(b64, p);
    case HealHalfXor(_, _, _, _, _) => HalfReads(b64, p);
  }

  lemma TypingSignReads(b64: Base64Url, p: PacketPlain)
    requires b64.RoundTrips() && (p.Typing? || p.TypingActive?)
    ensures FromMembers(b64, Seen(b64, p), TypeName(p)) == Some(p)
  {
    HeaderSeen(b64, p);
    if p.Typing? { TypingReads(b64, p); } else { TypingActiveReads(b64, p); }
  }

  lemma PresenceSignReads(b64: Base64Url, p: PacketPlain)
    requires b64.RoundTrips() && (p.Presence? || p.PresenceActive?)
    ensures FromMembers(b64, Seen(b64, p), TypeName(p)) == Some(p)
  {
    HeaderSeen(b64, p);
    if p.Presence? { PresenceReads(b64, p); } else { PresenceActiveReads(b64, p); }
  }

  lemma SignReads(b64: Base64Url, p: PacketPlain)
    requires b64.RoundTrips() && (p.Typing? || p.TypingActive? || p.Presence? || p.PresenceActive?)
    ensures FromMembers(b64, Seen(b64, p), TypeName(p)) == Some(p)
  {
    if p.Typing? || p.TypingActive? { TypingSignReads(b64, p); } else { PresenceSignReads(b64, p); }
  }

  lemma ReadsByType(b64: Base64Url, p: PacketPlain)
    requires b64.RoundTrips()
    ensures FromMembers(b64, Seen(b64, p), TypeName(p)) == if Legal(p) then Some(p) else None
  {
    if p.HealWant? || p.HealHave? {
      HeaderSeen(b64, p);
      HealReads(b64, p);
    } else if p.TxFragMore? || p.TxFragLast? || p.XorAck? || p.HealHalfXor? {
      FragmentReads(b64, p);
    } else {
      SignReads(b64, p);
    }
  }

  /**
    * A packet that is written, printed with its members sorted, parsed and read comes back unchanged exactly
    * when its fragment index and its list of ids are within the limits. Otherwise the reader refuses it.
    */
  lemma PacketSurvivesExactlyWhen(b64: Base64Url, p: PacketPlain)
    requires b64.RoundTrips()
    ensures Decode(Encode(ToJson(b64, p))).Some?
    ensures FromJson(b64, Decode(Encode(ToJson(b64, p))).value) == if Legal(p) then Some(p) else None
  {
    PrintedPacket(b64, p);
    FirstOfSorted(Header(b64, p) + Fields(b64, p));
    HeaderSeen(b64, p);
    ReadsByType(b64, p);
  }

  /** Different legal packets print differently. */
  lemma PacketsPrintApart(b64: Base64Url, p: PacketPlain, q: PacketPlain)
    requires b64.RoundTrips() && Legal(p) && Legal(q)
    requires Encode(ToJson(b64, p)) == Encode(ToJson(b64, q))
    ensures p == q
  {
    PacketSurvivesExactlyWhen(b64, p);
    PacketSurvivesExactlyWhen(b64, q);
  }

  /** The keys a packet is written with. */
  function KeysOf(p: PacketPlain): set<string> {
    HEADER + match p
    case TxFragMore(_, _, _, _, _) => {"tx_id", "frag_i", "frag"}
    case TxFragLast(_, _, _, _, _, _) => {"tx_id", "frag_i", "frag", "set_xor"}
    case XorAck(_, _, _) => {"set_xor"}
    case HealHalfXor(_, _, _, _, _) => {"lo", "hi", "xor"}
    case HealWant(_, _, _, _, _) => {"lo", "hi", "ids"}
    case HealHave(_, _, _, _, _) => {"lo", "hi", "ids"}
    case Typing(_, _, _, _) => {"conversation_id", "composing"}
    case TypingActive(_, _, _, _, _) => {"conversation_id", "last_active", "composing"}
    case Presence(_, _, _) => {"conversation_id"}
    case PresenceActive(_, _, _, _) => {"conversation_id", "last_active"}
  }

  /** Whatever object the reader accepts, it has exactly the keys of the packet it denotes, and the packet is legal. */
  lemma AcceptedIsWellFormed(b64: Base64Url, v: Json)
    requires FromJson(b64, v).Some?
    ensures v.Object? && Legal(FromJson(b64, v).value)
    ensures FirstValues(v.members).Keys == KeysOf(FromJson(b64, v).value)
  {
  }
}
