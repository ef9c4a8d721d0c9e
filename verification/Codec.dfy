/** Packets as JSON objects. */
module Codec {
  import opened Json
  import opened Numbers
  import opened Packets
  import opened Tags
  import opened Wrappers

  /** The text form of byte strings. */
  datatype Base64Url = Base64Url(encode: seq<Byte> -> string, decode: string -> Option<seq<Byte>>)
  {
    ghost predicate RoundTrips() { forall x :: decode(encode(x)) == Some(x) }
  }

  /** The largest fragment index of a fragment that is not the last, and of the last. */
  const MAX_MORE: nat := 62
  const MAX_LAST: nat := 63

  /** The most ids one heal message lists. */
  const MAX_IDS: nat := 32

  // ---------------------------------------------------------------- writing

  function TypeName(p: PacketPlain): string {
    match p
    case TxFragMore(_, _, _, _, _) => "v1-packet-tx-frag-more"
    case TxFragLast(_, _, _, _, _, _) => "v1-packet-tx-frag-last"
    case XorAck(_, _, _) => "v1-packet-xor-ack"
    case HealHalfXor(_, _, _, _, _) => "v1-packet-heal-half-xor"
    case HealWant(_, _, _, _, _) => "v1-packet-heal-want"
    case HealHave(_, _, _, _, _) => "v1-packet-heal-have"
    case Typing(_, _, _, _) => "v1-packet-typing"
    case TypingActive(_, _, _, _, _) => "v1-packet-typing-active"
    case Presence(_, _, _) => "v1-packet-presence"
    case PresenceActive(_, _, _, _) => "v1-packet-presence-active"
  }

  function Bytes(b64: Base64Url, x: seq<Byte>): Json { String(b64.encode(x)) }

  function Ids(b64: Base64Url, ids: seq<Tag>): (r: seq<Json>)
    ensures |r| == |ids|
  {
    if ids == [] then [] else [Bytes(b64, ids[0])] + Ids(b64, ids[1..])
  }

  /** The members every packet has. */
  function Header(b64: Base64Url, p: PacketPlain): seq<Member> {
    [Member("type", String(TypeName(p))), Member("version", Number(1)),
     Member("actor_id", Bytes(b64, p.actorId)), Member("packet_seq", Number(p.packetSeq))]
  }

  function Fields(b64: Base64Url, p: PacketPlain): seq<Member> {
    match p
    case TxFragMore(_, _, txId, fragI, frag) =>
      [Member("tx_id", Bytes(b64, txId)), Member("frag_i", Number(fragI)), Member("frag", Bytes(b64, frag))]
    case TxFragLast(_, _, txId, fragI, frag, setXor) =>
      [Member("tx_id", Bytes(b64, txId)), Member("frag_i", Number(fragI)), Member("frag", Bytes(b64, frag)),
       Member("set_xor", Bytes(b64, setXor))]
    case XorAck(_, _, setXor) => [Member("set_xor", Bytes(b64, setXor))]
    case HealHalfXor(_, _, lo, hi, xor) =>
      [Member("lo", Bytes(b64, lo)), Member("hi", Bytes(b64, hi)), Member("xor", Bytes(b64, xor))]
    case HealWant(_, _, lo, hi, ids) =>
      [Member("lo", Bytes(b64, lo)), Member("hi", Bytes(b64, hi)), Member("ids", Array(Ids(b64, ids)))]
    case HealHave(_, _, lo, hi, ids) =>
      [Member("lo", Bytes(b64, lo)), Member("hi", Bytes(b64, hi)), Member("ids", Array(Ids(b64, ids)))]
    case Typing(_, _, cid, composing) =>
      [Member("conversation_id", Bytes(b64, cid)), Member("composing", Bool(composing))]
    case TypingActive(_, _, cid, lastActive, composing) =>
      [Member("conversation_id", Bytes(b64, cid)), Member("last_active", Number(lastActive)),
       Member("composing", Bool(composing))]
    case Presence(_, _, cid) => [Member("conversation_id", Bytes(b64, cid))]
    case PresenceActive(_, _, cid, lastActive) =>
      [Member("conversation_id", Bytes(b64, cid)), Member("last_active", Number(lastActive))]
  }

  function ToJson(b64: Base64Url, p: PacketPlain): Json {
    Object(Header(b64, p) + Fields(b64, p))
  }

  // ---------------------------------------------------------------- reading

  /** Each key with the value of the first member that has it: what the reader can see of an object. */
  function FirstValues(ms: seq<Member>): map<string, Json> {
    if ms == [] then map[] else FirstValues(ms[1..])[ms[0].key := ms[0].value]
  }

  function Get(f: map<string, Json>, key: string): Option<Json> {
    if key in f then Some(f[key]) else None
  }

  function GetStr(f: map<string, Json>, key: string): Option<string> {
    match Get(f, key)
    case Some(String(s)) => Some(s)
    case _ => None
  }

  function GetU64(f: map<string, Json>, key: string): Option<U64> {
    match Get(f, key)
    case Some(Number(n)) => Some(n)
    case _ => None
  }

  function GetBool(f: map<string, Json>, key: string): Option<bool> {
    match Get(f, key)
    case Some(Bool(b)) => Some(b)
    case _ => None
  }

  function GetBytes(b64: Base64Url, f: map<string, Json>, key: string): Option<seq<Byte>> {
    match GetStr(f, key)
    case Some(s) => b64.decode(s)
    case None => None
  }

  function AsTag(x: Option<seq<Byte>>): Option<Tag> {
    if x.Some? && |x.value| == TAG_LEN then Some(x.value) else None
  }

  function GetTag(b64: Base64Url, f: map<string, Json>, key: string): Option<Tag> {
    AsTag(GetBytes(b64, f, key))
  }

  function GetFragI(f: map<string, Json>, max: nat): Option<U64> {
    match GetU64(f, "frag_i")
    case Some(n) => if n <= max then Some(n) else None
    case None => None
  }

  function ReadIds(b64: Base64Url, items: seq<Json>): (r: Option<seq<Tag>>)
    ensures r.Some? ==> |r.value| == |items|
  {
    if items == [] then Some([])
    else if !items[0].String? then None
    else
      var first, rest := AsTag(b64.decode(items[0].s)), ReadIds(b64, items[1..]);
      if first.Some? && rest.Some? then Some([first.value] + rest.value) else None
  }

  function GetIds(b64: Base64Url, f: map<string, Json>): (r: Option<seq<Tag>>)
    ensures r.Some? ==> |r.value| <= MAX_IDS
  {
    match Get(f, "ids")
    case Some(Array(items)) => if |items| <= MAX_IDS then ReadIds(b64, items) else None
    case _ => None
  }

  /** Every key is one of `keys`. */
  predicate ExtraOk(f: map<string, Json>, keys: set<string>) {
    f.Keys <= keys
  }

  const HEADER: set<string> := {"type", "version", "actor_id", "packet_seq"}

  function FromJson(b64: Base64Url, v: Json): Option<PacketPlain> {
    if !v.Object? then None
    else
      var f := FirstValues(v.members);
      var kind := GetStr(f, "type");
      if GetU64(f, "version") != Some(1) || kind.None? then None
      else FromMembers(b64, f, kind.value)
  }

  function FromMembers(b64: Base64Url, f: map<string, Json>, kind: string): Option<PacketPlain> {
    var actor, no := GetBytes(b64, f, "actor_id"), GetU64(f, "packet_seq");
    if actor.None? || no.None? then None
    else if kind == "v1-packet-tx-frag-more" then ReadMore(b64, f, actor.value, no.value)
    else if kind == "v1-packet-tx-frag-last" then ReadLast(b64, f, actor.value, no.value)
    else if kind == "v1-packet-xor-ack" then ReadAck(b64, f, actor.value, no.value)
    else if kind == "v1-packet-heal-half-xor" then ReadHalf(b64, f, actor.value, no.value)
    else if kind == "v1-packet-heal-want" then ReadHeal(b64, f, actor.value, no.value, true)
    else if kind == "v1-packet-heal-have" then ReadHeal(b64, f, actor.value, no.value, false)
    else if kind == "v1-packet-typing" then ReadTyping(b64, f, actor.value, no.value)
    else if kind == "v1-packet-typing-active" then ReadTypingActive(b64, f, actor.value, no.value)
    else if kind == "v1-packet-presence" then ReadPresence(b64, f, actor.value, no.value)
    else if kind == "v1-packet-presence-active" then ReadPresenceActive(b64, f, actor.value, no.value)
    else None
  }

  function ReadMore(b64: Base64Url, f: map<string, Json>, actor: seq<Byte>, no: U64): Option<PacketPlain> {
    var id, i, frag := GetTag(b64, f, "tx_id"), GetFragI(f, MAX_MORE), GetBytes(b64, f, "frag");
    if ExtraOk(f, HEADER + {"tx_id", "frag_i", "frag"}) && id.Some? && i.Some? && frag.Some?
    then Some(TxFragMore(actor, no, id.value, i.value, frag.value)) else None
  }

  function ReadLast(b64: Base64Url, f: map<string, Json>, actor: seq<Byte>, no: U64): Option<PacketPlain> {
    var id, i, frag := GetTag(b64, f, "tx_id"), GetFragI(f, MAX_LAST), GetBytes(b64, f, "frag");
    var xor := GetTag(b64, f, "set_xor");
    if ExtraOk(f, HEADER + {"tx_id", "frag_i", "frag", "set_xor"}) && id.Some? && i.Some? && frag.Some? && xor.Some?
    then Some(TxFragLast(actor, no, id.value, i.value, frag.value, xor.value)) else None
  }

  function ReadAck(b64: Base64Url, f: map<string, Json>, actor: seq<Byte>, no: U64): Option<PacketPlain> {
    var xor := GetTag(b64, f, "set_xor");
    if ExtraOk(f, HEADER + {"set_xor"}) && xor.Some? then Some(XorAck(actor, no, xor.value)) else None
  }

  function ReadHalf(b64: Base64Url, f: map<string, Json>, actor: seq<Byte>, no: U64): Option<PacketPlain> {
    var lo, hi, xor := GetTag(b64, f, "lo"), GetTag(b64, f, "hi"), GetTag(b64, f, "xor");
    if ExtraOk(f, HEADER + {"lo", "hi", "xor"}) && lo.Some? && hi.Some? && xor.Some?
    then Some(HealHalfXor(actor, no, lo.value, hi.value, xor.value)) else None
  }

  function ReadHeal(b64: Base64Url, f: map<string, Json>, actor: seq<Byte>, no: U64, want: bool): Option<PacketPlain> {
    var lo, hi, ids := GetTag(b64, f, "lo"), GetTag(b64, f, "hi"), GetIds(b64, f);
    if ExtraOk(f, HEADER + {"lo", "hi", "ids"}) && lo.Some? && hi.Some? && ids.Some?
    then Some(if want then HealWant(actor, no, lo.value, hi.value, ids.value)
              else HealHave(actor, no, lo.value, hi.value, ids.value))
    else None
  }

  function ReadTyping(b64: Base64Url, f: map<string, Json>, actor: seq<Byte>, no: U64): Option<PacketPlain> {
    var cid, composing := GetTag(b64, f, "conversation_id"), GetBool(f, "composing");
    if ExtraOk(f, HEADER + {"conversation_id", "composing"}) && cid.Some? && composing.Some?
    then Some(Typing(actor, no, cid.value, composing.value)) else None
  }

  function ReadTypingActive(b64: Base64Url, f: map<string, Json>, actor: seq<Byte>, no: U64): Option<PacketPlain> {
    var cid, at, composing := GetTag(b64, f, "conversation_id"), GetU64(f, "last_active"), GetBool(f, "composing");
    if ExtraOk(f, HEADER + {"conversation_id", "last_active", "composing"}) && cid.Some? && at.Some? && composing.Some?
    then Some(TypingActive(actor, no, cid.value, at.value, composing.value)) else None
  }

  function ReadPresence(b64: Base64Url, f: map<string, Json>, actor: seq<Byte>, no: U64): Option<PacketPlain> {
    var cid := GetTag(b64, f, "conversation_id");
    if ExtraOk(f, HEADER + {"conversation_id"}) && cid.Some? then Some(Presence(actor, no, cid.value)) else None
  }

  function ReadPresenceActive(b64: Base64Url, f: map<string, Json>, actor: seq<Byte>, no: U64): Option<PacketPlain> {
    var cid, at := GetTag(b64, f, "conversation_id"), GetU64(f, "last_active");
    if ExtraOk(f, HEADER + {"conversation_id", "last_active"}) && cid.Some? && at.Some?
    then Some(PresenceActive(actor, no, cid.value, at.value)) else None
  }

  // ---------------------------------------------------------------- what survives

  /** The fragment index and the list of ids are within the limits the reader enforces. */
  predicate Legal(p: PacketPlain) {
    && (p.TxFragMore? ==> p.fragI <= MAX_MORE)
    && (p.TxFragLast? ==> p.fragI <= MAX_LAST)
    && (p.HealWant? || p.HealHave? ==> |p.ids| <= MAX_IDS)
  }
}
