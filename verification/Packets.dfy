/** The contents of one sealed packet. */
module Packets {
  import opened Numbers
  import opened Tags
  import opened Wrappers

  datatype PacketPlain =
    | TxFragMore(actorId: seq<Byte>, packetSeq: U64, txId: Tag, fragI: U64, frag: seq<Byte>)
    | TxFragLast(actorId: seq<Byte>, packetSeq: U64, txId: Tag, fragI: U64, frag: seq<Byte>, setXor: Tag)
    | XorAck(actorId: seq<Byte>, packetSeq: U64, setXor: Tag)
    | HealHalfXor(actorId: seq<Byte>, packetSeq: U64, lo: Tag, hi: Tag, xor: Tag)
    | HealWant(actorId: seq<Byte>, packetSeq: U64, lo: Tag, hi: Tag, ids: seq<Tag>)
    | HealHave(actorId: seq<Byte>, packetSeq: U64, lo: Tag, hi: Tag, ids: seq<Tag>)
    | Typing(actorId: seq<Byte>, packetSeq: U64, conversationId: Tag, composing: bool)
    | TypingActive(actorId: seq<Byte>, packetSeq: U64, conversationId: Tag, lastActive: U64, composing: bool)
    | Presence(actorId: seq<Byte>, packetSeq: U64, conversationId: Tag)
    | PresenceActive(actorId: seq<Byte>, packetSeq: U64, conversationId: Tag, lastActive: U64)

  /** The transaction a fragment belongs to. Other packets carry none. */
  function TxOf(p: PacketPlain): Option<Tag> {
    if p.TxFragMore? || p.TxFragLast? then Some(p.txId) else None
  }
}
