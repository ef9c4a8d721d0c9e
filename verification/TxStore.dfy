/** Transactions in the logs of the rows that may hold them, and the index from id to place. */
module TxStore {
  import opened Wrappers

  type TxId = nat
  type Cid = nat

  /** An identity, as the number its user id and identity id form together. Numbers order as the pair of ids does. */
  type Owner = nat

  datatype PayloadKind =
    | Notice | InviterIntro | InviteeIntro | SyncInviterIntro | SyncInviteeIntro | Confirm | Reject | SyncDek
    | Text | Edit | Remove | Reaction | Read | Delivered | Media | Name | Photo | Prefs
    | Advertise | Wrap | Ack
    | GroupInvite | GroupAccept | GroupReject | GroupRoster | GroupWrap | GroupLeave | GroupKick
    | EngineInit | EngineSetDefaults | EngineCreateUser | EngineCreateIdentity | EngineDeleteUser
    | EngineDeleteIdentity | EngineSetDisplayName | EngineUnsetDisplayName | EngineSetProfilePic
    | EngineSetDeviceName | EngineKickDevice

  datatype Body = Body(cid: Cid, wallMs: nat, kind: PayloadKind, content: string)

  type Log = map<TxId, Body>

  datatype RowKind = DmHandshake | DirectMessage | LiveGroup | SyncHandshake | Synchronization

  /** A row with a log, or a group that is only offered or has ended. */
  datatype Node = Logged(kind: RowKind, log: Log) | Closed

  /** Where a row lives. */
  datatype Spot = OfIdentity(owner: Owner, cid: Cid) | OnDevice(cid: Cid)

  datatype Place = InEngine | InRow(spot: Spot)

  datatype Store = Store(engine: Log, index: map<TxId, Place>, rows: map<Spot, Node>)

  // ---------------------------------------------------------------- what each log takes

  const CHAT: set<PayloadKind> := {Text, Edit, Remove, Reaction, Read, Delivered, Media, Name, Photo, Prefs}
  const RATCHET: set<PayloadKind> := {Advertise, Wrap, Ack}
  const GROUP: set<PayloadKind> := {GroupRoster, GroupWrap, GroupLeave, GroupKick}
  const ENGINE: set<PayloadKind> := {EngineInit, EngineSetDefaults, EngineCreateUser, EngineCreateIdentity, EngineDeleteUser,
                                     EngineDeleteIdentity, EngineSetDisplayName, EngineUnsetDisplayName, EngineSetProfilePic,
                                     EngineSetDeviceName, EngineKickDevice}

  predicate Takes(row: RowKind, p: PayloadKind) {
    match row
    case DmHandshake => p in {Notice, InviterIntro, InviteeIntro, Confirm, Reject}
    case SyncHandshake => p in {Notice, SyncInviterIntro, SyncInviteeIntro, Confirm, Reject, SyncDek}
    case DirectMessage => p in CHAT || p in RATCHET || p in {GroupInvite, GroupAccept, GroupReject}
    case LiveGroup => p in CHAT || p in RATCHET || p in GROUP
    case Synchronization => p in ENGINE || p == Name
  }

  /** The rows a kind may go to. The engine's own kinds may also go to its own log. */
  function HomesOf(p: PayloadKind): set<RowKind> {
    match p
    case Notice | Confirm | Reject => {DmHandshake, SyncHandshake}
    case InviterIntro | InviteeIntro => {DmHandshake}
    case SyncInviterIntro | SyncInviteeIntro | SyncDek => {SyncHandshake}
    case Text | Edit | Remove | Reaction | Read | Delivered | Media | Photo | Prefs => {DirectMessage, LiveGroup}
    case Advertise | Wrap | Ack => {DirectMessage, LiveGroup}
    case Name => {DirectMessage, LiveGroup, Synchronization}
    case GroupInvite | GroupAccept | GroupReject => {DirectMessage}
    case GroupRoster | GroupWrap | GroupLeave | GroupKick => {LiveGroup}
    case EngineInit | EngineSetDefaults | EngineCreateUser | EngineCreateIdentity | EngineDeleteUser => {Synchronization}
    case EngineDeleteIdentity | EngineSetDisplayName | EngineUnsetDisplayName | EngineSetProfilePic => {Synchronization}
    case EngineSetDeviceName | EngineKickDevice => {Synchronization}
  }

  /** Row by row and kind by kind it is the same table. */
  lemma TakesExactlyWhen(row: RowKind, p: PayloadKind)
    ensures Takes(row, p) <==> row in HomesOf(p)
  {
    match row
    case DmHandshake => HandshakeTakes(p);
    case SyncHandshake => HandshakeTakes(p);
    case DirectMessage => ConversationTakes(p);
    case LiveGroup => ConversationTakes(p);
    case Synchronization => EngineTakes(p);
  }

  lemma HandshakeTakes(p: PayloadKind)
    ensures Takes(DmHandshake, p) <==> DmHandshake in HomesOf(p)
    ensures Takes(SyncHandshake, p) <==> SyncHandshake in HomesOf(p)
  {
  }

  lemma ConversationTakes(p: PayloadKind)
    ensures Takes(DirectMessage, p) <==> DirectMessage in HomesOf(p)
    ensures Takes(LiveGroup, p) <==> LiveGroup in HomesOf(p)
  {
  }

  lemma EngineTakes(p: PayloadKind)
    ensures Takes(Synchronization, p) <==> Synchronization in HomesOf(p)
    ensures p in ENGINE <==> Synchronization in HomesOf(p) && p != Name
  {
  }

  // ---------------------------------------------------------------- finding a row

  ghost predicate Owns(rows: map<Spot, Node>, o: Owner, cid: Cid) { OfIdentity(o, cid) in rows }

  /** The first identity, in order, that has a row with this conversation id. */
  ghost predicate First(rows: map<Spot, Node>, o: Owner, cid: Cid) {
    Owns(rows, o, cid) && forall j: Owner :: j < o ==> !Owns(rows, j, cid)
  }

  lemma {:induction false} FirstExists(rows: map<Spot, Node>, o: Owner, cid: Cid)
    requires Owns(rows, o, cid)
    ensures exists k: Owner :: First(rows, k, cid)
  {
    if j: Owner :| j < o && Owns(rows, j, cid) {
      FirstExists(rows, j, cid);
    } else {
      assert First(rows, o, cid);
    }
  }

  /** The row of a conversation: an identity's before the device's. */
  ghost function SpotOf(rows: map<Spot, Node>, cid: Cid): (r: Option<Spot>)
    ensures r.Some? ==> r.value in rows && r.value.cid == cid
    ensures r.None? ==> OnDevice(cid) !in rows && forall o: Owner :: !Owns(rows, o, cid)
  {
    if o: Owner :| First(rows, o, cid) then Some(OfIdentity(o, cid))
    else
      assert forall o: Owner :: !Owns(rows, o, cid) by {
        forall o: Owner ensures !Owns(rows, o, cid) {
          if Owns(rows, o, cid) { FirstExists(rows, o, cid); }
        }
      }
      if OnDevice(cid) in rows then Some(OnDevice(cid)) else None
  }

  // ---------------------------------------------------------------- reading

  function At(s: Store, id: TxId, place: Place): Option<Body> {
    match place
    case InEngine => if id in s.engine then Some(s.engine[id]) else None
    case InRow(spot) =>
      if spot in s.rows && s.rows[spot].Logged? && id in s.rows[spot].log then Some(s.rows[spot].log[id]) else None
  }

  /** Lookup through the index. */
  function BodyOf(s: Store, id: TxId): Option<Body> {
    if id in s.index then At(s, id, s.index[id]) else None
  }

  /** A scan of all logs meets this body under this id. */
  ghost predicate Scanned(s: Store, id: TxId, b: Body) { exists place :: At(s, id, place) == Some(b) }

  /** Everything stored is indexed to the place where it is stored. */
  ghost predicate Indexed(s: Store) {
    forall id, place :: At(s, id, place).Some? ==> id in s.index && s.index[id] == place
  }

  // ---------------------------------------------------------------- changing

  function WithoutAt(s: Store, id: TxId, place: Place): Store {
    match place
    case InEngine => s.(engine := s.engine - {id})
    case InRow(spot) =>
      if spot in s.rows && s.rows[spot].Logged?
      then s.(rows := s.rows[spot := s.rows[spot].(log := s.rows[spot].log - {id})])
      else s
  }

  function RemoveBody(s: Store, id: TxId): Store {
    if id !in s.index then s else WithoutAt(s, id, s.index[id]).(index := s.index - {id})
  }

  /** The row a body belongs to takes its kind. A body of no row belongs to the engine. */
  ghost predicate Accepts(s: Store, b: Body) {
    match SpotOf(s.rows, b.cid)
    case Some(spot) => s.rows[spot].Logged? && Takes(s.rows[spot].kind, b.kind)
    case None => b.kind in ENGINE
  }

  datatype Inserted = Inserted(store: Store, ok: bool)

  /** Store a body where its conversation lives, replacing what had its id. A refused body has already displaced the old one. */
  ghost function InsertBody(s: Store, id: TxId, b: Body): Inserted {
    var c := RemoveBody(s, id);
    match SpotOf(c.rows, b.cid)
    case Some(spot) =>
      if c.rows[spot].Closed? || !Takes(c.rows[spot].kind, b.kind) then Inserted(c, false)
      else
        Inserted(c.(rows := c.rows[spot := c.rows[spot].(log := c.rows[spot].log[id := b])],
                    index := c.index[id := InRow(spot)]), true)
    case None =>
      if b.kind !in ENGINE then Inserted(c, false)
      else Inserted(c.(engine := c.engine[id := b], index := c.index[id := InEngine]), true)
  }

  /** Put a new row, or a row in a new phase. Either starts with an empty log. */
  function PutRow(s: Store, spot: Spot, kind: Option<RowKind>): Store {
    s.(rows := s.rows[spot := if kind.Some? then Logged(kind.value, map[]) else Closed])
  }

  /** Remove the row of the first identity that has it, and the device's. The index keeps what it had. */
  ghost function DropConversation(s: Store, cid: Cid): Store {
    var spot := SpotOf(s.rows, cid);
    s.(rows := s.rows - (if spot.Some? then {spot.value, OnDevice(cid)} else {}))
  }

  function Renamed(spot: Spot, cid: Cid): Spot {
    match spot
    case OfIdentity(o, _) => OfIdentity(o, cid)
    case OnDevice(_) => OnDevice(cid)
  }

  /** Move every row called `from` to the name `to`, over whatever was there. */
  function RekeyRows(rows: map<Spot, Node>, from: Cid, to: Cid): (r: map<Spot, Node>)
    ensures forall k: Spot :: k in r <==> (k.cid == to && Renamed(k, from) in rows) || (k.cid != from && k in rows)
    ensures forall k :: k in r ==> r[k] == if k.cid == to && Renamed(k, from) in rows then rows[Renamed(k, from)] else rows[k]
  {
    var moved := map x | x in rows && x.cid == from :: rows[x];
    var names := set x | x in moved :: Renamed(x, to);
    assert forall k: Spot :: k.cid == to && Renamed(k, from) in rows ==> k == Renamed(Renamed(k, from), to) && k in names;
    map k | k in rows.Keys + names && (k in names || k.cid != from) ::
      if k.cid == to && Renamed(k, from) in rows then rows[Renamed(k, from)] else rows[k]
  }

  /** The index is not told. */
  function RekeyRow(s: Store, from: Cid, to: Cid): Store {
    s.(rows := RekeyRows(s.rows, from, to))
  }

  /** No row called `from` holds anything. */
  predicate MovesNothing(s: Store, from: Cid) {
    forall k :: k in s.rows && k.cid == from && s.rows[k].Logged? ==> s.rows[k].log == map[]
  }
}
