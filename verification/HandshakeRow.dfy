/** One side of a handshake: its phases, what it accepts, the introductions it mints, and the child it spawns. */
module HandshakeRow {
  import opened Wrappers

  datatype Policy = Classic | PostQuantum | Hybrid

  /** A key pair, named by the seed it was drawn from. Its public half is the same term. */
  datatype Key = Key(policy: Policy, seed: nat)

  /** A secret encapsulated for one key. */
  datatype Wrapped = Wrapped(to: Key, secret: nat)

  datatype Profile = Profile(name: string, encryptionPk: Key, signingPk: Key, device: nat)

  datatype Notice = Notice(policy: Policy, intakePk: Key, expires: nat)

  datatype InviteeIntro = InviteeIntro(who: Profile, tagKeys: nat, intakePk: Key, seedCt: Wrapped)

  datatype InviterIntro = InviterIntro(who: Profile, tagKeys: nat, seedCt: Wrapped)

  /** A transaction. Its id is a hash of the ticket secret and of the payload, so equal payloads are one transaction. */
  datatype Payload =
    | NoticeTx(notice: Notice)
    | InviteeTx(sync: bool, invitee: InviteeIntro)
    | InviterTx(sync: bool, inviter: InviterIntro)
    | ConfirmTx
    | RejectTx

  datatype Reason =
    | PolicyNotAccepted(policy: Policy)
    | InviteExpired
    | NoticeUnlockFailed
    | NoticeConflict
    | IntroUnlockFailed
    | IntroVerifyFailed
    | DuplicateIntro
    | ConfirmationRejected

  datatype InviterPhase =
    | InviteCreated(intake: Key)
    | NoticePinned(intake: Key)
    | InviterMinted(intake: Key, sharedInviter: nat, sharedInvitee: nat)
    | InviterConfirming(intake: Key, sharedInviter: nat, sharedInvitee: nat)
    | InviterFailed(reason: Reason)

  datatype InviteePhase =
    | TicketReceived
    | InviteReceived(policy: Policy)
    | InviteeMinted(policy: Policy, intake: Key, sharedInviter: nat)
    | IntroductionSent(policy: Policy, intake: Key, sharedInviter: nat)
    | InviteeConfirming(policy: Policy, intake: Key, sharedInviter: nat, sharedInvitee: nat)
    | InviteeFailed(reason: Reason)

  datatype Party = Inviter(inviter: InviterPhase) | Invitee(invitee: InviteePhase)

  /** The secret of a child: a hash over the ticket secret and the two shared secrets in order. */
  datatype Spawn = Spawn(ticket: nat, low: nat, high: nat)

  /** A conversation id, drawn at random or hashed from a child's secret. */
  datatype Cid = Drawn(n: nat) | Spawned(secret: Spawn)

  datatype Child = Child(parent: Cid, secret: Spawn)

  /** What both sides show for comparison. */
  datatype Digest = Digest(ticket: nat, sync: bool, first: Payload, second: Payload, secret: Spawn)

  /** `identity` is the policy of the identity a direct-message row belongs to. A sync row has none. */
  datatype Row = Row(cid: Cid, sync: bool, ticket: nat, identity: Option<Policy>, party: Party, log: seq<Payload>,
                     established: map<Cid, Child>)

  /** Values drawn at random for one call. */
  datatype Draw = Draw(intake: nat, secret: nat, tagKeys: nat)

  /** The new row and the transactions it posted, or an error that leaves everything as it was. */
  datatype Outcome = Done(row: Row, posts: seq<Payload>) | Refused

  // ---------------------------------------------------------------- reading the log

  function NoticeFor(log: seq<Payload>): (r: Option<Notice>)
    ensures r.Some? ==> NoticeTx(r.value) in log
    ensures r.None? ==> forall p :: p in log ==> !p.NoticeTx?
  {
    if log == [] then None else if log[0].NoticeTx? then Some(log[0].notice) else NoticeFor(log[1..])
  }

  /** The first introduction of the invitee, with the payload that carries it. */
  function InviteeIntroFor(log: seq<Payload>): (r: Option<Payload>)
    ensures r.Some? ==> r.value.InviteeTx? && r.value in log
    ensures r.None? ==> forall p :: p in log ==> !p.InviteeTx?
  {
    if log == [] then None else if log[0].InviteeTx? then Some(log[0]) else InviteeIntroFor(log[1..])
  }

  function InviterIntroFor(log: seq<Payload>): (r: Option<Payload>)
    ensures r.Some? ==> r.value.InviterTx? && r.value in log
    ensures r.None? ==> forall p :: p in log ==> !p.InviterTx?
  {
    if log == [] then None else if log[0].InviterTx? then Some(log[0]) else InviterIntroFor(log[1..])
  }

  // ---------------------------------------------------------------- phases

  predicate Failed(row: Row) {
    match row.party
    case Inviter(p) => p.InviterFailed?
    case Invitee(p) => p.InviteeFailed?
  }

  function Fail(row: Row, reason: Reason): (r: Row)
    ensures Failed(r) && r.log == row.log && r.cid == row.cid && r.established == row.established
  {
    if Failed(row) then row
    else row.(party := if row.party.Inviter? then Inviter(InviterFailed(reason)) else Invitee(InviteeFailed(reason)))
  }

  /** What follows once the writes of a row are acknowledged. */
  function AckPosted(row: Row): Row {
    match row.party
    case Inviter(InviteCreated(intake)) => row.(party := Inviter(NoticePinned(intake)))
    case Inviter(InviterMinted(intake, a, b)) => row.(party := Inviter(InviterConfirming(intake, a, b)))
    case Invitee(InviteeMinted(policy, intake, a)) => row.(party := Invitee(IntroductionSent(policy, intake, a)))
    case _ => row
  }

  // ---------------------------------------------------------------- encapsulation

  function Unwrap(policy: Policy, sk: Key, ct: Wrapped): Option<nat> {
    if sk.policy == policy && ct.to == sk then Some(ct.secret) else None
  }

  /** Every key and ciphertext has the length the policy asks for. */
  predicate KeysOk(policy: Policy, who: Profile, intakePk: Option<Key>, ct: Wrapped) {
    && who.encryptionPk.policy == policy
    && who.signingPk.policy == policy
    && ct.to.policy == policy
    && (intakePk.None? || intakePk.value.policy == policy)
  }

  // ---------------------------------------------------------------- accepting a transaction

  /** Whether ingest stops at the gate or goes on to store the payload. */
  datatype Gate = Stop(row: Row) | Pass(row: Row)

  function GateNotice(row: Row, n: Notice): Gate {
    if NoticeFor(row.log).Some? && NoticeFor(row.log).value != n then Stop(Fail(row, NoticeConflict))
    else if row.identity.Some? && row.identity.value != n.policy then Pass(Fail(row, PolicyNotAccepted(n.policy)))
    else if row.party.Invitee? && row.party.invitee.TicketReceived?
    then Pass(row.(party := Invitee(InviteReceived(n.policy))))
    else Pass(row)
  }

  function GateInvitee(row: Row, i: InviteeIntro): Gate {
    var notice := NoticeFor(row.log);
    if InviteeIntroFor(row.log).Some? then Stop(Fail(row, DuplicateIntro))
    else if notice.None? then Stop(Fail(row, IntroVerifyFailed))
    else if !KeysOk(notice.value.policy, i.who, Some(i.intakePk), i.seedCt) then Stop(Fail(row, IntroVerifyFailed))
    else if row.party.Inviter? && !row.party.inviter.InviterFailed?
            && Unwrap(notice.value.policy, row.party.inviter.intake, i.seedCt).None?
    then Stop(Fail(row, IntroVerifyFailed))
    else Pass(row)
  }

  function GateInviter(row: Row, j: InviterIntro): Gate {
    var notice := NoticeFor(row.log);
    if InviterIntroFor(row.log).Some? then Stop(Fail(row, DuplicateIntro))
    else if notice.None? then Stop(Fail(row, IntroVerifyFailed))
    else if !KeysOk(notice.value.policy, j.who, None, j.seedCt) then Stop(Fail(row, IntroVerifyFailed))
    else if row.party.Inviter? then Pass(row)
    else ConfirmPeer(row, notice.value.policy, j)
  }

  /** The invitee takes the second secret from the inviter's introduction, once it has sent its own. */
  function ConfirmPeer(row: Row, noticePolicy: Policy, j: InviterIntro): Gate
    requires row.party.Invitee?
  {
    match row.party.invitee
    case InviteeMinted(policy, intake, a) =>
      var b := Unwrap(noticePolicy, intake, j.seedCt);
      if b.None? then Stop(Fail(row, IntroVerifyFailed))
      else Pass(row.(party := Invitee(InviteeConfirming(policy, intake, a, b.value))))
    case IntroductionSent(policy, intake, a) =>
      var b := Unwrap(noticePolicy, intake, j.seedCt);
      if b.None? then Stop(Fail(row, IntroVerifyFailed))
      else Pass(row.(party := Invitee(InviteeConfirming(policy, intake, a, b.value))))
    case _ => Stop(Fail(row, IntroVerifyFailed))
  }

  function GateOf(row: Row, p: Payload): Gate {
    match p
    case NoticeTx(n) => GateNotice(row, n)
    case InviteeTx(_, i) => GateInvitee(row, i)
    case InviterTx(_, j) => GateInviter(row, j)
    case ConfirmTx => Pass(row)
    case RejectTx => Pass(row)
  }

  /** A sync row stores sync introductions only, a direct-message row the others only. */
  predicate Stores(sync: bool, p: Payload) {
    match p
    case InviteeTx(s, _) => s == sync
    case InviterTx(s, _) => s == sync
    case _ => true
  }

  /** The row takes the conversation id of the transaction it received. Its children follow. */
  function Rekey(row: Row, cid: Cid): Row {
    row.(cid := cid,
         established := map k | k in row.established ::
           if row.established[k].parent == row.cid then row.established[k].(parent := cid) else row.established[k])
  }

  /** Take in one transaction that arrived complete, then mint what has become due. */
  function Deliver(row: Row, cid: Cid, p: Payload, my: Option<Profile>, draw: Draw): Outcome {
    if Failed(row) then Done(row, [])
    else Ingest(if cid == row.cid then row else Rekey(row, cid), p, my, draw)
  }

  /** A payload already held changes nothing. A refused one leaves even the conversation id as it was. */
  function Ingest(row: Row, p: Payload, my: Option<Profile>, draw: Draw): Outcome {
    if p in row.log then Done(row, [])
    else
      match GateOf(row, p)
      case Stop(s) => Done(s, [])
      case Pass(s) => if Stores(s.sync, p) then Mint(s.(log := s.log + [p]), my, draw) else Refused
  }

  // ---------------------------------------------------------------- minting introductions

  datatype Calling = NoCalling | WrongPolicy | Calling(who: Profile)

  /** How the local side introduces itself, if it can. A device may carry any keys, an identity only its policy's. */
  function LocalCalling(row: Row, my: Option<Profile>, policy: Policy): Calling {
    if my.None? then NoCalling
    else if row.sync then Calling(my.value)
    else if row.identity.None? then NoCalling
    else if row.identity.value != policy then WrongPolicy
    else Calling(my.value)
  }

  function MintInvitee(row: Row, my: Option<Profile>, draw: Draw): Outcome {
    if !(row.party.Invitee? && row.party.invitee.InviteReceived?) || InviteeIntroFor(row.log).Some?
       || NoticeFor(row.log).None?
    then Done(row, [])
    else
      var notice := NoticeFor(row.log).value;
      match LocalCalling(row, my, notice.policy)
      case NoCalling => Done(row, [])
      case WrongPolicy => Done(Fail(row, PolicyNotAccepted(notice.policy)), [])
      case Calling(who) =>
        if notice.intakePk.policy != notice.policy then Refused
        else
          var intake := Key(notice.policy, draw.intake);
          var p := InviteeTx(row.sync, InviteeIntro(who, draw.tagKeys, intake, Wrapped(notice.intakePk, draw.secret)));
          Done(row.(party := Invitee(InviteeMinted(row.party.invitee.policy, intake, draw.secret)), log := row.log + [p]), [p])
  }

  function MintInviter(row: Row, my: Option<Profile>, draw: Draw): Outcome {
    if !(row.party.Inviter? && row.party.inviter.NoticePinned?) || InviterIntroFor(row.log).Some?
       || InviteeIntroFor(row.log).None? || NoticeFor(row.log).None?
    then Done(row, [])
    else
      var notice, i := NoticeFor(row.log).value, InviteeIntroFor(row.log).value.invitee;
      match LocalCalling(row, my, notice.policy)
      case NoCalling => Done(row, [])
      case WrongPolicy => Done(Fail(row, PolicyNotAccepted(notice.policy)), [])
      case Calling(who) =>
        var a := Unwrap(notice.policy, row.party.inviter.intake, i.seedCt);
        if i.intakePk.policy != notice.policy || a.None? then Done(Fail(row, IntroVerifyFailed), [])
        else
          var p := InviterTx(row.sync, InviterIntro(who, draw.tagKeys, Wrapped(i.intakePk, draw.secret)));
          Done(row.(party := Inviter(InviterMinted(row.party.inviter.intake, a.value, draw.secret)),
                    log := row.log + [p]), [p])
  }

  /** A row is on one side only, so at most one of the two introductions is minted. */
  function Mint(row: Row, my: Option<Profile>, draw: Draw): Outcome {
    if row.party.Invitee? then MintInvitee(row, my, draw) else MintInviter(row, my, draw)
  }

  // ---------------------------------------------------------------- the fingerprint and the child

  function SharedInviter(party: Party): Option<nat> {
    match party
    case Inviter(InviterMinted(_, a, _)) => Some(a)
    case Inviter(InviterConfirming(_, a, _)) => Some(a)
    case Invitee(InviteeMinted(_, _, a)) => Some(a)
    case Invitee(IntroductionSent(_, _, a)) => Some(a)
    case Invitee(InviteeConfirming(_, _, a, _)) => Some(a)
    case _ => None
  }

  function SharedInvitee(party: Party): Option<nat> {
    match party
    case Inviter(InviterMinted(_, _, b)) => Some(b)
    case Inviter(InviterConfirming(_, _, b)) => Some(b)
    case Invitee(InviteeConfirming(_, _, _, b)) => Some(b)
    case _ => None
  }

  predicate Confirming(row: Row) {
    match row.party
    case Inviter(p) => p.InviterConfirming?
    case Invitee(p) => p.InviteeConfirming?
  }

  function SpawnOf(ticket: nat, a: nat, b: nat): Spawn {
    if a <= b then Spawn(ticket, a, b) else Spawn(ticket, b, a)
  }

  /** The digest both sides compare, and the secret of the child. */
  function Fingerprint(row: Row): Option<Digest> {
    var j, i := InviterIntroFor(row.log), InviteeIntroFor(row.log);
    var a, b := SharedInviter(row.party), SharedInvitee(row.party);
    if i.None? || j.None? || a.None? || b.None? then None
    else
      var secret := SpawnOf(row.ticket, a.value, b.value);
      if j.value.inviter.who.signingPk.seed <= i.value.invitee.who.signingPk.seed
      then Some(Digest(row.ticket, row.sync, j.value, i.value, secret))
      else Some(Digest(row.ticket, row.sync, i.value, j.value, secret))
  }

  predicate HasChild(row: Row) { exists k :: k in row.established && row.established[k].parent == row.cid }

  /** Add the child, unless the handshake already has one. */
  function SpawnChild(row: Row, secret: Spawn): Row {
    if HasChild(row) then row
    else row.(established := row.established[Spawned(secret) := Child(row.cid, secret)])
  }

  /** Confirming is open in the confirming phase until a decision is in the log, whoever made it. */
  predicate MayDecide(row: Row) { Confirming(row) && ConfirmTx !in row.log && RejectTx !in row.log }

  function Confirm(row: Row): Outcome {
    if !MayDecide(row) || Fingerprint(row).None? then Refused
    else Done(SpawnChild(row.(log := row.log + [ConfirmTx]), Fingerprint(row).value.secret), [])
  }

  function Reject(row: Row): Outcome {
    if !MayDecide(row) then Refused
    else Done(Fail(row.(log := row.log + [RejectTx]), ConfirmationRejected), [])
  }

  // ---------------------------------------------------------------- starting

  function CreateInvite(cid: nat, sync: bool, ticket: nat, intake: Key, expires: nat): Row {
    Row(Drawn(cid), sync, ticket, if sync then None else Some(intake.policy), Inviter(InviteCreated(intake)),
        [NoticeTx(Notice(intake.policy, intake, expires))], map[])
  }

  function ReceiveTicket(cid: nat, sync: bool, ticket: nat, identity: Option<Policy>): Row {
    Row(Drawn(cid), sync, ticket, if sync then None else identity, Invitee(TicketReceived), [], map[])
  }
}
