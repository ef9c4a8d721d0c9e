/** One inviter and one invitee over a network that delays, drops, repeats and reorders what they post. */
module HandshakeProtocol {
  import opened HandshakeRow
  import opened Wrappers

  /** A complete transaction in flight, with the conversation id in its body. */
  datatype Message = Message(cid: Cid, payload: Payload)

  datatype World = World(inviter: Row, invitee: Row, net: set<Message>)

  datatype Side = InviterSide | InviteeSide

  datatype Event =
    | Receive(to: Side, message: Message, my: Option<Profile>, draw: Draw)
    | WritesAcked(who: Side)
    | MintDue(who: Side, my: Option<Profile>, draw: Draw)
    | FailAs(who: Side, reason: Reason)
    | DecideYes(who: Side)
    | DecideNo(who: Side)
    | Resend(who: Side, payload: Payload)

  function RowOf(w: World, side: Side): Row {
    if side.InviterSide? then w.inviter else w.invitee
  }

  function Put(w: World, side: Side, row: Row): World {
    if side.InviterSide? then w.(inviter := row) else w.(invitee := row)
  }

  /** Take over the outcome of a call and put what it posted on the network. */
  function Commit(w: World, side: Side, o: Outcome): World {
    match o
    case Refused => w
    case Done(row, posts) => Post(Put(w, side, row), row.cid, posts)
  }

  function Post(w: World, cid: Cid, posts: seq<Payload>): World {
    w.(net := w.net + set p | p in posts :: Message(cid, p))
  }

  function Step(w: World, e: Event): World {
    match e
    case Receive(to, m, my, draw) =>
      if m in w.net then Commit(w, to, Deliver(RowOf(w, to), m.cid, m.payload, my, draw)) else w
    case WritesAcked(who) => Put(w, who, AckPosted(RowOf(w, who)))
    case MintDue(who, my, draw) => Commit(w, who, Mint(RowOf(w, who), my, draw))
    case FailAs(who, reason) => Put(w, who, Fail(RowOf(w, who), reason))
    case DecideYes(who) => Commit(w, who, Confirm(RowOf(w, who)))
    case DecideNo(who) => Commit(w, who, Reject(RowOf(w, who)))
    case Resend(who, p) => if p in RowOf(w, who).log then Post(w, RowOf(w, who).cid, [p]) else w
  }

  function Run(w: World, events: seq<Event>): World
    decreases |events|
  {
    if events == [] then w else Run(Step(w, events[0]), events[1..])
  }

  /** The invite exists and its notice is posted. The ticket reached the invitee by other means. */
  function Start(cid: nat, own: nat, sync: bool, ticket: nat, intake: Key, expires: nat, identity: Option<Policy>): World {
    var inviter := CreateInvite(cid, sync, ticket, intake, expires);
    World(inviter, ReceiveTicket(own, sync, ticket, identity), {Message(inviter.cid, inviter.log[0])})
  }

  // ---------------------------------------------------------------- the invariant

  /** Every introduction in a list was minted by its author: it is in the author's log. */
  ghost predicate Known(w: World, n: Notice, p: Payload) {
    match p
    case NoticeTx(x) => x == n
    case InviteeTx(s, _) => s == w.invitee.sync && p in w.invitee.log
    case InviterTx(s, _) => s == w.inviter.sync && p in w.inviter.log
    case _ => InviteeIntroFor(w.invitee.log).Some?
  }

  ghost predicate AllKnown(w: World, n: Notice) {
    && (forall p :: p in w.inviter.log ==> Known(w, n, p))
    && (forall p :: p in w.invitee.log ==> Known(w, n, p))
    && (forall m :: m in w.net ==> m.cid == w.inviter.cid && Known(w, n, m.payload))
  }

  ghost predicate OneIntro(log: seq<Payload>) {
    && (forall p, q :: p in log && q in log && p.InviteeTx? && q.InviteeTx? ==> p == q)
    && (forall p, q :: p in log && q in log && p.InviterTx? && q.InviterTx? ==> p == q)
  }

  /** What the inviter's phase says about its log. */
  ghost predicate InviterFits(row: Row, n: Notice) {
    && row.party.Inviter?
    && NoticeTx(n) in row.log
    && (InviterIntroFor(row.log).Some? ==> InviteeIntroFor(row.log).Some?)
    && match row.party.inviter
       case InviteCreated(intake) => intake == n.intakePk && InviterIntroFor(row.log).None?
       case NoticePinned(intake) => intake == n.intakePk && InviterIntroFor(row.log).None?
       case InviterMinted(intake, a, b) => InviterHolds(row.log, intake, a, b)
       case InviterConfirming(intake, a, b) => InviterHolds(row.log, intake, a, b)
       case InviterFailed(_) => true
  }

  ghost predicate InviterHolds(log: seq<Payload>, intake: Key, a: nat, b: nat) {
    && InviteeIntroFor(log).Some?
    && InviterIntroFor(log).Some?
    && InviteeIntroFor(log).value.invitee.seedCt.secret == a
    && InviterIntroFor(log).value.inviter.seedCt.secret == b
  }

  ghost predicate InviteeFits(row: Row, n: Notice) {
    && row.party.Invitee?
    && (row.log != [] ==> NoticeTx(n) in row.log)
    && (InviterIntroFor(row.log).Some? ==> InviteeIntroFor(row.log).Some?)
    && match row.party.invitee
       case TicketReceived => row.log == []
       case InviteReceived(_) => row.log != [] && InviteeIntroFor(row.log).None?
       case InviteeMinted(_, intake, a) => InviteeHolds(row.log, a) && InviterIntroFor(row.log).None?
       case IntroductionSent(_, intake, a) => InviteeHolds(row.log, a) && InviterIntroFor(row.log).None?
       case InviteeConfirming(_, intake, a, b) =>
         InviteeHolds(row.log, a) && InviterIntroFor(row.log).Some?
         && InviterIntroFor(row.log).value.inviter.seedCt.secret == b
       case InviteeFailed(_) => true
  }

  ghost predicate InviteeHolds(log: seq<Payload>, a: nat) {
    InviteeIntroFor(log).Some? && InviteeIntroFor(log).value.invitee.seedCt.secret == a
  }

  /** A child has the secret that the two introductions determine. */
  ghost predicate ChildrenFit(w: World, row: Row) {
    && |row.established| <= 1
    && (forall k :: k in row.established ==>
          && row.established[k].parent == row.cid
          && InviteeIntroFor(w.invitee.log).Some?
          && InviterIntroFor(w.inviter.log).Some?
          && row.established[k].secret == AgreedSecret(w)
          && k == Spawned(row.established[k].secret))
  }

  /** The child secret that follows from the introductions in their authors' logs. */
  ghost function AgreedSecret(w: World): Spawn
    requires InviteeIntroFor(w.invitee.log).Some? && InviterIntroFor(w.inviter.log).Some?
  {
    SpawnOf(w.inviter.ticket, InviteeIntroFor(w.invitee.log).value.invitee.seedCt.secret,
            InviterIntroFor(w.inviter.log).value.inviter.seedCt.secret)
  }

  ghost predicate Inv(w: World, n: Notice) {
    && w.inviter.ticket == w.invitee.ticket
    && w.inviter.sync == w.invitee.sync
    && (w.invitee.log != [] ==> w.invitee.cid == w.inviter.cid)
    && AllKnown(w, n)
    && OneIntro(w.inviter.log) && OneIntro(w.invitee.log)
    && InviterFits(w.inviter, n) && InviteeFits(w.invitee, n)
    && ChildrenFit(w, w.inviter) && ChildrenFit(w, w.invitee)
  }

  lemma StartFits(cid: nat, own: nat, sync: bool, ticket: nat, intake: Key, expires: nat, identity: Option<Policy>)
    ensures Inv(Start(cid, own, sync, ticket, intake, expires, identity), Notice(intake.policy, intake, expires))
  {
  }

  // ---------------------------------------------------------------- finding introductions in a longer log

  lemma {:induction false} NoticeJoin(a: seq<Payload>, p: Payload)
    ensures NoticeFor(a + [p]) == if NoticeFor(a).Some? then NoticeFor(a) else if p.NoticeTx? then Some(p.notice) else None
  {
    if a == [] {
      assert a + [p] == [p];
      assert [p][1..] == [];
    } else {
      assert (a + [p])[1..] == a[1..] + [p];
      NoticeJoin(a[1..], p);
    }
  }

  lemma {:induction false} InviteeJoin(a: seq<Payload>, p: Payload)
    ensures InviteeIntroFor(a + [p])
         == if InviteeIntroFor(a).Some? then InviteeIntroFor(a) else if p.InviteeTx? then Some(p) else None
  {
    if a == [] {
      assert a + [p] == [p];
      assert [p][1..] == [];
    } else {
      assert (a + [p])[1..] == a[1..] + [p];
      InviteeJoin(a[1..], p);
    }
  }

  lemma {:induction false} InviterJoin(a: seq<Payload>, p: Payload)
    ensures InviterIntroFor(a + [p])
         == if InviterIntroFor(a).Some? then InviterIntroFor(a) else if p.InviterTx? then Some(p) else None
  {
    if a == [] {
      assert a + [p] == [p];
      assert [p][1..] == [];
    } else {
      assert (a + [p])[1..] == a[1..] + [p];
      InviterJoin(a[1..], p);
    }
  }

  lemma Joins(a: seq<Payload>, p: Payload)
    ensures InviteeIntroFor(a + [p])
         == if InviteeIntroFor(a).Some? then InviteeIntroFor(a) else if p.InviteeTx? then Some(p) else None
    ensures InviterIntroFor(a + [p])
         == if InviterIntroFor(a).Some? then InviterIntroFor(a) else if p.InviterTx? then Some(p) else None
    ensures forall q :: q in a + [p] <==> q in a || q == p
  {
    InviteeJoin(a, p);
    InviterJoin(a, p);
  }

  // ---------------------------------------------------------------- what each step keeps

  ghost predicate FitsSide(row: Row, n: Notice, side: Side) {
    if side.InviterSide? then InviterFits(row, n) else InviteeFits(row, n)
  }

  /** A phase that fits the log may be taken: nothing else looks at phases. */
  lemma PhaseKeeps(w: World, n: Notice, side: Side, party: Party)
    requires Inv(w, n) && FitsSide(RowOf(w, side).(party := party), n, side)
    ensures Inv(Put(w, side, RowOf(w, side).(party := party)), n)
  {
    var v := Put(w, side, RowOf(w, side).(party := party));
    assert AllKnown(v, n) by {
      assert forall p :: Known(w, n, p) ==> Known(v, n, p);
    }
  }

  lemma FailKeeps(w: World, n: Notice, side: Side, reason: Reason)
    requires Inv(w, n)
    ensures Inv(Put(w, side, Fail(RowOf(w, side), reason)), n)
  {
    var row := RowOf(w, side);
    FailFits(row, n, side, reason);
    PhaseKeeps(w, n, side, Fail(row, reason).party);
  }

  lemma FailFits(row: Row, n: Notice, side: Side, reason: Reason)
    requires FitsSide(row, n, side)
    ensures Fail(row, reason) == row.(party := Fail(row, reason).party) && FitsSide(Fail(row, reason), n, side)
  {
  }

  lemma AckKeeps(w: World, n: Notice, side: Side)
    requires Inv(w, n)
    ensures Inv(Put(w, side, AckPosted(RowOf(w, side))), n)
  {
    var row := RowOf(w, side);
    AckFits(row, n, side);
    PhaseKeeps(w, n, side, AckPosted(row).party);
  }

  lemma AckFits(row: Row, n: Notice, side: Side)
    requires FitsSide(row, n, side)
    ensures AckPosted(row) == row.(party := AckPosted(row).party) && FitsSide(AckPosted(row), n, side)
  {
  }

  lemma ResendKeeps(w: World, n: Notice, side: Side, p: Payload)
    requires Inv(w, n) && p in RowOf(w, side).log
    ensures Inv(Post(w, RowOf(w, side).cid, [p]), n)
  {
  }

  /** The inviter's log grows by a transaction its author holds; the phase stays or fails. */
  lemma InviterStores(w: World, n: Notice, p: Payload)
    requires Inv(w, n) && Known(w, n, p) && p !in w.inviter.log
    ensures Inv(Put(w, InviterSide, w.inviter.(log := w.inviter.log + [p])), n)
  {
    Joins(w.inviter.log, p);
  }

  /** Every transaction stays known when its author's log grows and the network takes the new one. */
  lemma StillKnown(w: World, v: World, n: Notice, p: Payload)
    requires AllKnown(w, n) && Known(v, n, p)
    requires v.inviter.cid == w.inviter.cid && v.inviter.sync == w.inviter.sync && v.invitee.sync == w.invitee.sync
    requires forall q :: q in v.inviter.log ==> q in w.inviter.log || q == p
    requires forall q :: q in v.invitee.log ==> q in w.invitee.log || q == p
    requires forall q :: q in w.inviter.log ==> q in v.inviter.log
    requires forall q :: q in w.invitee.log ==> q in v.invitee.log
    requires forall m :: m in v.net ==> m in w.net || m == Message(w.inviter.cid, p)
    ensures AllKnown(v, n)
  {
    if InviteeIntroFor(w.invitee.log).Some? {
      assert InviteeIntroFor(w.invitee.log).value in v.invitee.log;
    }
    forall q | Known(w, n, q)
      ensures Known(v, n, q)
    {
    }
  }

  lemma InviterMintKeeps(w: World, n: Notice, row: Row, p: Payload)
    requires Inv(w, n) && p.InviterTx? && p.sync == w.inviter.sync
    requires InviterIntroFor(w.inviter.log).None? && InviteeIntroFor(w.inviter.log).Some?
    requires row.party.Inviter? && row.party.inviter.InviterMinted?
    requires row == w.inviter.(party := row.party, log := w.inviter.log + [p])
    requires row.party.inviter.sharedInviter == InviteeIntroFor(w.inviter.log).value.invitee.seedCt.secret
    requires row.party.inviter.sharedInvitee == p.inviter.seedCt.secret
    ensures Inv(Post(Put(w, InviterSide, row), row.cid, [p]), n)
  {
    var v := Post(Put(w, InviterSide, row), row.cid, [p]);
    Joins(w.inviter.log, p);
    StillKnown(w, v, n, p);
    assert OneIntro(row.log);
    assert InviterFits(row, n);
    assert w.inviter.established == map[] && w.invitee.established == map[];
  }

  /** A mint that posts nothing leaves the row as it was, or fails it. */
  lemma QuietMintFails(row: Row, my: Option<Profile>, draw: Draw) returns (reason: Option<Reason>)
    requires Mint(row, my, draw).Done? && Mint(row, my, draw).posts == []
    ensures Mint(row, my, draw).row == if reason.None? then row else Fail(row, reason.value)
  {
    var next := Mint(row, my, draw).row;
    var notice := NoticeFor(row.log);
    if next == row {
      reason := None;
    } else if LocalCalling(row, my, notice.value.policy).WrongPolicy? {
      reason := Some(PolicyNotAccepted(notice.value.policy));
    } else {
      reason := Some(IntroVerifyFailed);
    }
  }

  lemma QuietMintKeeps(w: World, n: Notice, side: Side, my: Option<Profile>, draw: Draw)
    requires Inv(w, n) && Mint(RowOf(w, side), my, draw).Done? && Mint(RowOf(w, side), my, draw).posts == []
    ensures Inv(Commit(w, side, Mint(RowOf(w, side), my, draw)), n)
  {
    var reason := QuietMintFails(RowOf(w, side), my, draw);
    NothingPosted(w, side, Mint(RowOf(w, side), my, draw).row);
    if reason.Some? {
      FailKeeps(w, n, side, reason.value);
    }
  }

  lemma InviterMints(w: World, n: Notice, my: Option<Profile>, draw: Draw)
    requires Inv(w, n)
    ensures Inv(Commit(w, InviterSide, Mint(w.inviter, my, draw)), n)
  {
    var o := Mint(w.inviter, my, draw);
    if o.Done? {
      if o.posts == [] {
        QuietMintKeeps(w, n, InviterSide, my, draw);
      } else {
        InviterMintKeeps(w, n, o.row, o.posts[0]);
      }
    }
  }

  lemma InviterIngests(w: World, n: Notice, p: Payload, my: Option<Profile>, draw: Draw)
    requires Inv(w, n) && Known(w, n, p) && !Failed(w.inviter)
    ensures Inv(Commit(w, InviterSide, Ingest(w.inviter, p, my, draw)), n)
  {
    if p !in w.inviter.log {
      match GateOf(w.inviter, p)
      case Stop(s) =>
        var reason := StopFails(w.inviter, p);
        FailKeeps(w, n, InviterSide, reason);
        NothingPosted(w, InviterSide, s);
      case Pass(s) =>
        InviterPasses(w, n, p, s);
        InviterStores(w, n, p);
        InviterMints(Put(w, InviterSide, s.(log := s.log + [p])), n, my, draw);
    }
  }

  /** The inviter's phase does not move at the gate, and what it passes its row can store. */
  lemma InviterPasses(w: World, n: Notice, p: Payload, s: Row)
    requires Inv(w, n) && Known(w, n, p) && p !in w.inviter.log && GateOf(w.inviter, p) == Pass(s)
    ensures s == w.inviter && Stores(s.sync, p)
  {
  }

  lemma InviterReceives(w: World, n: Notice, m: Message, my: Option<Profile>, draw: Draw)
    requires Inv(w, n) && m in w.net
    ensures Inv(Commit(w, InviterSide, Deliver(w.inviter, m.cid, m.payload, my, draw)), n)
  {
    if Failed(w.inviter) {
      NothingPosted(w, InviterSide, w.inviter);
    } else {
      InviterIngests(w, n, m.payload, my, draw);
    }
  }

  lemma InviteeMintKeeps(w: World, n: Notice, row: Row, p: Payload)
    requires Inv(w, n) && p.InviteeTx? && p.sync == w.invitee.sync
    requires w.invitee.party.Invitee? && w.invitee.party.invitee.InviteReceived? && InviteeIntroFor(w.invitee.log).None?
    requires row.party.Invitee? && row.party.invitee.InviteeMinted?
    requires row == w.invitee.(party := row.party, log := w.invitee.log + [p])
    requires row.party.invitee.sharedInviter == p.invitee.seedCt.secret
    ensures Inv(Post(Put(w, InviteeSide, row), row.cid, [p]), n)
  {
    var v := Post(Put(w, InviteeSide, row), row.cid, [p]);
    Joins(w.invitee.log, p);
    StillKnown(w, v, n, p);
    assert OneIntro(row.log);
    assert InviteeFits(row, n);
    assert w.inviter.established == map[] && w.invitee.established == map[];
  }

  lemma InviteeMints(w: World, n: Notice, my: Option<Profile>, draw: Draw)
    requires Inv(w, n)
    ensures Inv(Commit(w, InviteeSide, Mint(w.invitee, my, draw)), n)
  {
    var o := Mint(w.invitee, my, draw);
    if o.Done? {
      if o.posts == [] {
        QuietMintKeeps(w, n, InviteeSide, my, draw);
      } else {
        InviteeMintKeeps(w, n, o.row, o.posts[0]);
      }
    }
  }

  /** A row that takes the inviter's conversation id has stored nothing yet, so nothing has to move. */
  lemma RekeyOnlyWhenEmpty(w: World, n: Notice)
    requires Inv(w, n) && w.invitee.cid != w.inviter.cid
    ensures w.invitee.log == [] && w.invitee.established == map[]
    ensures Rekey(w.invitee, w.inviter.cid) == w.invitee.(cid := w.inviter.cid)
    ensures Inv(Put(w, InviteeSide, w.invitee.(cid := w.inviter.cid)), n)
  {
    assert w.invitee.log == [];
    assert InviteeIntroFor(w.invitee.log).None?;
    assert w.invitee.established == map[];
  }

  /** The invitee's log grows by a transaction of the inviter, and the phase moves with it. */
  lemma InviteeStored(w: World, n: Notice, party: Party, p: Payload)
    requires Inv(w, n) && Known(w, n, p) && p !in w.invitee.log && w.invitee.cid == w.inviter.cid
    requires InviteeFits(w.invitee.(party := party, log := w.invitee.log + [p]), n)
    ensures Inv(Put(w, InviteeSide, w.invitee.(party := party, log := w.invitee.log + [p])), n)
  {
    var v := Put(w, InviteeSide, w.invitee.(party := party, log := w.invitee.log + [p]));
    Joins(w.invitee.log, p);
    assert !p.InviteeTx?;
    StillKnown(w, v, n, p);
  }

  lemma InviteeTakesNotice(w: World, n: Notice, s: Row, p: Payload)
    requires Inv(w, n) && p == NoticeTx(n) && p !in w.invitee.log && w.invitee.cid == w.inviter.cid
    requires !Failed(w.invitee) && GateOf(w.invitee, p) == Pass(s)
    ensures Inv(Put(w, InviteeSide, s.(log := s.log + [p])), n)
  {
    assert w.invitee.log == [];
    Joins(w.invitee.log, p);
    assert s == w.invitee.(party := s.party);
    InviteeStored(w, n, s.party, p);
  }

  lemma InviteeTakesIntro(w: World, n: Notice, s: Row, p: Payload)
    requires Inv(w, n) && Known(w, n, p) && p.InviterTx? && p !in w.invitee.log && w.invitee.cid == w.inviter.cid
    requires !Failed(w.invitee) && GateOf(w.invitee, p) == Pass(s)
    ensures Inv(Put(w, InviteeSide, s.(log := s.log + [p])), n)
  {
    Joins(w.invitee.log, p);
    assert s == w.invitee.(party := s.party);
    InviteeStored(w, n, s.party, p);
  }

  lemma InviteeTakesDecision(w: World, n: Notice, p: Payload)
    requires Inv(w, n) && Known(w, n, p) && (p.ConfirmTx? || p.RejectTx?)
    requires p !in w.invitee.log && w.invitee.cid == w.inviter.cid
    ensures Inv(Put(w, InviteeSide, w.invitee.(log := w.invitee.log + [p])), n)
  {
    Joins(w.invitee.log, p);
    assert w.invitee.log != [];
    InviteeStored(w, n, w.invitee.party, p);
  }

  lemma InviteeStores(w: World, n: Notice, s: Row, p: Payload)
    requires Inv(w, n) && Known(w, n, p) && p !in w.invitee.log && w.invitee.cid == w.inviter.cid
    requires !Failed(w.invitee) && GateOf(w.invitee, p) == Pass(s)
    ensures Inv(Put(w, InviteeSide, s.(log := s.log + [p])), n)
  {
    match p
    case NoticeTx(_) => InviteeTakesNotice(w, n, s, p);
    case InviterTx(_, _) => InviteeTakesIntro(w, n, s, p);
    case ConfirmTx => InviteeTakesDecision(w, n, p);
    case RejectTx => InviteeTakesDecision(w, n, p);
    case InviteeTx(_, _) =>
  }

  lemma StopFails(row: Row, p: Payload) returns (reason: Reason)
    requires GateOf(row, p).Stop?
    ensures GateOf(row, p).row == Fail(row, reason)
  {
    match p
    case NoticeTx(_) => reason := NoticeConflict;
    case InviteeTx(_, _) => reason := if InviteeIntroFor(row.log).Some? then DuplicateIntro else IntroVerifyFailed;
    case InviterTx(_, _) => reason := if InviterIntroFor(row.log).Some? then DuplicateIntro else IntroVerifyFailed;
    case _ =>
  }

  lemma InviteeIngests(w: World, n: Notice, p: Payload, my: Option<Profile>, draw: Draw)
    requires Inv(w, n) && Known(w, n, p) && w.invitee.cid == w.inviter.cid && !Failed(w.invitee)
    ensures Inv(Commit(w, InviteeSide, Ingest(w.invitee, p, my, draw)), n)
  {
    if p !in w.invitee.log {
      match GateOf(w.invitee, p)
      case Stop(s) =>
        var reason := StopFails(w.invitee, p);
        FailKeeps(w, n, InviteeSide, reason);
        NothingPosted(w, InviteeSide, s);
      case Pass(s) =>
        if Stores(s.sync, p) {
          InviteeStores(w, n, s, p);
          InviteeMints(Put(w, InviteeSide, s.(log := s.log + [p])), n, my, draw);
        }
    }
  }

  lemma InviteeReceives(w: World, n: Notice, m: Message, my: Option<Profile>, draw: Draw)
    requires Inv(w, n) && m in w.net
    ensures Inv(Commit(w, InviteeSide, Deliver(w.invitee, m.cid, m.payload, my, draw)), n)
  {
    if !Failed(w.invitee) {
      if w.invitee.cid != w.inviter.cid {
        RekeyOnlyWhenEmpty(w, n);
        InviteeIngests(Put(w, InviteeSide, w.invitee.(cid := w.inviter.cid)), n, m.payload, my, draw);
      } else {
        InviteeIngests(w, n, m.payload, my, draw);
      }
    }
  }

  /** In the confirming phase both introductions are in the log, and they are the ones their authors hold. */
  lemma ConfirmingHoldsBoth(w: World, n: Notice, side: Side)
    requires Inv(w, n) && Confirming(RowOf(w, side))
    ensures InviteeIntroFor(w.invitee.log).Some? && InviterIntroFor(w.inviter.log).Some?
    ensures InviteeIntroFor(RowOf(w, side).log) == InviteeIntroFor(w.invitee.log)
    ensures InviterIntroFor(RowOf(w, side).log) == InviterIntroFor(w.inviter.log)
    ensures SharedInviter(RowOf(w, side).party) == Some(InviteeIntroFor(w.invitee.log).value.invitee.seedCt.secret)
    ensures SharedInvitee(RowOf(w, side).party) == Some(InviterIntroFor(w.inviter.log).value.inviter.seedCt.secret)
  {
    var row := RowOf(w, side);
    assert Known(w, n, InviteeIntroFor(row.log).value);
    assert Known(w, n, InviterIntroFor(row.log).value);
  }

  lemma FingerprintAgrees(w: World, n: Notice, side: Side)
    requires Inv(w, n) && Confirming(RowOf(w, side))
    ensures InviteeIntroFor(w.invitee.log).Some? && InviterIntroFor(w.inviter.log).Some?
    ensures Fingerprint(RowOf(w, side)).Some? && Fingerprint(RowOf(w, side)).value == AgreedDigest(w)
  {
    ConfirmingHoldsBoth(w, n, side);
  }

  /** The digest that follows from the two introductions alone. */
  ghost function AgreedDigest(w: World): Digest
    requires InviteeIntroFor(w.invitee.log).Some? && InviterIntroFor(w.inviter.log).Some?
  {
    var i, j := InviteeIntroFor(w.invitee.log).value, InviterIntroFor(w.inviter.log).value;
    if j.inviter.who.signingPk.seed <= i.invitee.who.signingPk.seed
    then Digest(w.inviter.ticket, w.inviter.sync, j, i, AgreedSecret(w))
    else Digest(w.inviter.ticket, w.inviter.sync, i, j, AgreedSecret(w))
  }

  lemma DecisionStored(w: World, n: Notice, side: Side, p: Payload)
    requires Inv(w, n) && Confirming(RowOf(w, side)) && (p.ConfirmTx? || p.RejectTx?) && p !in RowOf(w, side).log
    ensures Inv(Put(w, side, RowOf(w, side).(log := RowOf(w, side).log + [p])), n)
  {
    ConfirmingHoldsBoth(w, n, side);
    if side.InviterSide? {
      InviterStores(w, n, p);
    } else {
      InviteeTakesDecision(w, n, p);
    }
  }

  lemma ChildFits(w: World, n: Notice, side: Side)
    requires Inv(w, n) && Confirming(RowOf(w, side))
    requires InviteeIntroFor(w.invitee.log).Some? && InviterIntroFor(w.inviter.log).Some?
    ensures Inv(Put(w, side, SpawnChild(RowOf(w, side), AgreedSecret(w))), n)
  {
    NoChildYet(RowOf(w, side));
  }

  lemma NoChildYet(row: Row)
    requires forall k :: k in row.established ==> row.established[k].parent == row.cid
    ensures HasChild(row) <==> row.established != map[]
  {
    if row.established != map[] {
      var k :| k in row.established;
    }
  }

  lemma ConfirmIs(w: World, n: Notice, side: Side)
    requires Inv(w, n) && MayDecide(RowOf(w, side))
    ensures InviteeIntroFor(w.invitee.log).Some? && InviterIntroFor(w.inviter.log).Some?
    ensures var row := RowOf(w, side);
            Confirm(row) == Done(SpawnChild(row.(log := row.log + [ConfirmTx]), AgreedSecret(w)), [])
  {
    FingerprintAgrees(w, n, side);
  }

  lemma ConfirmKeeps(w: World, n: Notice, side: Side)
    requires Inv(w, n)
    ensures Inv(Commit(w, side, Confirm(RowOf(w, side))), n)
  {
    var row := RowOf(w, side);
    if MayDecide(row) {
      ConfirmIs(w, n, side);
      DecisionStored(w, n, side, ConfirmTx);
      var v := Put(w, side, row.(log := row.log + [ConfirmTx]));
      Joins(row.log, ConfirmTx);
      SameAgreement(w, v);
      ChildFits(v, n, side);
      NothingPosted(w, side, SpawnChild(RowOf(v, side), AgreedSecret(v)));
    }
  }

  lemma NothingPosted(w: World, side: Side, row: Row)
    ensures Commit(w, side, Done(row, [])) == Put(w, side, row)
  {
  }

  lemma SameAgreement(w: World, v: World)
    requires InviteeIntroFor(w.invitee.log).Some? && InviterIntroFor(w.inviter.log).Some?
    requires w.inviter.ticket == v.inviter.ticket
    requires InviteeIntroFor(w.invitee.log) == InviteeIntroFor(v.invitee.log)
    requires InviterIntroFor(w.inviter.log) == InviterIntroFor(v.inviter.log)
    ensures AgreedSecret(v) == AgreedSecret(w)
  {
  }

  lemma RejectKeeps(w: World, n: Notice, side: Side)
    requires Inv(w, n)
    ensures Inv(Commit(w, side, Reject(RowOf(w, side))), n)
  {
    var row := RowOf(w, side);
    if MayDecide(row) {
      DecisionStored(w, n, side, RejectTx);
      var v := Put(w, side, row.(log := row.log + [RejectTx]));
      FailKeeps(v, n, side, ConfirmationRejected);
      assert Commit(w, side, Reject(row)) == Put(v, side, Fail(RowOf(v, side), ConfirmationRejected));
    }
  }

  lemma StepKeeps(w: World, n: Notice, e: Event)
    requires Inv(w, n)
    ensures Inv(Step(w, e), n)
  {
    match e
    case Receive(to, m, my, draw) =>
      if m in w.net {
        if to.InviterSide? { InviterReceives(w, n, m, my, draw); } else { InviteeReceives(w, n, m, my, draw); }
      }
    case WritesAcked(who) => AckKeeps(w, n, who);
    case MintDue(who, my, draw) =>
      if who.InviterSide? { InviterMints(w, n, my, draw); } else { InviteeMints(w, n, my, draw); }
    case FailAs(who, reason) => FailKeeps(w, n, who, reason);
    case DecideYes(who) => ConfirmKeeps(w, n, who);
    case DecideNo(who) => RejectKeeps(w, n, who);
    case Resend(who, p) =>
      if p in RowOf(w, who).log { ResendKeeps(w, n, who, p); }
  }

  lemma {:induction false} RunKeeps(w: World, n: Notice, events: seq<Event>)
    requires Inv(w, n)
    ensures Inv(Run(w, events), n)
    decreases |events|
  {
    if events != [] {
      StepKeeps(w, n, events[0]);
      RunKeeps(Step(w, events[0]), n, events[1..]);
    }
  }

  // ---------------------------------------------------------------- agreement

  /**
    * In every run from an invite and its ticket, over any network: when both sides are confirming they hold the
    * same two shared secrets and compute the same digest, hence the same child secret and the same child id.
    */
  lemma ConfirmingAgrees(cid: nat, own: nat, sync: bool, ticket: nat, intake: Key, expires: nat,
                         identity: Option<Policy>, events: seq<Event>)
    ensures var w := Run(Start(cid, own, sync, ticket, intake, expires, identity), events);
            Confirming(w.inviter) && Confirming(w.invitee) ==>
              && SharedInviter(w.inviter.party) == SharedInviter(w.invitee.party)
              && SharedInvitee(w.inviter.party) == SharedInvitee(w.invitee.party)
              && Fingerprint(w.inviter).Some?
              && Fingerprint(w.inviter) == Fingerprint(w.invitee)
              && w.inviter.cid == w.invitee.cid
  {
    var n := Notice(intake.policy, intake, expires);
    var w0 := Start(cid, own, sync, ticket, intake, expires, identity);
    var w := Run(w0, events);
    StartFits(cid, own, sync, ticket, intake, expires, identity);
    RunKeeps(w0, n, events);
    if Confirming(w.inviter) && Confirming(w.invitee) {
      FingerprintAgrees(w, n, InviterSide);
      FingerprintAgrees(w, n, InviteeSide);
      ConfirmingHoldsBoth(w, n, InviterSide);
      ConfirmingHoldsBoth(w, n, InviteeSide);
    }
  }

  /**
    * In every such run each side has at most one child, and any two children, on whichever sides they are and
    * whatever has become of the rows since, have the same id and the same secret.
    */
  lemma ChildrenAgree(cid: nat, own: nat, sync: bool, ticket: nat, intake: Key, expires: nat,
                      identity: Option<Policy>, events: seq<Event>)
    ensures var w := Run(Start(cid, own, sync, ticket, intake, expires, identity), events);
            && |w.inviter.established| <= 1
            && |w.invitee.established| <= 1
            && (forall k, l :: k in w.inviter.established && l in w.invitee.established ==>
                  k == l && w.inviter.established[k] == w.invitee.established[l])
  {
    var n := Notice(intake.policy, intake, expires);
    var w0 := Start(cid, own, sync, ticket, intake, expires, identity);
    StartFits(cid, own, sync, ticket, intake, expires, identity);
    RunKeeps(w0, n, events);
  }

  /** In every such run a side can confirm exactly while it is confirming and no decision is in its log; it then has its child. */
  lemma ConfirmsExactlyWhen(cid: nat, own: nat, sync: bool, ticket: nat, intake: Key, expires: nat,
                            identity: Option<Policy>, events: seq<Event>, side: Side)
    ensures var row := RowOf(Run(Start(cid, own, sync, ticket, intake, expires, identity), events), side);
            && (Confirm(row).Done? <==> MayDecide(row))
            && (Confirm(row).Done? ==> HasChild(Confirm(row).row))
  {
    var n := Notice(intake.policy, intake, expires);
    var w0 := Start(cid, own, sync, ticket, intake, expires, identity);
    StartFits(cid, own, sync, ticket, intake, expires, identity);
    RunKeeps(w0, n, events);
    var w := Run(w0, events);
    var row := RowOf(w, side);
    if MayDecide(row) {
      ConfirmIs(w, n, side);
      var secret := AgreedSecret(w);
      if !HasChild(row.(log := row.log + [ConfirmTx])) {
        assert Spawned(secret) in Confirm(row).row.established;
      }
    }
  }

  /**
    * A confirmation resent by the peer closes the local decision, and so does a rejection: the row stays in its confirming
    * phase, it has no child it did not have before, and neither confirming nor rejecting is open any more.
    */
  lemma PeerConfirmCloses(row: Row, decision: Payload, my: Option<Profile>, draw: Draw)
    requires MayDecide(row) && (decision.ConfirmTx? || decision.RejectTx?)
    ensures var o := Deliver(row, row.cid, decision, my, draw);
            && o.Done? && Confirming(o.row) && o.row.established == row.established
            && Confirm(o.row) == Refused && Reject(o.row) == Refused
  {
    assert decision in row.log + [decision];
  }

  // ---------------------------------------------------------------- the handshake completes

  /** The local keys have the policy of the invite. */
  predicate Suits(who: Profile, policy: Policy) {
    who.encryptionPk.policy == policy && who.signingPk.policy == policy
  }

  function MyInvitee(sync: bool, n: Notice, who: Profile, draw: Draw): (p: Payload)
    ensures p.InviteeTx?
  {
    InviteeTx(sync, InviteeIntro(who, draw.tagKeys, Key(n.policy, draw.intake), Wrapped(n.intakePk, draw.secret)))
  }

  function MyInviter(sync: bool, i: InviteeIntro, who: Profile, draw: Draw): (p: Payload)
    ensures p.InviterTx?
  {
    InviterTx(sync, InviterIntro(who, draw.tagKeys, Wrapped(i.intakePk, draw.secret)))
  }

  lemma NoticeArrives(row: Row, c: Cid, n: Notice, who: Profile, draw: Draw)
    requires row.party == Invitee(TicketReceived) && row.log == [] && row.established == map[]
    requires n.intakePk.policy == n.policy && row.identity == if row.sync then None else Some(n.policy)
    ensures var i := MyInvitee(row.sync, n, who, draw);
            Deliver(row, c, NoticeTx(n), Some(who), draw)
            == Done(row.(cid := c, log := [NoticeTx(n), i],
                         party := Invitee(InviteeMinted(n.policy, i.invitee.intakePk, draw.secret))), [i])
  {
    var r := row.(cid := c);
    assert (if c == row.cid then row else Rekey(row, c)) == r;
    assert [] + [NoticeTx(n)] == [NoticeTx(n)];
    var s := r.(log := [NoticeTx(n)], party := Invitee(InviteReceived(n.policy)));
    NoticeJoin([], NoticeTx(n));
    Joins([], NoticeTx(n));
    assert Ingest(r, NoticeTx(n), Some(who), draw) == MintInvitee(s, Some(who), draw);
  }

  lemma InviteeIntroArrives(row: Row, n: Notice, i: Payload, who: Profile, draw: Draw)
    requires row.party == Inviter(NoticePinned(n.intakePk)) && row.log == [NoticeTx(n)] && n.intakePk.policy == n.policy
    requires row.sync || row.identity == Some(n.policy)
    requires i.InviteeTx? && i.sync == row.sync && Suits(i.invitee.who, n.policy)
    requires i.invitee.intakePk.policy == n.policy && i.invitee.seedCt.to == n.intakePk
    ensures var j := MyInviter(row.sync, i.invitee, who, draw);
            Deliver(row, row.cid, i, Some(who), draw)
            == Done(row.(log := [NoticeTx(n), i, j],
                         party := Inviter(InviterMinted(n.intakePk, i.invitee.seedCt.secret, draw.secret))), [j])
  {
    NoticeJoin([], NoticeTx(n));
    Joins([], NoticeTx(n));
    assert [] + [NoticeTx(n)] == row.log;
    Joins(row.log, i);
    NoticeJoin(row.log, i);
    var s := row.(log := row.log + [i]);
    assert Ingest(row, i, Some(who), draw) == MintInviter(s, Some(who), draw);
    assert row.log + [i] == [NoticeTx(n), i];
  }

  lemma InviterIntroArrives(row: Row, n: Notice, i: Payload, j: Payload, intake: Key, a: nat, draw: Draw)
    requires row.party == Invitee(InviteeMinted(n.policy, intake, a)) && row.log == [NoticeTx(n), i] && i.InviteeTx?
    requires j.InviterTx? && j.sync == row.sync && Suits(j.inviter.who, n.policy)
    requires intake.policy == n.policy && j.inviter.seedCt.to == intake
    ensures Deliver(row, row.cid, j, None, draw)
         == Done(row.(log := row.log + [j], party := Invitee(InviteeConfirming(n.policy, intake, a, j.inviter.seedCt.secret))), [])
  {
    NoticeJoin([], NoticeTx(n));
    Joins([], NoticeTx(n));
    assert [] + [NoticeTx(n)] == [NoticeTx(n)];
    NoticeJoin([NoticeTx(n)], i);
    Joins([NoticeTx(n)], i);
    assert [NoticeTx(n)] + [i] == row.log;
    Joins(row.log, j);
  }

  /** The deliveries of an undisturbed handshake. */
  function Undisturbed(c: Cid, n: Notice, i: Payload, j: Payload, his: Profile, hers: Profile, d: Draw, e: Draw): seq<Event> {
    [Receive(InviteeSide, Message(c, NoticeTx(n)), Some(his), d), WritesAcked(InviterSide),
     Receive(InviterSide, Message(c, i), Some(hers), e), WritesAcked(InviterSide),
     Receive(InviteeSide, Message(c, j), None, d)]
  }

  lemma RunsOn(w: World, e: Event, rest: seq<Event>)
    ensures Run(w, [e] + rest) == Run(Step(w, e), rest)
  {
    assert ([e] + rest)[1..] == rest;
  }

  lemma PostedIsThere(w: World, side: Side, row: Row, p: Payload)
    ensures var v := Commit(w, side, Done(row, [p]));
            RowOf(v, side) == row && (side.InviterSide? ==> v.invitee == w.invitee)
            && (side.InviteeSide? ==> v.inviter == w.inviter) && Message(row.cid, p) in v.net
  {
    assert p in [p];
  }

  /** The notice reaches the invitee, whose introduction is then on its way. */
  lemma FirstMoves(w: World, n: Notice, his: Profile, d: Draw)
    requires w.invitee.party == Invitee(TicketReceived) && w.invitee.log == [] && w.invitee.established == map[]
    requires n.intakePk.policy == n.policy && w.invitee.identity == if w.invitee.sync then None else Some(n.policy)
    requires w.inviter.party == Inviter(InviteCreated(n.intakePk)) && Message(w.inviter.cid, NoticeTx(n)) in w.net
    ensures var i, c := MyInvitee(w.invitee.sync, n, his, d), w.inviter.cid;
            var v := Step(Step(w, Receive(InviteeSide, Message(c, NoticeTx(n)), Some(his), d)), WritesAcked(InviterSide));
            && v.invitee == w.invitee.(cid := c, log := [NoticeTx(n), i],
                                       party := Invitee(InviteeMinted(n.policy, i.invitee.intakePk, d.secret)))
            && v.inviter == w.inviter.(party := Inviter(NoticePinned(n.intakePk)))
            && Message(c, i) in v.net
  {
    var i, c := MyInvitee(w.invitee.sync, n, his, d), w.inviter.cid;
    NoticeArrives(w.invitee, c, n, his, d);
    PostedIsThere(w, InviteeSide, Deliver(w.invitee, c, NoticeTx(n), Some(his), d).row, i);
  }

  /** The invitee's introduction reaches the inviter, whose own introduction is then on its way. */
  lemma NextMoves(w: World, n: Notice, i: Payload, hers: Profile, e: Draw)
    requires w.inviter.party == Inviter(NoticePinned(n.intakePk)) && w.inviter.log == [NoticeTx(n)]
    requires n.intakePk.policy == n.policy && (w.inviter.sync || w.inviter.identity == Some(n.policy))
    requires i.InviteeTx? && i.sync == w.inviter.sync && Suits(i.invitee.who, n.policy)
    requires i.invitee.intakePk.policy == n.policy && i.invitee.seedCt.to == n.intakePk
    requires Message(w.inviter.cid, i) in w.net
    ensures var j, c := MyInviter(w.inviter.sync, i.invitee, hers, e), w.inviter.cid;
            var v := Step(Step(w, Receive(InviterSide, Message(c, i), Some(hers), e)), WritesAcked(InviterSide));
            && v.invitee == w.invitee
            && v.inviter == w.inviter.(log := [NoticeTx(n), i, j],
                                       party := Inviter(InviterConfirming(n.intakePk, i.invitee.seedCt.secret, e.secret)))
            && Message(c, j) in v.net
  {
    var j, c := MyInviter(w.inviter.sync, i.invitee, hers, e), w.inviter.cid;
    InviteeIntroArrives(w.inviter, n, i, hers, e);
    PostedIsThere(w, InviterSide, Deliver(w.inviter, c, i, Some(hers), e).row, j);
  }

  /** Whoever the two sides are and whatever they draw, if their policies match there is a run after which both confirm. */
  lemma HandshakeCompletes(cid: nat, own: nat, sync: bool, ticket: nat, intake: Key, expires: nat,
                           his: Profile, hers: Profile, d: Draw, e: Draw)
    requires Suits(his, intake.policy) && Suits(hers, intake.policy)
    ensures exists events ::
              var w := Run(Start(cid, own, sync, ticket, intake, expires, Some(intake.policy)), events);
              MayDecide(w.inviter) && MayDecide(w.invitee)
  {
    var n := Notice(intake.policy, intake, expires);
    var c := Drawn(cid);
    var w0 := Start(cid, own, sync, ticket, intake, expires, Some(intake.policy));
    var i := MyInvitee(sync, n, his, d);
    var j := MyInviter(sync, i.invitee, hers, e);
    var events := Undisturbed(c, n, i, j, his, hers, d, e);
    FirstMoves(w0, n, his, d);
    var w1 := Step(w0, events[0]);
    var w2 := Step(w1, events[1]);
    NextMoves(w2, n, i, hers, e);
    var w3 := Step(w2, events[2]);
    var w4 := Step(w3, events[3]);
    InviterIntroArrives(w4.invitee, n, i, j, i.invitee.intakePk, d.secret, d);
    var w5 := Step(w4, events[4]);
    assert MayDecide(w5.inviter) && MayDecide(w5.invitee);
    FiveSteps(w0, events);
  }

  lemma FiveSteps(w: World, events: seq<Event>)
    requires |events| == 5
    ensures Run(w, events) == Step(Step(Step(Step(Step(w, events[0]), events[1]), events[2]), events[3]), events[4])
  {
    RunsOn(w, events[0], events[1..]);
    assert events == [events[0]] + events[1..];
    var w1 := Step(w, events[0]);
    RunsOn(w1, events[1], events[2..]);
    assert events[1..] == [events[1]] + events[2..];
    var w2 := Step(w1, events[1]);
    RunsOn(w2, events[2], events[3..]);
    assert events[2..] == [events[2]] + events[3..];
    var w3 := Step(w2, events[2]);
    RunsOn(w3, events[3], events[4..]);
    assert events[3..] == [events[3]] + events[4..];
    RunsOn(Step(w3, events[3]), events[4], []);
    assert events[4..] == [events[4]] + [];
  }
}
