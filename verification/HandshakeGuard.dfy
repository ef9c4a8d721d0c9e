/** One side of a handshake against anybody: whatever arrives, in whatever order and from whomever, its row holds only what fits. */
module HandshakeGuard {
  import opened HandshakeProtocol
  import opened HandshakeRow
  import opened Wrappers

  /** Anything that can happen to a row. What it hears may be made up by whoever has the ticket. */
  datatype Move =
    | Hears(cid: Cid, payload: Payload, my: Option<Profile>, draw: Draw)
    | WritesDone
    | Mints(my: Option<Profile>, draw: Draw)
    | Fails(reason: Reason)
    | Confirms
    | Rejects

  function OrStay(row: Row, o: Outcome): Row { if o.Done? then o.row else row }

  function After(row: Row, m: Move): Row {
    match m
    case Hears(cid, p, my, draw) => OrStay(row, Deliver(row, cid, p, my, draw))
    case WritesDone => AckPosted(row)
    case Mints(my, draw) => OrStay(row, Mint(row, my, draw))
    case Fails(reason) => Fail(row, reason)
    case Confirms => OrStay(row, Confirm(row))
    case Rejects => OrStay(row, Reject(row))
  }

  function Live(row: Row, moves: seq<Move>): Row
    decreases |moves|
  {
    if moves == [] then row else Live(After(row, moves[0]), moves[1..])
  }

  // ---------------------------------------------------------------- what a row holds

  ghost predicate OneNotice(log: seq<Payload>) {
    forall p :: p in log && p.NoticeTx? ==> NoticeFor(log) == Some(p.notice)
  }

  /** The keys and the ciphertext of a profile have the policy of the notice. */
  predicate FitsNotice(n: Notice, who: Profile, ct: Wrapped) {
    who.encryptionPk.policy == n.policy && who.signingPk.policy == n.policy && ct.to.policy == n.policy
  }

  /** What the inviter holds of the invitee: it came after a notice, fits it, and was wrapped for the inviter's own key. */
  ghost predicate InviterHoldsFitting(row: Row)
    requires row.party.Inviter?
  {
    && (forall p :: p in row.log && p.InviteeTx? ==>
          && NoticeFor(row.log).Some?
          && FitsNotice(NoticeFor(row.log).value, p.invitee.who, p.invitee.seedCt)
          && p.invitee.intakePk.policy == NoticeFor(row.log).value.policy
          && (!row.party.inviter.InviterFailed? ==> p.invitee.seedCt.to == row.party.inviter.intake))
    && (SharedInviter(row.party).Some? ==>
          InviteeIntroFor(row.log).Some? && SharedInviter(row.party).value == InviteeIntroFor(row.log).value.invitee.seedCt.secret)
  }

  /** What the invitee holds of the inviter, and the secret it confirms with: the one that was wrapped for its own key. */
  ghost predicate InviteeHoldsFitting(row: Row)
    requires row.party.Invitee?
  {
    && (forall p :: p in row.log && p.InviterTx? ==>
          && NoticeFor(row.log).Some?
          && FitsNotice(NoticeFor(row.log).value, p.inviter.who, p.inviter.seedCt)
          && (row.party.invitee.InviteeFailed? || row.party.invitee.InviteeConfirming?))
    && (row.party.invitee.InviteeConfirming? ==>
          && InviterIntroFor(row.log).Some?
          && InviterIntroFor(row.log).value.inviter.seedCt
             == Wrapped(row.party.invitee.intake, row.party.invitee.sharedInvitee))
  }

  ghost predicate Guarded(row: Row) {
    && OneNotice(row.log) && OneIntro(row.log)
    && (forall p :: p in row.log && p.InviteeTx? ==> p.sync == row.sync)
    && (forall p :: p in row.log && p.InviterTx? ==> p.sync == row.sync)
    && (if row.party.Inviter? then InviterHoldsFitting(row) else InviteeHoldsFitting(row))
  }

  lemma StartsGuarded(cid: nat, sync: bool, ticket: nat, intake: Key, expires: nat, identity: Option<Policy>)
    ensures Guarded(CreateInvite(cid, sync, ticket, intake, expires)) && Guarded(ReceiveTicket(cid, sync, ticket, identity))
  {
  }

  // ---------------------------------------------------------------- every move keeps it

  lemma FailStaysGuarded(row: Row, reason: Reason)
    requires Guarded(row)
    ensures Guarded(Fail(row, reason))
  {
  }

  lemma AckStaysGuarded(row: Row)
    requires Guarded(row)
    ensures Guarded(AckPosted(row))
  {
  }

  lemma NoticeStays(row: Row, p: Payload)
    requires OneNotice(row.log) && (p.NoticeTx? ==> NoticeFor(row.log).None? || NoticeFor(row.log) == Some(p.notice))
    ensures OneNotice(row.log + [p])
    ensures NoticeFor(row.log).Some? ==> NoticeFor(row.log + [p]) == NoticeFor(row.log)
  {
    NoticeJoin(row.log, p);
  }

  lemma OneIntroStays(log: seq<Payload>, p: Payload)
    requires OneIntro(log)
    requires (p.InviteeTx? ==> InviteeIntroFor(log).None?) && (p.InviterTx? ==> InviterIntroFor(log).None?)
    ensures OneIntro(log + [p])
  {
  }

  /** A notice or a decision, or an introduction of this side's own kind: nothing that is held of the other side changes. */
  lemma OwnStaysGuarded(row: Row, s: Row, p: Payload)
    requires Guarded(row) && s == row.(party := s.party) && (if row.party.Inviter? then s.party == row.party else s.party.Invitee?)
    requires if row.party.Inviter? then !p.InviteeTx? else !p.InviterTx?
    requires row.party.Invitee? && s.party != row.party ==> s.party.invitee.InviteReceived? && row.party.invitee.TicketReceived?
    requires p.NoticeTx? ==> NoticeFor(row.log).None? || NoticeFor(row.log) == Some(p.notice)
    requires (p.InviteeTx? ==> InviteeIntroFor(row.log).None? && p.sync == row.sync)
             && (p.InviterTx? ==> InviterIntroFor(row.log).None? && p.sync == row.sync)
    ensures Guarded(s.(log := row.log + [p]))
  {
    Joins(row.log, p);
    NoticeStays(row, p);
    OneIntroStays(row.log, p);
  }

  lemma InviterTakesIntro(row: Row, p: Payload)
    requires Guarded(row) && row.party.Inviter? && !Failed(row) && p.InviteeTx? && p.sync == row.sync && GateOf(row, p).Pass?
    ensures GateOf(row, p).row == row && Guarded(row.(log := row.log + [p]))
  {
    Joins(row.log, p);
    NoticeStays(row, p);
    OneIntroStays(row.log, p);
  }

  lemma InviteeTakesIntroOf(row: Row, p: Payload)
    requires Guarded(row) && row.party.Invitee? && !Failed(row) && p.InviterTx? && p.sync == row.sync && GateOf(row, p).Pass?
    ensures var s := GateOf(row, p).row; s == row.(party := s.party) && Guarded(s.(log := row.log + [p]))
  {
    Joins(row.log, p);
    NoticeStays(row, p);
    OneIntroStays(row.log, p);
  }

  lemma StoredStaysGuarded(row: Row, p: Payload)
    requires Guarded(row) && !Failed(row) && GateOf(row, p).Pass? && Stores(row.sync, p)
    ensures var s := GateOf(row, p).row; s == row.(party := s.party) && Guarded(s.(log := row.log + [p]))
  {
    var s := GateOf(row, p).row;
    if p.InviteeTx? && row.party.Inviter? {
      InviterTakesIntro(row, p);
    } else if p.InviterTx? && row.party.Invitee? {
      InviteeTakesIntroOf(row, p);
    } else if Failed(s) {
      FailStaysGuarded(row, PolicyNotAccepted(p.notice.policy));
      OwnStaysGuarded(s, s, p);
    } else {
      OwnStaysGuarded(row, s, p);
    }
  }

  lemma InviteeMintStaysGuarded(row: Row, my: Option<Profile>, draw: Draw)
    requires Guarded(row) && row.party.Invitee? && MintInvitee(row, my, draw).Done? && MintInvitee(row, my, draw).posts != []
    ensures Guarded(MintInvitee(row, my, draw).row)
  {
    var p := MintInvitee(row, my, draw).posts[0];
    Joins(row.log, p);
    NoticeStays(row, p);
    OneIntroStays(row.log, p);
  }

  lemma InviterMintStaysGuarded(row: Row, my: Option<Profile>, draw: Draw)
    requires Guarded(row) && row.party.Inviter? && MintInviter(row, my, draw).Done? && MintInviter(row, my, draw).posts != []
    ensures Guarded(MintInviter(row, my, draw).row)
  {
    var p := MintInviter(row, my, draw).posts[0];
    Joins(row.log, p);
    NoticeStays(row, p);
    OneIntroStays(row.log, p);
  }

  lemma MintStaysGuarded(row: Row, my: Option<Profile>, draw: Draw)
    requires Guarded(row)
    ensures Guarded(OrStay(row, Mint(row, my, draw)))
  {
    var o := Mint(row, my, draw);
    if o.Done? {
      if o.posts == [] {
        var reason := QuietMintFails(row, my, draw);
        if reason.Some? {
          FailStaysGuarded(row, reason.value);
        }
      } else if row.party.Invitee? {
        InviteeMintStaysGuarded(row, my, draw);
      } else {
        InviterMintStaysGuarded(row, my, draw);
      }
    }
  }

  lemma IngestStaysGuarded(row: Row, p: Payload, my: Option<Profile>, draw: Draw)
    requires Guarded(row) && !Failed(row)
    ensures Guarded(OrStay(row, Ingest(row, p, my, draw)))
  {
    if p !in row.log {
      match GateOf(row, p)
      case Stop(s) =>
        var reason := StopFails(row, p);
        FailStaysGuarded(row, reason);
      case Pass(s) =>
        if Stores(s.sync, p) {
          StoredStaysGuarded(row, p);
          MintStaysGuarded(s.(log := s.log + [p]), my, draw);
        }
    }
  }

  lemma DecisionStaysGuarded(row: Row, p: Payload)
    requires Guarded(row) && (p.ConfirmTx? || p.RejectTx?)
    ensures Guarded(row.(log := row.log + [p]))
  {
    OwnStaysGuarded(row, row, p);
  }

  lemma MoveStaysGuarded(row: Row, m: Move)
    requires Guarded(row)
    ensures Guarded(After(row, m))
  {
    match m
    case Hears(cid, p, my, draw) =>
      if !Failed(row) {
        IngestStaysGuarded(if cid == row.cid then row else Rekey(row, cid), p, my, draw);
      }
    case WritesDone => AckStaysGuarded(row);
    case Mints(my, draw) => MintStaysGuarded(row, my, draw);
    case Fails(reason) => FailStaysGuarded(row, reason);
    case Confirms => DecisionStaysGuarded(row, ConfirmTx);
    case Rejects =>
      DecisionStaysGuarded(row, RejectTx);
      FailStaysGuarded(row.(log := row.log + [RejectTx]), ConfirmationRejected);
  }

  /**
    * Whatever a row hears, and from whomever: it never holds two different notices, two introductions of one side, or one of the
    * other kind of handshake. An introduction of the other side came after the notice and fits its policy. The inviter holds
    * only one that was wrapped for its own key, and the invitee confirms only with the secret that was wrapped for its own.
    */
  lemma {:induction false} AlwaysGuarded(row: Row, moves: seq<Move>)
    requires Guarded(row)
    ensures Guarded(Live(row, moves))
    decreases |moves|
  {
    if moves != [] {
      MoveStaysGuarded(row, moves[0]);
      AlwaysGuarded(After(row, moves[0]), moves[1..]);
    }
  }

  /** That holds for every invite and every ticket, whatever is heard. */
  lemma GuardedFromTheStart(cid: nat, sync: bool, ticket: nat, intake: Key, expires: nat, identity: Option<Policy>, moves: seq<Move>)
    ensures Guarded(Live(CreateInvite(cid, sync, ticket, intake, expires), moves))
    ensures Guarded(Live(ReceiveTicket(cid, sync, ticket, identity), moves))
  {
    StartsGuarded(cid, sync, ticket, intake, expires, identity);
    AlwaysGuarded(CreateInvite(cid, sync, ticket, intake, expires), moves);
    AlwaysGuarded(ReceiveTicket(cid, sync, ticket, identity), moves);
  }

  // ---------------------------------------------------------------- what is taken, and what is final

  /** An introduction that may be taken: the first of its side, of this kind of handshake, after a notice and fitting it, and for
      the other side wrapped for the key this side gave out, by an invitee that has introduced itself and not yet confirmed. */
  ghost predicate MayTake(row: Row, p: Payload)
    requires !Failed(row) && (p.InviteeTx? || p.InviterTx?)
  {
    && p.sync == row.sync && NoticeFor(row.log).Some?
    && var n := NoticeFor(row.log).value;
       if p.InviteeTx? then
         && (forall q :: q in row.log ==> !q.InviteeTx?)
         && FitsNotice(n, p.invitee.who, p.invitee.seedCt) && p.invitee.intakePk.policy == n.policy
         && (row.party.Inviter? ==> row.party.inviter.intake.policy == n.policy && p.invitee.seedCt.to == row.party.inviter.intake)
       else
         && (forall q :: q in row.log ==> !q.InviterTx?)
         && FitsNotice(n, p.inviter.who, p.inviter.seedCt)
         && (row.party.Invitee? ==>
               && (row.party.invitee.InviteeMinted? || row.party.invitee.IntroductionSent?)
               && row.party.invitee.intake.policy == n.policy && p.inviter.seedCt.to == row.party.invitee.intake)
  }

  lemma GateTakesExactlyWhen(row: Row, p: Payload)
    requires !Failed(row) && (p.InviteeTx? || p.InviterTx?)
    ensures GateOf(row, p).Pass? && p.sync == row.sync <==> MayTake(row, p)
    ensures GateOf(row, p).Pass? ==> GateOf(row, p).row.log == row.log && GateOf(row, p).row.sync == row.sync
  {
  }

  /** A row that has not failed takes an introduction it does not hold exactly when that may be taken. Any other leaves its log
      as it was, and it fails, or refuses the call when the introduction is of the other kind of handshake. */
  lemma TakesIntroExactlyWhen(row: Row, p: Payload, my: Option<Profile>, draw: Draw)
    requires !Failed(row) && (p.InviteeTx? || p.InviterTx?) && p !in row.log
    ensures var o := Deliver(row, row.cid, p, my, draw);
            if MayTake(row, p) then o.Done? && row.log + [p] <= o.row.log
            else o.Refused? || (Failed(o.row) && o.row.log == row.log && o.row.established == row.established)
  {
    GateTakesExactlyWhen(row, p);
    if MayTake(row, p) {
      MintGrows(GateOf(row, p).row.(log := row.log + [p]), p, my, draw);
    } else if GateOf(row, p).Stop? {
      var reason := StopFails(row, p);
    }
  }

  lemma MintGrows(row: Row, p: Payload, my: Option<Profile>, draw: Draw)
    requires p in row.log && (p.InviteeTx? || (p.InviterTx? && (row.party.Invitee? ==> row.party.invitee.InviteeConfirming?)))
    ensures Mint(row, my, draw).Done? && row.log <= Mint(row, my, draw).row.log
  {
  }

  /** A second, different notice fails the row and is not taken. */
  lemma OtherNoticeFails(row: Row, n: Notice, my: Option<Profile>, draw: Draw)
    requires !Failed(row) && NoticeFor(row.log).Some? && NoticeFor(row.log).value != n && OneNotice(row.log)
    ensures var o := Deliver(row, row.cid, NoticeTx(n), my, draw); o.Done? && Failed(o.row) && o.row.log == row.log
  {
  }

  /** A notice of another policy than that of the row's identity fails the row. */
  lemma ForeignPolicyFails(row: Row, n: Notice, my: Option<Profile>, draw: Draw)
    requires !Failed(row) && row.identity.Some? && row.identity.value != n.policy
    requires NoticeTx(n) !in row.log && NoticeFor(row.log).None?
    ensures var o := Deliver(row, row.cid, NoticeTx(n), my, draw);
            o.Done? && Failed(o.row) && o.row.log == row.log + [NoticeTx(n)] && o.posts == []
  {
  }

  /** An identity introduces itself only under its own policy, and at most one introduction is minted at a time. */
  lemma IntroducesUnderOwnPolicy(row: Row, my: Option<Profile>, draw: Draw)
    requires Mint(row, my, draw).Done? && Mint(row, my, draw).posts != []
    ensures NoticeFor(row.log).Some? && my.Some? && (!row.sync ==> row.identity == Some(NoticeFor(row.log).value.policy))
    ensures var o := Mint(row, my, draw);
            && |o.posts| == 1 && o.row.log == row.log + o.posts
            && if row.party.Invitee? then o.posts[0].InviteeTx? && o.posts[0].invitee.who == my.value
               else o.posts[0].InviterTx? && o.posts[0].inviter.who == my.value
  {
  }

  /** Once its writes are acknowledged a row waits for none of them any more. It holds what it held. */
  lemma AckedMeansSent(row: Row)
    ensures var next := AckPosted(row);
            && (next.party.Inviter? ==> !next.party.inviter.InviteCreated? && !next.party.inviter.InviterMinted?)
            && (next.party.Invitee? ==> !next.party.invitee.InviteeMinted?)
            && SharedInviter(next.party) == SharedInviter(row.party) && SharedInvitee(next.party) == SharedInvitee(row.party)
            && next == row.(party := next.party) && (Failed(next) <==> Failed(row))
            && (Confirming(next) <==> Confirming(row) || (row.party.Inviter? && row.party.inviter.InviterMinted?))
  {
  }

  /** A row that has failed never changes again, so it never gets a child it did not have. */
  lemma {:induction false} FailedIsFinal(row: Row, moves: seq<Move>)
    requires Failed(row)
    ensures Live(row, moves) == row
    decreases |moves|
  {
    if moves != [] {
      assert After(row, moves[0]) == row;
      FailedIsFinal(row, moves[1..]);
    }
  }

  /** Rejecting fails the row for good. */
  lemma RejectingIsFinal(row: Row, moves: seq<Move>)
    requires MayDecide(row)
    ensures var end := Live(After(row, Rejects), moves);
            && end.established == row.established && end.log == row.log + [RejectTx]
            && Failed(end) && !MayDecide(end)
  {
    FailedIsFinal(After(row, Rejects), moves);
  }
}
