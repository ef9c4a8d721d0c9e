/** A handshake row that is updated in place, step by step. */
module HandshakeParty {
  import opened HandshakeRow
  import opened Wrappers

  class HandshakeState {
    const sync: bool
    const ticket: nat
    const identity: Option<Policy>
    var cid: Cid
    var party: Party
    var log: seq<Payload>
    var established: map<Cid, Child>

    function Value(): Row
      reads this
    {
      Row(cid, sync, ticket, identity, party, log, established)
    }

    constructor (row: Row)
      ensures Value() == row
    {
      sync, ticket, identity := row.sync, row.ticket, row.identity;
      cid, party, log, established := row.cid, row.party, row.log, row.established;
    }

    method FailWith(reason: Reason)
      modifies this`party
      ensures Value() == Fail(old(Value()), reason)
    {
      match party
      case Inviter(p) =>
        if !p.InviterFailed? {
          party := Inviter(InviterFailed(reason));
        }
      case Invitee(p) =>
        if !p.InviteeFailed? {
          party := Invitee(InviteeFailed(reason));
        }
    }

    method WritesAcked()
      modifies this`party
      ensures Value() == AckPosted(old(Value()))
    {
      match party
      case Inviter(InviteCreated(intake)) => party := Inviter(NoticePinned(intake));
      case Inviter(InviterMinted(intake, a, b)) => party := Inviter(InviterConfirming(intake, a, b));
      case Invitee(InviteeMinted(policy, intake, a)) => party := Invitee(IntroductionSent(policy, intake, a));
      case _ =>
    }

    method RekeyTo(to: Cid)
      modifies this`cid, this`established
      ensures Value() == Rekey(old(Value()), to)
    {
      var from := cid;
      cid := to;
      established := map k | k in established ::
        if established[k].parent == from then established[k].(parent := to) else established[k];
    }

    /** Whether ingest goes on after the gate. The phase moves, or the row fails, on the way. */
    method PassGate(p: Payload) returns (pass: bool)
      modifies this`party
      ensures GateOf(old(Value()), p) == if pass then Pass(Value()) else Stop(Value())
    {
      match p
      case NoticeTx(n) =>
        var held := NoticeFor(log);
        if held.Some? && held.value != n {
          FailWith(NoticeConflict);
          return false;
        }
        if identity.Some? && identity.value != n.policy {
          FailWith(PolicyNotAccepted(n.policy));
        } else if party == Invitee(TicketReceived) {
          party := Invitee(InviteReceived(n.policy));
        }
        return true;
      case InviteeTx(_, i) =>
        var reason := RefuseInvitee(i);
        if reason.Some? {
          FailWith(reason.value);
        }
        return reason.None?;
      case InviterTx(_, j) =>
        pass := PassInviter(j);
      case _ =>
        return true;
    }

    method RefuseInvitee(i: InviteeIntro) returns (reason: Option<Reason>)
      ensures GateInvitee(Value(), i) == if reason.None? then Pass(Value()) else Stop(Fail(Value(), reason.value))
    {
      if InviteeIntroFor(log).Some? {
        return Some(DuplicateIntro);
      }
      var notice := NoticeFor(log);
      if notice.None? || !KeysOk(notice.value.policy, i.who, Some(i.intakePk), i.seedCt) {
        return Some(IntroVerifyFailed);
      }
      if party.Inviter? && !party.inviter.InviterFailed?
         && Unwrap(notice.value.policy, party.inviter.intake, i.seedCt).None? {
        return Some(IntroVerifyFailed);
      }
      return None;
    }

    method PassInviter(j: InviterIntro) returns (pass: bool)
      modifies this`party
      ensures GateInviter(old(Value()), j) == if pass then Pass(Value()) else Stop(Value())
    {
      var notice := NoticeFor(log);
      if InviterIntroFor(log).Some? {
        FailWith(DuplicateIntro);
        return false;
      }
      if notice.None? || !KeysOk(notice.value.policy, j.who, None, j.seedCt) {
        FailWith(IntroVerifyFailed);
        return false;
      }
      if party.Inviter? {
        return true;
      }
      var b := None;
      match party.invitee {
        case InviteeMinted(_, intake, _) => b := Unwrap(notice.value.policy, intake, j.seedCt);
        case IntroductionSent(_, intake, _) => b := Unwrap(notice.value.policy, intake, j.seedCt);
        case _ =>
      }
      if b.None? {
        FailWith(IntroVerifyFailed);
        return false;
      }
      party := Invitee(InviteeConfirming(party.invitee.policy, party.invitee.intake, party.invitee.sharedInviter, b.value));
      return true;
    }

    /** Take in one complete transaction. An error leaves the caller with the state it had. */
    method Receive(from: Cid, p: Payload, my: Option<Profile>, draw: Draw) returns (ok: bool, posts: seq<Payload>)
      modifies this
      ensures Deliver(old(Value()), from, p, my, draw) == if ok then Done(Value(), posts) else Refused
    {
      posts := [];
      if Failed(Value()) {
        return true, [];
      }
      if from != cid {
        RekeyTo(from);
      }
      if p in log {
        return true, [];
      }
      var pass := PassGate(p);
      if !pass {
        return true, [];
      }
      if !Stores(sync, p) {
        return false, [];
      }
      log := log + [p];
      ok, posts := MintDue(my, draw);
    }

    method MintDue(my: Option<Profile>, draw: Draw) returns (ok: bool, posts: seq<Payload>)
      modifies this`party, this`log
      ensures Mint(old(Value()), my, draw) == if ok then Done(Value(), posts) else Refused
    {
      if party.Invitee? {
        ok, posts := MintAsInvitee(my, draw);
      } else {
        ok, posts := MintAsInviter(my, draw);
      }
    }

    method MintAsInvitee(my: Option<Profile>, draw: Draw) returns (ok: bool, posts: seq<Payload>)
      requires party.Invitee?
      modifies this`party, this`log
      ensures MintInvitee(old(Value()), my, draw) == if ok then Done(Value(), posts) else Refused
    {
      var notice := NoticeFor(log);
      if !party.invitee.InviteReceived? || InviteeIntroFor(log).Some? || notice.None? {
        return true, [];
      }
      var calling := LocalCalling(Value(), my, notice.value.policy);
      if calling.NoCalling? {
        return true, [];
      }
      if calling.WrongPolicy? {
        FailWith(PolicyNotAccepted(notice.value.policy));
        return true, [];
      }
      if notice.value.intakePk.policy != notice.value.policy {
        return false, [];
      }
      var intake := Key(notice.value.policy, draw.intake);
      var intro := InviteeIntro(calling.who, draw.tagKeys, intake, Wrapped(notice.value.intakePk, draw.secret));
      party := Invitee(InviteeMinted(party.invitee.policy, intake, draw.secret));
      log := log + [InviteeTx(sync, intro)];
      return true, [InviteeTx(sync, intro)];
    }

    method MintAsInviter(my: Option<Profile>, draw: Draw) returns (ok: bool, posts: seq<Payload>)
      requires party.Inviter?
      modifies this`party, this`log
      ensures MintInviter(old(Value()), my, draw) == if ok then Done(Value(), posts) else Refused
    {
      var notice, held := NoticeFor(log), InviteeIntroFor(log);
      if !party.inviter.NoticePinned? || InviterIntroFor(log).Some? || held.None? || notice.None? {
        return true, [];
      }
      var calling := LocalCalling(Value(), my, notice.value.policy);
      if calling.NoCalling? {
        return true, [];
      }
      if calling.WrongPolicy? {
        FailWith(PolicyNotAccepted(notice.value.policy));
        return true, [];
      }
      var i := held.value.invitee;
      var a := Unwrap(notice.value.policy, party.inviter.intake, i.seedCt);
      if i.intakePk.policy != notice.value.policy || a.None? {
        FailWith(IntroVerifyFailed);
        return true, [];
      }
      var intro := InviterIntro(calling.who, draw.tagKeys, Wrapped(i.intakePk, draw.secret));
      party := Inviter(InviterMinted(party.inviter.intake, a.value, draw.secret));
      log := log + [InviterTx(sync, intro)];
      return true, [InviterTx(sync, intro)];
    }

    method DecideYes() returns (ok: bool)
      modifies this`log, this`established
      ensures Confirm(old(Value())) == if ok then Done(Value(), []) else Refused
    {
      var digest := Fingerprint(Value());
      if !MayDecide(Value()) || digest.None? {
        return false;
      }
      log := log + [ConfirmTx];
      if !HasChild(Value()) {
        established := established[Spawned(digest.value.secret) := Child(cid, digest.value.secret)];
      }
      return true;
    }

    method DecideNo() returns (ok: bool)
      modifies this`log, this`party
      ensures Reject(old(Value())) == if ok then Done(Value(), []) else Refused
    {
      if !MayDecide(Value()) {
        return false;
      }
      log := log + [RejectTx];
      FailWith(ConfirmationRejected);
      return true;
    }
  }
}
