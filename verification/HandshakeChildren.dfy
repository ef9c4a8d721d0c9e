/** What a child and a digest stand for: two handshakes come to the same ones exactly when they agreed on the same things. */
module HandshakeChildren {
  import opened HandshakeProtocol
  import opened HandshakeRow
  import opened Wrappers

  /** How a handshake begins. */
  datatype Setting = Setting(cid: nat, own: nat, sync: bool, ticket: nat, intake: Key, expires: nat, identity: Option<Policy>)

  function Reached(s: Setting, events: seq<Event>): World {
    Run(Start(s.cid, s.own, s.sync, s.ticket, s.intake, s.expires, s.identity), events)
  }

  lemma ReachedIsSound(s: Setting, events: seq<Event>) returns (n: Notice)
    ensures Inv(Reached(s, events), n)
    ensures Reached(s, events).inviter.ticket == s.ticket && Reached(s, events).inviter.sync == s.sync
  {
    n := Notice(s.intake.policy, s.intake, s.expires);
    var w0 := Start(s.cid, s.own, s.sync, s.ticket, s.intake, s.expires, s.identity);
    StartFits(s.cid, s.own, s.sync, s.ticket, s.intake, s.expires, s.identity);
    RunKeeps(w0, n, events);
    TicketStays(w0, events);
  }

  lemma {:induction false} TicketStays(w: World, events: seq<Event>)
    ensures Run(w, events).inviter.ticket == w.inviter.ticket && Run(w, events).inviter.sync == w.inviter.sync
    decreases |events|
  {
    if events != [] {
      StepKeepsTicket(w, events[0]);
      TicketStays(Step(w, events[0]), events[1..]);
    }
  }

  lemma StepKeepsTicket(w: World, e: Event)
    ensures Step(w, e).inviter.ticket == w.inviter.ticket && Step(w, e).inviter.sync == w.inviter.sync
  {
    match e
    case Receive(to, m, my, draw) => DeliverKeepsTicket(RowOf(w, to), m.cid, m.payload, my, draw);
    case MintDue(who, my, draw) => MintKeepsTicket(RowOf(w, who), my, draw);
    case _ =>
  }

  predicate SameTicket(row: Row, next: Row) { next.ticket == row.ticket && next.sync == row.sync }

  lemma MintKeepsTicket(row: Row, my: Option<Profile>, draw: Draw)
    ensures Mint(row, my, draw).Done? ==> SameTicket(row, Mint(row, my, draw).row)
  {
  }

  lemma GateKeepsTicket(row: Row, p: Payload)
    ensures SameTicket(row, GateOf(row, p).row)
  {
  }

  lemma DeliverKeepsTicket(row: Row, cid: Cid, p: Payload, my: Option<Profile>, draw: Draw)
    ensures Deliver(row, cid, p, my, draw).Done? ==> SameTicket(row, Deliver(row, cid, p, my, draw).row)
  {
    var r := if cid == row.cid then row else Rekey(row, cid);
    GateKeepsTicket(r, p);
    var s := GateOf(r, p).row;
    MintKeepsTicket(s.(log := s.log + [p]), my, draw);
  }

  /** The two secrets that a pair of introductions carries, in no order. */
  function Carried(invitee: Payload, inviter: Payload): multiset<nat>
    requires invitee.InviteeTx? && inviter.InviterTx?
  {
    multiset{invitee.invitee.seedCt.secret, inviter.inviter.seedCt.secret}
  }

  lemma SpawnsAlike(t: nat, a: nat, b: nat, u: nat, c: nat, d: nat)
    ensures SpawnOf(t, a, b) == SpawnOf(u, c, d) <==> t == u && multiset{a, b} == multiset{c, d}
  {
    if multiset{a, b} == multiset{c, d} {
      assert a in multiset{c, d} && b in multiset{c, d};
      assert c in multiset{a, b} && d in multiset{a, b};
      assert a == b ==> multiset{c, d}[a] == 2;
    }
  }

  ghost predicate BothIntroduced(w: World) {
    InviteeIntroFor(w.invitee.log).Some? && InviterIntroFor(w.inviter.log).Some?
  }

  /**
    * A child of one run and a child of another, on whichever sides: they have the same id, and the same secret, exactly when
    * the two invites have the same ticket and the two introductions that were minted carry the same two secrets.
    */
  lemma ChildrenAlikeExactlyWhen(s: Setting, es: seq<Event>, side: Side, k: Cid,
                                 s': Setting, es': seq<Event>, side': Side, k': Cid)
    requires var w := Reached(s, es); k in RowOf(w, side).established
    requires var v := Reached(s', es'); k' in RowOf(v, side').established
    ensures var w, v := Reached(s, es), Reached(s', es');
            && BothIntroduced(w) && BothIntroduced(v)
            && var alike := && s.ticket == s'.ticket
                            && Carried(InviteeIntroFor(w.invitee.log).value, InviterIntroFor(w.inviter.log).value)
                               == Carried(InviteeIntroFor(v.invitee.log).value, InviterIntroFor(v.inviter.log).value);
               && (k == k' <==> alike)
               && (RowOf(w, side).established[k].secret == RowOf(v, side').established[k'].secret <==> alike)
  {
    var w, v := Reached(s, es), Reached(s', es');
    var n := ReachedIsSound(s, es);
    var n' := ReachedIsSound(s', es');
    assert ChildrenFit(w, RowOf(w, side)) && ChildrenFit(v, RowOf(v, side'));
    var i, j := InviteeIntroFor(w.invitee.log).value.invitee, InviterIntroFor(w.inviter.log).value.inviter;
    var i', j' := InviteeIntroFor(v.invitee.log).value.invitee, InviterIntroFor(v.inviter.log).value.inviter;
    SpawnsAlike(s.ticket, i.seedCt.secret, j.seedCt.secret, s'.ticket, i'.seedCt.secret, j'.seedCt.secret);
  }

  /**
    * Two sides that are confirming, of one run or of two, show the same digest exactly when they have the same ticket, the
    * same kind of handshake, the same two introductions, and the same two secrets.
    */
  lemma DigestsAlikeExactlyWhen(s: Setting, es: seq<Event>, side: Side, s': Setting, es': seq<Event>, side': Side)
    requires Confirming(RowOf(Reached(s, es), side)) && Confirming(RowOf(Reached(s', es'), side'))
    ensures var row, row' := RowOf(Reached(s, es), side), RowOf(Reached(s', es'), side');
            && Fingerprint(row).Some? && Fingerprint(row').Some?
            && InviteeIntroFor(row.log).Some? && InviterIntroFor(row.log).Some?
            && (Fingerprint(row) == Fingerprint(row')
                <==> && s.ticket == s'.ticket && s.sync == s'.sync
                     && InviteeIntroFor(row.log) == InviteeIntroFor(row'.log)
                     && InviterIntroFor(row.log) == InviterIntroFor(row'.log)
                     && multiset{SharedInviter(row.party).value, SharedInvitee(row.party).value}
                        == multiset{SharedInviter(row'.party).value, SharedInvitee(row'.party).value})
  {
    var w, v := Reached(s, es), Reached(s', es');
    var n := ReachedIsSound(s, es);
    var n' := ReachedIsSound(s', es');
    FingerprintAgrees(w, n, side);
    FingerprintAgrees(v, n', side');
    ConfirmingHoldsBoth(w, n, side);
    ConfirmingHoldsBoth(v, n', side');
    DigestsAlike(RowOf(w, side), RowOf(v, side'));
  }

  lemma DigestsAlike(row: Row, row': Row)
    requires Fingerprint(row).Some? && Fingerprint(row').Some?
    ensures Fingerprint(row) == Fingerprint(row')
            <==> && row.ticket == row'.ticket && row.sync == row'.sync
                 && InviteeIntroFor(row.log) == InviteeIntroFor(row'.log)
                 && InviterIntroFor(row.log) == InviterIntroFor(row'.log)
                 && multiset{SharedInviter(row.party).value, SharedInvitee(row.party).value}
                    == multiset{SharedInviter(row'.party).value, SharedInvitee(row'.party).value}
  {
    SpawnsAlike(row.ticket, SharedInviter(row.party).value, SharedInvitee(row.party).value,
                row'.ticket, SharedInviter(row'.party).value, SharedInvitee(row'.party).value);
  }
}
