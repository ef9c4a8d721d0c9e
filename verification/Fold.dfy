/** The acknowledged part of every log, and the snapshot that may only be taken of it. */
module Fold {
  import opened Numbers
  import opened Wrappers

  type TxId = nat
  type Cid = nat
  type Actor = nat

  /** What folding looks at in a stored transaction. */
  datatype Tx = Tx(cid: Cid, expireAt: Option<U64>)

  /** The set each actor last acknowledged. */
  type Acks = map<Actor, set<TxId>>

  /** `acks` has an entry for every row that keeps chains, and none for the others. */
  datatype State = State(bodies: map<TxId, Tx>, acks: map<Cid, Acks>, persistLog: map<U64, TxId>, nextSeq: U64, ticked: Option<U64>)

  datatype FoldError = MalformedPersist | WrongPhase

  /** The part of the state a snapshot carries that later folds look at. */
  datatype Snapshot = Snapshot(txs: map<TxId, Tx>, persistLog: map<U64, TxId>)

  function Now(s: State): U64 { if s.ticked.Some? then s.ticked.value else 0 }

  predicate Expired(tx: Tx, now: U64) { tx.expireAt.Some? && tx.expireAt.value <= now }

  function Ids(s: State, cid: Cid): set<TxId> { set id | id in s.bodies && s.bodies[id].cid == cid }

  /** Some actor of the row has acknowledged something. */
  ghost predicate HasAcks(acks: Acks) { exists a :: a in acks && acks[a] != {} }

  /** Every actor that has acknowledged anything has acknowledged this. */
  ghost predicate AckedByAll(acks: Acks, id: TxId) { forall a :: a in acks && acks[a] != {} ==> id in acks[a] }

  /** What counts as acknowledged in a conversation: everything while nobody has acknowledged anything. */
  ghost predicate InWatermark(s: State, cid: Cid, id: TxId) {
    if cid !in s.acks || !HasAcks(s.acks[cid]) then id in Ids(s, cid) else AckedByAll(s.acks[cid], id)
  }

  ghost predicate Watermarked(s: State, id: TxId) { id in s.bodies && InWatermark(s, s.bodies[id].cid, id) }

  /** A persisted transaction that is stored and unexpired is not acknowledged yet. */
  ghost predicate Outside(s: State) {
    exists q :: q in s.persistLog && s.persistLog[q] in s.bodies
                && !Expired(s.bodies[s.persistLog[q]], Now(s)) && !Watermarked(s, s.persistLog[q])
  }

  ghost predicate Kept(s: State, id: TxId) {
    id in s.bodies && Watermarked(s, id) && !Expired(s.bodies[id], Now(s))
  }

  ghost function FoldOf(s: State): Result<Snapshot, FoldError> {
    if s.nextSeq == U64_MAX then Err(MalformedPersist)
    else if Outside(s) then Err(WrongPhase)
    else Ok(Snapshot(KeptOf(s), LoggedIn(s.persistLog, KeptOf(s))))
  }

  ghost function KeptOf(s: State): map<TxId, Tx> { map id | id in s.bodies && Kept(s, id) :: s.bodies[id] }

  /** The records of the transactions that are kept. */
  function LoggedIn(log: map<U64, TxId>, kept: map<TxId, Tx>): map<U64, TxId> {
    map q | q in log && log[q] in kept :: log[q]
  }

  // ---------------------------------------------------------------- folding, step by step

  class Vault {
    const fingerprint: set<TxId> -> nat
    var bodies: map<TxId, Tx>
    var acks: map<Cid, Acks>
    var persistLog: map<U64, TxId>
    var nextSeq: U64
    var ticked: Option<U64>

    function Value(): State
      reads this
    {
      State(bodies, acks, persistLog, nextSeq, ticked)
    }

    constructor (fingerprint: set<TxId> -> nat, s: State)
      ensures this.fingerprint == fingerprint && Value() == s
    {
      this.fingerprint := fingerprint;
      bodies, acks, persistLog, nextSeq, ticked := s.bodies, s.acks, s.persistLog, s.nextSeq, s.ticked;
    }

    /** The intersection of all acknowledged sets that are not empty, or everything when there is none. */
    method WatermarkOf(cid: Cid) returns (ids: set<TxId>)
      ensures forall id :: id in ids <==> InWatermark(Value(), cid, id)
    {
      if cid !in acks {
        return Ids(Value(), cid);
      }
      var row := acks[cid];
      var left := row.Keys;
      var common: Option<set<TxId>> := None;
      while left != {}
        invariant left <= row.Keys
        invariant common.None? ==> forall a :: a in row && a !in left ==> row[a] == {}
        invariant common.Some? ==> exists a :: a in row && row[a] != {}
        invariant common.Some? ==> forall id :: id in common.value <==> forall a :: a in row && a !in left && row[a] != {} ==> id in row[a]
        decreases left
      {
        var a :| a in left;
        left := left - {a};
        if row[a] != {} {
          common := Some(if common.None? then row[a] else common.value * row[a]);
        }
      }
      return if common.Some? then common.value else Ids(Value(), cid);
    }

    method IsWatermarked(id: TxId) returns (yes: bool)
      ensures yes <==> Watermarked(Value(), id)
    {
      if id !in bodies {
        return false;
      }
      var ids := WatermarkOf(bodies[id].cid);
      return id in ids;
    }

    method PersistOutside() returns (yes: bool)
      ensures yes <==> Outside(Value())
    {
      var left := persistLog.Keys;
      while left != {}
        invariant left <= persistLog.Keys
        invariant forall q :: (q in persistLog && q !in left && persistLog[q] in bodies
                               && !Expired(bodies[persistLog[q]], Now(Value()))) ==> Watermarked(Value(), persistLog[q])
        decreases left
      {
        var q :| q in left;
        left := left - {q};
        var id := persistLog[q];
        if id in bodies && !Expired(bodies[id], Now(Value())) {
          var inside := IsWatermarked(id);
          if !inside {
            return true;
          }
        }
      }
      return false;
    }

    method KeptBodies() returns (txs: map<TxId, Tx>)
      ensures txs == KeptOf(Value())
    {
      txs := map[];
      var left := bodies.Keys;
      while left != {}
        invariant left <= bodies.Keys
        invariant forall id :: id in txs <==> id in bodies && id !in left && Kept(Value(), id)
        invariant forall id :: id in txs ==> txs[id] == bodies[id]
        decreases left
      {
        var id :| id in left;
        left := left - {id};
        var inside := IsWatermarked(id);
        if inside && !Expired(bodies[id], Now(Value())) {
          txs := txs[id := bodies[id]];
        }
      }
    }

    method TakeSnapshot() returns (r: Result<Snapshot, FoldError>)
      ensures r == FoldOf(Value())
    {
      if nextSeq == U64_MAX {
        return Err(MalformedPersist);
      }
      var outside := PersistOutside();
      if outside {
        return Err(WrongPhase);
      }
      var txs := KeptBodies();
      return Ok(Snapshot(txs, LoggedIn(persistLog, txs)));
    }

    /** An actor's fingerprint arrived on a durable channel. It counts when it agrees with the set stored now. */
    method StoreLastAck(cid: Cid, actor: Actor, xor: nat)
      modifies this`acks
      ensures Value() == Acknowledge(old(Value()), cid, actor, fingerprint(Ids(old(Value()), cid)) == xor)
    {
      if fingerprint(Ids(Value(), cid)) != xor || cid !in acks {
        return;
      }
      acks := acks[cid := WithAck(acks[cid], actor, Ids(Value(), cid))];
    }
  }

  // ---------------------------------------------------------------- what a snapshot holds

  /** A snapshot loses no persisted transaction that is stored and unexpired, and its record still lists it. */
  lemma SnapshotHoldsAllPersisted(s: State, q: U64)
    requires FoldOf(s).Ok? && q in s.persistLog && s.persistLog[q] in s.bodies
    requires !Expired(s.bodies[s.persistLog[q]], Now(s))
    ensures var snap := FoldOf(s).value; var id := s.persistLog[q];
            id in snap.txs && snap.txs[id] == s.bodies[id] && q in snap.persistLog && snap.persistLog[q] == id
  {
    assert Watermarked(s, s.persistLog[q]);
  }

  /** On a row with chains, everything a snapshot holds was acknowledged by every actor that has acknowledged anything. */
  lemma SnapshotIsAcknowledged(s: State, id: TxId, a: Actor)
    requires FoldOf(s).Ok? && id in FoldOf(s).value.txs
    requires s.bodies[id].cid in s.acks && a in s.acks[s.bodies[id].cid] && s.acks[s.bodies[id].cid][a] != {}
    ensures id in s.acks[s.bodies[id].cid][a]
  {
    assert HasAcks(s.acks[s.bodies[id].cid]);
  }

  /** The state read back from a snapshot: rows and their acknowledgements stay, expired and dropped transactions do not. */
  ghost function Reload(s: State): State
    requires FoldOf(s).Ok?
  {
    s.(bodies := FoldOf(s).value.txs, persistLog := FoldOf(s).value.persistLog)
  }

  /** Folding what was read back gives the same snapshot: a fold drops only once. */
  lemma FoldAgain(s: State)
    requires FoldOf(s).Ok?
    ensures FoldOf(Reload(s)) == FoldOf(s)
  {
    var t := Reload(s);
    forall id | id in t.bodies
      ensures Kept(t, id)
    {
      assert Kept(s, id);
    }
    assert FoldOf(t).Ok?;
    assert FoldOf(t).value.txs == FoldOf(s).value.txs;
    assert FoldOf(t).value.persistLog == FoldOf(s).value.persistLog;
  }

  // ---------------------------------------------------------------- runs

  function WithAck(acks: Acks, actor: Actor, ids: set<TxId>): Acks {
    map a: Actor | a in acks.Keys + {actor} :: if a == actor then ids else acks[a]
  }

  function Acknowledge(s: State, cid: Cid, actor: Actor, agrees: bool): State {
    if !agrees || cid !in s.acks then s
    else s.(acks := s.acks[cid := WithAck(s.acks[cid], actor, Ids(s, cid))])
  }

  /** An invitation opens a row of its own and stores its notice, which is not put on record. */
  datatype Op =
    | Merge(id: TxId, tx: Tx)
    | Invite(id: TxId, notice: Tx)
    | Ack(cid: Cid, actor: Actor, agrees: bool)
    | Tick(now: U64)
    | Open(cid: Cid)
    | Drop(cid: Cid)

  /** The conversation of an invitation is named after fresh randomness, so one that is known is not invited to again. */
  predicate Fresh(s: State, cid: Cid) { cid !in s.acks && Ids(s, cid) == {} }

  /** A transaction that is stored already is not stored or put on record again. */
  function Do(s: State, op: Op): State {
    match op
    case Merge(id, tx) =>
      if s.nextSeq == U64_MAX || id in s.bodies then s
      else s.(bodies := s.bodies[id := tx], persistLog := s.persistLog[s.nextSeq := id], nextSeq := SatAdd(s.nextSeq, 1))
    case Invite(id, notice) =>
      if s.nextSeq == U64_MAX || id in s.bodies || !Fresh(s, notice.cid) then s
      else s.(bodies := s.bodies[id := notice], acks := s.acks[notice.cid := map[]], nextSeq := SatAdd(s.nextSeq, 1))
    case Ack(cid, actor, agrees) => Acknowledge(s, cid, actor, agrees)
    case Tick(now) => if s.ticked.Some? && now < s.ticked.value then s else s.(ticked := Some(now))
    case Open(cid) => if cid in s.acks then s else s.(acks := s.acks[cid := map[]])
    case Drop(cid) =>
      s.(acks := s.acks - {cid}, bodies := map id | id in s.bodies && s.bodies[id].cid != cid :: s.bodies[id])
  }

  /** Work on the state, or a fold whose snapshot replaces it. A refused fold changes nothing. */
  datatype Event = Work(op: Op) | Refold

  ghost function Next(s: State, e: Event): State {
    match e
    case Work(op) => Do(s, op)
    case Refold => if FoldOf(s).Ok? then Reload(s) else s
  }

  ghost function Run(s: State, events: seq<Event>): State
    decreases |events|
  {
    if events == [] then s else Run(Next(s, events[0]), events[1..])
  }

  const NOTHING: State := State(map[], map[], map[], 0, None)

  // ---------------------------------------------------------------- what every run keeps

  /** The id of a transaction is a hash over its contents, so it stands for the same ones wherever it comes up. */
  predicate Hashed(contents: TxId -> Tx, e: Event) {
    e.Work? ==>
      && (e.op.Merge? ==> e.op.tx == contents(e.op.id))
      && (e.op.Invite? ==> e.op.notice == contents(e.op.id))
  }

  predicate AllHashed(contents: TxId -> Tx, events: seq<Event>) { forall i :: 0 <= i < |events| ==> Hashed(contents, events[i]) }

  ghost predicate Genuine(contents: TxId -> Tx, s: State) { forall id :: id in s.bodies ==> s.bodies[id] == contents(id) }

  /** Records are numbered below the next number. */
  predicate Numbered(s: State) { forall q :: q in s.persistLog ==> q < s.nextSeq }

  /** What is stored is on record, or everybody who has acknowledged anything in its conversation has acknowledged it. */
  ghost predicate Founded(s: State) {
    forall id :: id in s.bodies && id !in s.persistLog.Values && s.bodies[id].cid in s.acks ==>
                   AckedByAll(s.acks[s.bodies[id].cid], id)
  }

  /** What somebody has acknowledged belongs to that conversation. It is stored, or it has expired. */
  ghost predicate AcksKnown(contents: TxId -> Tx, s: State) {
    forall cid, a, id :: cid in s.acks && a in s.acks[cid] && id in s.acks[cid][a] ==>
                           contents(id).cid == cid && (id in s.bodies || Expired(contents(id), Now(s)))
  }

  ghost predicate Sane(contents: TxId -> Tx, s: State) {
    Genuine(contents, s) && Numbered(s) && Founded(s) && AcksKnown(contents, s)
  }

  /** A fold of such a state drops nothing but what has expired. */
  lemma SnapshotIsAllUnexpired(s: State, id: TxId)
    requires Founded(s) && FoldOf(s).Ok?
    ensures id in FoldOf(s).value.txs <==> id in s.bodies && !Expired(s.bodies[id], Now(s))
  {
    if id in s.bodies && !Expired(s.bodies[id], Now(s)) {
      if id in s.persistLog.Values {
        var q :| q in s.persistLog && s.persistLog[q] == id;
        SnapshotHoldsAllPersisted(s, q);
      } else {
        assert id in Ids(s, s.bodies[id].cid);
        assert Kept(s, id);
      }
    }
  }

  lemma ReloadKeepsRecords(s: State, id: TxId)
    requires FoldOf(s).Ok? && id in Reload(s).bodies && id in s.persistLog.Values
    ensures id in Reload(s).persistLog.Values
  {
    var q :| q in s.persistLog && s.persistLog[q] == id;
    assert q in Reload(s).persistLog && Reload(s).persistLog[q] == id;
  }

  lemma DoKeepsFounded(s: State, op: Op)
    requires Founded(s) && Numbered(s)
    ensures Founded(Do(s, op))
  {
    var t := Do(s, op);
    forall id | id in t.bodies && id !in t.persistLog.Values && t.bodies[id].cid in t.acks
      ensures AckedByAll(t.acks[t.bodies[id].cid], id)
    {
      RecordsStay(s, op, id);
      if op.Ack? && id in s.bodies {
        assert id in Ids(s, s.bodies[id].cid);
      }
    }
  }

  /** Work only adds records, and one for each merged transaction. */
  lemma RecordsStay(s: State, op: Op, id: TxId)
    requires Numbered(s)
    ensures id in s.persistLog.Values ==> id in Do(s, op).persistLog.Values
    ensures op.Merge? && op.id == id && id !in s.bodies && s.nextSeq < U64_MAX ==> id in Do(s, op).persistLog.Values
  {
    var t := Do(s, op);
    if id in s.persistLog.Values {
      var q :| q in s.persistLog && s.persistLog[q] == id;
      assert q in t.persistLog && t.persistLog[q] == id;
    }
    if op.Merge? && op.id == id && id !in s.bodies && s.nextSeq < U64_MAX {
      assert t.persistLog[s.nextSeq] == id;
    }
  }

  lemma DoKeepsKnown(contents: TxId -> Tx, s: State, op: Op)
    requires Genuine(contents, s) && AcksKnown(contents, s) && Hashed(contents, Work(op))
    ensures Genuine(contents, Do(s, op)) && AcksKnown(contents, Do(s, op))
  {
    var t := Do(s, op);
    forall cid, a, id | cid in t.acks && a in t.acks[cid] && id in t.acks[cid][a]
      ensures contents(id).cid == cid && (id in t.bodies || Expired(contents(id), Now(t)))
    {
      if cid in s.acks && a in s.acks[cid] && id in s.acks[cid][a] {
        assert contents(id).cid == cid && (id in s.bodies || Expired(contents(id), Now(s)));
      }
    }
  }

  lemma ReloadKeepsSane(contents: TxId -> Tx, s: State)
    requires Sane(contents, s) && FoldOf(s).Ok?
    ensures Sane(contents, Reload(s))
  {
    var t := Reload(s);
    forall id | id in t.bodies && id !in t.persistLog.Values && t.bodies[id].cid in t.acks
      ensures AckedByAll(t.acks[t.bodies[id].cid], id)
    {
      if id in s.persistLog.Values {
        ReloadKeepsRecords(s, id);
      }
    }
    forall cid, a, id | cid in t.acks && a in t.acks[cid] && id in t.acks[cid][a]
      ensures contents(id).cid == cid && (id in t.bodies || Expired(contents(id), Now(t)))
    {
      SnapshotIsAllUnexpired(s, id);
    }
  }

  lemma NextKeepsSane(contents: TxId -> Tx, s: State, e: Event)
    requires Sane(contents, s) && Hashed(contents, e)
    ensures Sane(contents, Next(s, e))
  {
    match e
    case Work(op) =>
      DoKeepsFounded(s, op);
      DoKeepsKnown(contents, s, op);
    case Refold =>
      if FoldOf(s).Ok? {
        ReloadKeepsSane(contents, s);
      }
  }

  /** Every run keeps all of this, folds and reloads included. */
  lemma {:induction false} RunKeepsSane(contents: TxId -> Tx, s: State, events: seq<Event>)
    requires Sane(contents, s) && AllHashed(contents, events)
    ensures Sane(contents, Run(s, events))
    decreases |events|
  {
    if events != [] {
      NextKeepsSane(contents, s, events[0]);
      RunKeepsSane(contents, Next(s, events[0]), events[1..]);
    }
  }

  /** So in every run from nothing, a fold that goes through holds exactly what is stored and unexpired, and of the records
      exactly those of what it holds, under their numbers. */
  lemma FoldLosesOnlyExpired(contents: TxId -> Tx, events: seq<Event>, id: TxId, q: U64)
    requires AllHashed(contents, events) && FoldOf(Run(NOTHING, events)).Ok?
    ensures var s := Run(NOTHING, events);
            var snap := FoldOf(s).value;
            && (id in snap.txs <==> id in s.bodies && !(s.bodies[id].expireAt.Some? && s.bodies[id].expireAt.value <= Now(s)))
            && (id in snap.txs ==> snap.txs[id] == s.bodies[id])
            && (q in snap.persistLog <==> q in s.persistLog && s.persistLog[q] in snap.txs)
            && (q in snap.persistLog ==> snap.persistLog[q] == s.persistLog[q])
  {
    RunKeepsSane(contents, NOTHING, events);
    SnapshotIsAllUnexpired(Run(NOTHING, events), id);
  }

  // ---------------------------------------------------------------- acknowledged sets

  /** Nobody has acknowledged what is not stored. */
  ghost predicate AcksStored(s: State) {
    forall cid, a :: cid in s.acks && a in s.acks[cid] ==> s.acks[cid][a] <= Ids(s, cid)
  }

  ghost predicate AckedExpired(s: State) {
    exists cid, a, id ::
      cid in s.acks && a in s.acks[cid] && id in s.acks[cid][a] && id in s.bodies && Expired(s.bodies[id], Now(s))
  }

  lemma DoKeepsAcks(s: State, op: Op)
    requires AcksStored(s)
    ensures AcksStored(Do(s, op))
  {
    var t := Do(s, op);
    forall cid, a | cid in t.acks && a in t.acks[cid]
      ensures t.acks[cid][a] <= Ids(t, cid)
    {
      if cid in s.acks && a in s.acks[cid] {
        assert s.acks[cid][a] <= Ids(s, cid);
      }
      assert !(op.Drop? && op.cid == cid) ==> Ids(s, cid) <= Ids(t, cid);
    }
  }

  /** A fold leaves expired transactions out and keeps the acknowledged sets as they are. So the sets stay within what is
      stored exactly when no acknowledged transaction has expired. */
  lemma ReloadKeepsAcksExactlyWhen(s: State)
    requires Founded(s) && AcksStored(s) && FoldOf(s).Ok?
    ensures AcksStored(Reload(s)) <==> !AckedExpired(s)
  {
    var t := Reload(s);
    if AckedExpired(s) {
      var cid, a, id :| cid in s.acks && a in s.acks[cid] && id in s.acks[cid][a] && id in s.bodies && Expired(s.bodies[id], Now(s));
      assert id in t.acks[cid][a] && id !in Ids(t, cid);
    } else {
      forall cid, a | cid in t.acks && a in t.acks[cid]
        ensures t.acks[cid][a] <= Ids(t, cid)
      {
        forall id | id in t.acks[cid][a]
          ensures id in Ids(t, cid)
        {
          assert s.acks[cid][a] <= Ids(s, cid);
          SnapshotIsAllUnexpired(s, id);
        }
      }
    }
  }

  /** The acknowledged sets stay within what is stored, all along the run. */
  ghost predicate AlwaysStored(s: State, events: seq<Event>)
    decreases |events|
  {
    AcksStored(s) && (events != [] ==> AlwaysStored(Next(s, events[0]), events[1..]))
  }

  /** Whenever a fold goes through, no acknowledged transaction has expired. */
  ghost predicate FoldsInTime(s: State, events: seq<Event>)
    decreases |events|
  {
    events != [] ==>
      && (events[0].Refold? && FoldOf(s).Ok? ==> !AckedExpired(s))
      && FoldsInTime(Next(s, events[0]), events[1..])
  }

  lemma {:induction false} AcksStayStoredExactlyWhen(contents: TxId -> Tx, s: State, events: seq<Event>)
    requires Sane(contents, s) && AllHashed(contents, events) && AcksStored(s)
    ensures AlwaysStored(s, events) <==> FoldsInTime(s, events)
    decreases |events|
  {
    if events != [] {
      var t := Next(s, events[0]);
      NextKeepsSane(contents, s, events[0]);
      if events[0].Work? {
        DoKeepsAcks(s, events[0].op);
      } else if FoldOf(s).Ok? {
        ReloadKeepsAcksExactlyWhen(s);
      }
      if AcksStored(t) {
        AcksStayStoredExactlyWhen(contents, t, events[1..]);
      }
    }
  }

  const MESSAGE: Tx := Tx(0, Some(5))
  const ACKED: State := State(map[1 := MESSAGE], map[0 := map[7 := {1}]], map[0 := 1], 1, None)

  lemma OneAck()
    ensures Do(Do(Do(NOTHING, Open(0)), Merge(1, MESSAGE)), Ack(0, 7, true)) == ACKED
  {
    var merged := Do(Do(NOTHING, Open(0)), Merge(1, MESSAGE));
    assert Ids(merged, 0) == {1};
    assert WithAck(map[], 7, {1}) == map[7 := {1}];
    assert merged == State(map[1 := MESSAGE], map[0 := map[]], map[0 := 1], 1, None);
  }

  /** One message is acknowledged, expires and is folded away. Its id stays acknowledged. */
  lemma AckOutlivesItsMessage()
    ensures var events := [Work(Open(0)), Work(Merge(1, MESSAGE)), Work(Ack(0, 7, true)), Work(Tick(10)), Refold];
            var s := Run(NOTHING, events);
            1 !in s.bodies && 0 in s.acks && s.acks[0] == map[7 := {1}] && !AcksStored(s)
  {
    OneAck();
    var events := [Work(Open(0)), Work(Merge(1, MESSAGE)), Work(Ack(0, 7, true)), Work(Tick(10)), Refold];
    var chained := Do(NOTHING, Open(0));
    var merged := Do(chained, Merge(1, MESSAGE));
    var late := ACKED.(ticked := Some(10));
    RunStarts(NOTHING, events);
    RunStarts(chained, events[1..]);
    RunStarts(merged, events[1..][1..]);
    RunStarts(ACKED, events[1..][1..][1..]);
    assert events[1..][1..][1..][1..] == [Refold];
    RunStarts(late, [Refold]);
    FoldsAway(late);
  }

  lemma RunStarts(s: State, events: seq<Event>)
    requires events != []
    ensures Run(s, events) == Run(Next(s, events[0]), events[1..])
    ensures |events| == 1 ==> Run(s, events) == Next(s, events[0])
  {
  }

  lemma FoldsAway(late: State)
    requires late == ACKED.(ticked := Some(10))
    ensures FoldOf(late).Ok? && 1 !in Reload(late).bodies && Reload(late).acks == ACKED.acks && !AcksStored(Reload(late))
  {
    assert Expired(late.bodies[1], Now(late));
    assert 7 in ACKED.acks[0] && 1 in ACKED.acks[0][7];
    assert 1 !in Ids(Reload(late), 0);
  }

  // ---------------------------------------------------------------- who has acknowledged what

  /** The notice of an invitation is stored in a row of its own without a record, and whoever acknowledges it has exactly it. */
  lemma NoticeCanBeAcknowledged(s: State, id: TxId, notice: Tx, actor: Actor)
    requires s.nextSeq < U64_MAX && id !in s.bodies && Fresh(s, notice.cid)
    ensures var t := Do(Do(s, Invite(id, notice)), Ack(notice.cid, actor, true));
            && t.bodies == s.bodies[id := notice] && t.persistLog == s.persistLog && t.nextSeq == s.nextSeq + 1
            && notice.cid in t.acks && t.acks[notice.cid] == map[actor := {id}]
  {
    var invited := Do(s, Invite(id, notice));
    assert Ids(invited, notice.cid) == {id} by {
      assert forall x :: x in s.bodies && s.bodies[x].cid == notice.cid ==> x in Ids(s, notice.cid);
    }
    assert WithAck(map[], actor, {id}) == map[actor := {id}];
  }

  lemma {:induction false} RunSnoc(s: State, events: seq<Event>, e: Event)
    ensures Run(s, events + [e]) == Next(Run(s, events), e)
    decreases |events|
  {
    if events == [] {
      assert [] + [e] == [e] && [e][1..] == [];
    } else {
      assert (events + [e])[1..] == events[1..] + [e];
      RunSnoc(Next(s, events[0]), events[1..], e);
    }
  }

  /** Event `i` is the last agreeing acknowledgement of this actor, and the row has been open since. */
  ghost predicate LastAck(s: State, events: seq<Event>, cid: Cid, actor: Actor, i: nat) {
    && i < |events| && events[i] == Work(Ack(cid, actor, true)) && cid in Run(s, events[..i]).acks
    && forall j :: i < j < |events| ==> events[j] != Work(Ack(cid, actor, true)) && events[j] != Work(Drop(cid))
  }

  lemma LastAckGrows(s: State, events: seq<Event>, e: Event, cid: Cid, actor: Actor, i: nat)
    requires i < |events| && e != Work(Ack(cid, actor, true)) && e != Work(Drop(cid))
    ensures LastAck(s, events + [e], cid, actor, i) <==> LastAck(s, events, cid, actor, i)
  {
    assert (events + [e])[..i] == events[..i];
    assert forall j :: 0 <= j < |events| ==> (events + [e])[j] == events[j];
  }

  /** An event that is neither an acknowledgement of this actor nor the end of the row leaves what the actor has. */
  lemma SetStays(s: State, e: Event, cid: Cid, actor: Actor)
    requires e != Work(Ack(cid, actor, true)) && e != Work(Drop(cid))
    ensures cid in s.acks ==> cid in Next(s, e).acks
    ensures cid in s.acks ==> (actor in s.acks[cid] <==> actor in Next(s, e).acks[cid])
    ensures cid in s.acks && actor in s.acks[cid] ==> Next(s, e).acks[cid][actor] == s.acks[cid][actor]
    ensures cid !in s.acks && cid in Next(s, e).acks ==> actor !in Next(s, e).acks[cid]
  {
  }

  ghost predicate HasSet(s: State, cid: Cid, actor: Actor) { cid in s.acks && actor in s.acks[cid] }

  /**
    * In every run from nothing an actor has a set exactly when an acknowledgement of its own agreed since the row was opened,
    * and it is what the conversation stored at the last such one, whatever others acknowledged before or since.
    */
  lemma {:induction false} SetIsOfTheLastAck(events: seq<Event>, cid: Cid, actor: Actor)
    ensures HasSet(Run(NOTHING, events), cid, actor) <==> exists i: nat :: LastAck(NOTHING, events, cid, actor, i)
    ensures forall i: nat :: LastAck(NOTHING, events, cid, actor, i) && HasSet(Run(NOTHING, events), cid, actor) ==>
              Run(NOTHING, events).acks[cid][actor] == Ids(Run(NOTHING, events[..i]), cid)
    decreases |events|
  {
    if events != [] {
      var n := |events| - 1;
      var front, e := events[..n], events[n];
      assert events == front + [e];
      SetIsOfTheLastAck(front, cid, actor);
      RunSnoc(NOTHING, front, e);
      if e == Work(Ack(cid, actor, true)) {
        AckIsLast(front, cid, actor);
      } else if e == Work(Drop(cid)) {
        assert forall i: nat :: i < n ==> !LastAck(NOTHING, events, cid, actor, i);
      } else {
        SetStays(Run(NOTHING, front), e, cid, actor);
        OthersDoNotMatter(front, e, cid, actor);
      }
    }
  }

  lemma AckIsLast(front: seq<Event>, cid: Cid, actor: Actor)
    ensures var events := front + [Work(Ack(cid, actor, true))];
            && (forall i: nat :: LastAck(NOTHING, events, cid, actor, i) ==> i == |front|)
            && (LastAck(NOTHING, events, cid, actor, |front|) <==> cid in Run(NOTHING, front).acks)
            && events[..|front|] == front
  {
    var events := front + [Work(Ack(cid, actor, true))];
    assert events[..|front|] == front;
    assert events[|front|] == Work(Ack(cid, actor, true));
  }

  lemma OthersDoNotMatter(front: seq<Event>, e: Event, cid: Cid, actor: Actor)
    requires e != Work(Ack(cid, actor, true)) && e != Work(Drop(cid))
    ensures forall i: nat :: LastAck(NOTHING, front + [e], cid, actor, i) <==> LastAck(NOTHING, front, cid, actor, i)
    ensures forall i :: 0 <= i < |front| ==> (front + [e])[..i] == front[..i]
  {
    forall i: nat
      ensures LastAck(NOTHING, front + [e], cid, actor, i) <==> LastAck(NOTHING, front, cid, actor, i)
    {
      if i < |front| {
        LastAckGrows(NOTHING, front, e, cid, actor, i);
      }
    }
  }

  /** So in every run a fold that goes through holds only what every actor whose last acknowledgement was of something had
      in it. */
  lemma FoldHoldsWhatAllAcknowledged(events: seq<Event>, id: TxId, actor: Actor, i: nat)
    requires var s := Run(NOTHING, events);
             && FoldOf(s).Ok? && id in FoldOf(s).value.txs
             && LastAck(NOTHING, events, s.bodies[id].cid, actor, i)
    ensures var s := Run(NOTHING, events);
            var held := Ids(Run(NOTHING, events[..i]), s.bodies[id].cid);
            held != {} ==> id in held
  {
    var s := Run(NOTHING, events);
    SetIsOfTheLastAck(events, s.bodies[id].cid, actor);
    if Ids(Run(NOTHING, events[..i]), s.bodies[id].cid) != {} {
      SnapshotIsAcknowledged(s, id, actor);
    }
  }

  /** Every actor whose last acknowledgement was of anything had this in it. */
  ghost predicate EveryoneHas(events: seq<Event>, cid: Cid, id: TxId) {
    forall actor, i: nat {:trigger LastAck(NOTHING, events, cid, actor, i)} :: LastAck(NOTHING, events, cid, actor, i) ==>
      var held := Ids(Run(NOTHING, events[..i]), cid); held != {} ==> id in held
  }

  lemma WatermarkedExactlyWhen(events: seq<Event>, id: TxId)
    requires id in Run(NOTHING, events).bodies
    ensures var s := Run(NOTHING, events); Watermarked(s, id) <==> EveryoneHas(events, s.bodies[id].cid, id)
  {
    var s := Run(NOTHING, events);
    var cid := s.bodies[id].cid;
    assert id in Ids(s, cid);
    if Watermarked(s, id) {
      forall actor, i: nat | LastAck(NOTHING, events, cid, actor, i)
        ensures var held := Ids(Run(NOTHING, events[..i]), cid); held != {} ==> id in held
      {
        SetIsOfTheLastAck(events, cid, actor);
      }
    }
    if EveryoneHas(events, cid, id) && cid in s.acks {
      forall actor | actor in s.acks[cid] && s.acks[cid][actor] != {}
        ensures id in s.acks[cid][actor]
      {
        SetIsOfTheLastAck(events, cid, actor);
        var i: nat :| LastAck(NOTHING, events, cid, actor, i);
      }
    }
  }

  /**
    * In every run from nothing a fold goes through exactly when record numbers are left and every transaction that is on record,
    * stored and unexpired is in what each actor of its conversation last acknowledged, unless that was nothing.
    */
  lemma FoldGoesThroughExactlyWhen(events: seq<Event>)
    ensures var s := Run(NOTHING, events);
            FoldOf(s).Ok?
            <==> && s.nextSeq < 0xffff_ffff_ffff_ffff
                 && forall q :: q in s.persistLog && s.persistLog[q] in s.bodies ==>
                      var id := s.persistLog[q];
                      (s.bodies[id].expireAt.Some? && s.bodies[id].expireAt.value <= Now(s)) || EveryoneHas(events, s.bodies[id].cid, id)
  {
    var s := Run(NOTHING, events);
    forall q | q in s.persistLog && s.persistLog[q] in s.bodies
      ensures Watermarked(s, s.persistLog[q]) <==> EveryoneHas(events, s.bodies[s.persistLog[q]].cid, s.persistLog[q])
    {
      WatermarkedExactlyWhen(events, s.persistLog[q]);
    }
  }

  // ---------------------------------------------------------------- what blocks a fold

  /** A new transaction blocks folding exactly when somebody in its conversation has acknowledged anything and it has not
      expired, unless something else blocks it already. */
  lemma NewTransactionBlocksExactlyWhen(contents: TxId -> Tx, s: State, id: TxId)
    requires Sane(contents, s) && id !in s.bodies && s.nextSeq < U64_MAX - 1
    ensures var tx := contents(id);
            FoldOf(Do(s, Merge(id, tx))) == Err(WrongPhase)
            <==> Outside(s) || (tx.cid in s.acks && HasAcks(s.acks[tx.cid]) && !Expired(tx, Now(s)))
  {
    var tx := contents(id);
    var t := Do(s, Merge(id, tx));
    if !Expired(tx, Now(s)) {
      NewIsWatermarkedExactlyWhen(contents, s, id);
    }
    if Outside(s) {
      var q :| q in s.persistLog && s.persistLog[q] in s.bodies
               && !Expired(s.bodies[s.persistLog[q]], Now(s)) && !Watermarked(s, s.persistLog[q]);
      OthersStand(s, id, tx, s.persistLog[q]);
      assert q in t.persistLog && t.persistLog[q] == s.persistLog[q];
    }
    if Outside(t) {
      var q :| q in t.persistLog && t.persistLog[q] in t.bodies
               && !Expired(t.bodies[t.persistLog[q]], Now(t)) && !Watermarked(t, t.persistLog[q]);
      if t.persistLog[q] != id {
        OthersStand(s, id, tx, t.persistLog[q]);
        assert q in s.persistLog && s.persistLog[q] == t.persistLog[q];
      }
    }
    assert s.nextSeq in t.persistLog && t.persistLog[s.nextSeq] == id;
  }

  lemma OthersStand(s: State, id: TxId, tx: Tx, other: TxId)
    requires id !in s.bodies && other in s.bodies && s.nextSeq < U64_MAX
    ensures Watermarked(Do(s, Merge(id, tx)), other) <==> Watermarked(s, other)
  {
  }

  lemma NewIsWatermarkedExactlyWhen(contents: TxId -> Tx, s: State, id: TxId)
    requires AcksKnown(contents, s) && id !in s.bodies && s.nextSeq < U64_MAX && !Expired(contents(id), Now(s))
    ensures var tx := contents(id);
            Watermarked(Do(s, Merge(id, tx)), id) <==> !(tx.cid in s.acks && HasAcks(s.acks[tx.cid]))
  {
    var tx := contents(id);
    var t := Do(s, Merge(id, tx));
    if tx.cid in s.acks && HasAcks(s.acks[tx.cid]) {
      var a :| a in s.acks[tx.cid] && s.acks[tx.cid][a] != {};
      assert id !in t.acks[tx.cid][a];
    }
  }

  /** Once every actor that acknowledges at all agrees with the stored set, everything unexpired folds. */
  lemma AgreementUnblocks(s: State)
    requires s.nextSeq < U64_MAX
    requires forall cid, a :: cid in s.acks && a in s.acks[cid] && s.acks[cid][a] != {} ==> s.acks[cid][a] == Ids(s, cid)
    ensures FoldOf(s).Ok?
    ensures forall id :: id in FoldOf(s).value.txs <==> id in s.bodies && !Expired(s.bodies[id], Now(s))
  {
    forall id | id in s.bodies
      ensures Watermarked(s, id)
    {
      assert id in Ids(s, s.bodies[id].cid);
    }
  }

  // ---------------------------------------------------------------- nothing on record is lost

  /** The conversation is not dropped. */
  predicate Spares(events: seq<Event>, cid: Cid) {
    forall i :: 0 <= i < |events| ==> events[i] != Work(Drop(cid))
  }

  lemma {:induction false} ClockOnlyMoves(s: State, events: seq<Event>)
    ensures Now(s) <= Now(Run(s, events))
    decreases |events|
  {
    if events != [] {
      ClockOnlyMoves(Next(s, events[0]), events[1..]);
    }
  }

  ghost predicate Persisted(s: State, q: U64, id: TxId, tx: Tx) {
    q in s.persistLog && s.persistLog[q] == id && id in s.bodies && s.bodies[id] == tx
  }

  lemma StaysPersisted(s: State, e: Event, q: U64, id: TxId, tx: Tx)
    requires Numbered(s) && Persisted(s, q, id, tx) && !Expired(tx, Now(s))
    requires e != Work(Drop(tx.cid))
    ensures Numbered(Next(s, e)) && Persisted(Next(s, e), q, id, tx)
  {
    if e.Refold? && FoldOf(s).Ok? {
      SnapshotHoldsAllPersisted(s, q);
    }
  }

  /** However often the state is folded and read back, a persisted transaction that has not expired by the end is
      still stored and still on record, unless its conversation was dropped. */
  lemma {:induction false} NothingPersistedIsLost(s: State, events: seq<Event>, q: U64, id: TxId, tx: Tx)
    requires Numbered(s) && Persisted(s, q, id, tx) && Spares(events, tx.cid)
    requires !Expired(tx, Now(Run(s, events)))
    ensures Persisted(Run(s, events), q, id, tx)
    decreases |events|
  {
    if events != [] {
      ClockOnlyMoves(s, events);
      StaysPersisted(s, events[0], q, id, tx);
      NothingPersistedIsLost(Next(s, events[0]), events[1..], q, id, tx);
    }
  }
}
