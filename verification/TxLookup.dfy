/** Lookup through the index agrees with a scan of all logs in every reachable store. */
module TxLookup {
  import opened TxStore
  import opened Wrappers

  /** While everything stored is indexed, lookup finds exactly what a scan meets, and an id is in one log at most. */
  lemma LookupIsScan(s: Store, id: TxId)
    requires Indexed(s)
    ensures forall b :: BodyOf(s, id) == Some(b) <==> Scanned(s, id, b)
    ensures forall p, q :: At(s, id, p).Some? && At(s, id, q).Some? ==> p == q
  {
    forall b
      ensures BodyOf(s, id) == Some(b) <==> Scanned(s, id, b)
    {
      if BodyOf(s, id) == Some(b) {
        assert At(s, id, s.index[id]) == Some(b);
      }
    }
  }

  // ---------------------------------------------------------------- each operation

  lemma AtWithout(s: Store, id: TxId, place: Place, x: TxId, p: Place)
    ensures At(WithoutAt(s, id, place), x, p) == if x == id && p == place then None else At(s, x, p)
  {
  }

  /** Removing one id empties its place and no other. */
  lemma RemoveIs(s: Store, id: TxId)
    requires Indexed(s)
    ensures Indexed(RemoveBody(s, id)) && id !in RemoveBody(s, id).index
    ensures BodyOf(RemoveBody(s, id), id) == None
    ensures forall x :: x != id ==> BodyOf(RemoveBody(s, id), x) == BodyOf(s, x)
    ensures forall p :: At(RemoveBody(s, id), id, p) == None
  {
    if id in s.index {
      forall x, p
        ensures At(RemoveBody(s, id), x, p) == if x == id && p == s.index[id] then None else At(s, x, p)
      {
        AtWithout(s, id, s.index[id], x, p);
      }
    }
  }

  lemma AtWithRow(s: Store, spot: Spot, id: TxId, b: Body, x: TxId, p: Place)
    requires spot in s.rows && s.rows[spot].Logged?
    ensures At(s.(rows := s.rows[spot := s.rows[spot].(log := s.rows[spot].log[id := b])]), x, p)
         == if x == id && p == InRow(spot) then Some(b) else At(s, x, p)
  {
  }

  lemma AtWithEngine(s: Store, id: TxId, b: Body, x: TxId, p: Place)
    ensures At(s.(engine := s.engine[id := b]), x, p) == if x == id && p == InEngine then Some(b) else At(s, x, p)
  {
  }

  /** Removing a body leaves every row where it was, and of its kind. */
  lemma RemoveKeepsRows(s: Store, id: TxId, cid: Cid)
    ensures RemoveBody(s, id).rows.Keys == s.rows.Keys
    ensures forall k :: k in s.rows ==>
              && RemoveBody(s, id).rows[k].Logged? == s.rows[k].Logged?
              && (s.rows[k].Logged? ==> RemoveBody(s, id).rows[k].kind == s.rows[k].kind)
    ensures SpotOf(RemoveBody(s, id).rows, cid) == SpotOf(s.rows, cid)
  {
    var c := RemoveBody(s, id);
    assert forall o: Owner :: Owns(c.rows, o, cid) <==> Owns(s.rows, o, cid);
    if o: Owner :| First(s.rows, o, cid) {
      assert First(c.rows, o, cid);
    } else {
      forall o: Owner
        ensures !First(c.rows, o, cid)
      {
        assert !First(s.rows, o, cid);
      }
    }
  }

  /** Whether a body is taken can be told before the call. */
  lemma InsertsExactlyWhen(s: Store, id: TxId, b: Body)
    ensures InsertBody(s, id, b).ok <==> Accepts(s, b)
  {
    RemoveKeepsRows(s, id, b.cid);
  }

  /**
    * Whatever the body and wherever its id was before: the store stays indexed, every other id reads as before,
    * and this id reads the new body when its row takes it, and otherwise nothing at all.
    */
  lemma InsertIs(s: Store, id: TxId, b: Body)
    requires Indexed(s)
    ensures var r := InsertBody(s, id, b);
            && Indexed(r.store)
            && BodyOf(r.store, id) == (if Accepts(s, b) then Some(b) else None)
            && forall x :: x != id ==> BodyOf(r.store, x) == BodyOf(s, x)
  {
    var c := RemoveBody(s, id);
    InsertsExactlyWhen(s, id, b);
    RemoveIs(s, id);
    var r := InsertBody(s, id, b);
    if r.ok {
      var spot := SpotOf(c.rows, b.cid);
      forall x, p
        ensures At(r.store, x, p) == if x == id && p == r.store.index[id] then Some(b) else At(c, x, p)
      {
        if spot.Some? {
          AtWithRow(c, spot.value, id, b, x, p);
        } else {
          AtWithEngine(c, id, b, x, p);
        }
      }
    }
  }

  /** An insert loses the body stored under its id exactly when there is one and the new body is not taken. */
  lemma InsertLosesExactlyWhen(s: Store, id: TxId, b: Body)
    requires Indexed(s)
    ensures BodyOf(s, id).Some? && BodyOf(InsertBody(s, id, b).store, id).None? <==> BodyOf(s, id).Some? && !Accepts(s, b)
  {
    InsertIs(s, id, b);
  }

  /** A refused insert changes nothing exactly when the index does not know the id. */
  lemma RefusedInsertIsNoOpExactlyWhen(s: Store, id: TxId, b: Body)
    requires !Accepts(s, b)
    ensures InsertBody(s, id, b).store == s <==> id !in s.index
  {
    InsertsExactlyWhen(s, id, b);
  }

  /** A text meant for a handshake row takes the notice of that row with it. */
  lemma RefusedInsertLoses()
    ensures var notice, text := Body(7, 0, Notice, "n"), Body(7, 0, Text, "t");
            var spot := OfIdentity(1, 7);
            var s := Store(map[], map[0 := InRow(spot)], map[spot := Logged(DmHandshake, map[0 := notice])]);
            && Indexed(s) && BodyOf(s, 0) == Some(notice)
            && !InsertBody(s, 0, text).ok && BodyOf(InsertBody(s, 0, text).store, 0) == None
  {
    var notice, text := Body(7, 0, Notice, "n"), Body(7, 0, Text, "t");
    var spot := OfIdentity(1, 7);
    var s := Store(map[], map[0 := InRow(spot)], map[spot := Logged(DmHandshake, map[0 := notice])]);
    assert First(s.rows, 1, 7);
    assert SpotOf(s.rows, 7) == Some(spot);
    InsertIs(s, 0, text);
    InsertsExactlyWhen(s, 0, text);
  }

  /** A row that is replaced, opened or closed forgets its log, and nothing else is forgotten. */
  lemma PutIs(s: Store, spot: Spot, kind: Option<RowKind>, id: TxId)
    requires Indexed(s)
    ensures var t := PutRow(s, spot, kind);
            && spot in t.rows && (kind.None? ==> t.rows[spot].Closed?)
            && (kind.Some? ==> t.rows[spot].Logged? && t.rows[spot].kind == kind.value)
            && BodyOf(t, id) == if id in s.index && s.index[id] == InRow(spot) then None else BodyOf(s, id)
  {
  }

  /** Which places a dropped conversation had: the row of the first identity that has one, and that of the device. */
  ghost predicate DroppedWith(s: Store, cid: Cid, place: Place) {
    place.InRow? && place.spot in s.rows && place.spot.cid == cid
    && (place.spot.OfIdentity? ==> forall j: Owner :: j < place.spot.owner ==> OfIdentity(j, cid) !in s.rows)
  }

  /** Dropping a conversation forgets what was at these places, and nothing else is forgotten. */
  lemma DropIs(s: Store, cid: Cid, id: TxId, spot: Spot)
    requires Indexed(s)
    ensures var t := DropConversation(s, cid);
            && (spot in t.rows <==> spot in s.rows && !DroppedWith(s, cid, InRow(spot)))
            && (spot in t.rows ==> t.rows[spot] == s.rows[spot])
            && BodyOf(t, id) == if id in s.index && DroppedWith(s, cid, s.index[id]) then None else BodyOf(s, id)
  {
    DropsExactly(s, cid, spot);
    if id in s.index && s.index[id].InRow? {
      DropsExactly(s, cid, s.index[id].spot);
    }
  }

  lemma DropsExactly(s: Store, cid: Cid, spot: Spot)
    ensures spot in DropConversation(s, cid).rows <==> spot in s.rows && !DroppedWith(s, cid, InRow(spot))
    ensures spot in DropConversation(s, cid).rows ==> DropConversation(s, cid).rows[spot] == s.rows[spot]
  {
    if spot.OfIdentity? && spot.cid == cid && spot in s.rows {
      assert Owns(s.rows, spot.owner, cid);
      if o: Owner :| First(s.rows, o, cid) {
        SpotIsFirst(s.rows, o, cid);
        assert spot.owner == o <==> forall j: Owner :: j < spot.owner ==> OfIdentity(j, cid) !in s.rows by {
          assert forall j: Owner :: Owns(s.rows, j, cid) <==> OfIdentity(j, cid) in s.rows;
        }
      } else {
        FirstExists(s.rows, spot.owner, cid);
      }
    }
  }

  lemma SpotIsFirst(rows: map<Spot, Node>, o: Owner, cid: Cid)
    requires First(rows, o, cid)
    ensures SpotOf(rows, cid) == Some(OfIdentity(o, cid))
  {
  }

  /** A row that is replaced keeps lookup in order. */
  lemma PutKeeps(s: Store, spot: Spot, kind: Option<RowKind>)
    requires Indexed(s)
    ensures Indexed(PutRow(s, spot, kind))
  {
    forall x, p | At(PutRow(s, spot, kind), x, p).Some?
      ensures At(s, x, p).Some?
    {
    }
  }

  lemma DropKeeps(s: Store, cid: Cid)
    requires Indexed(s)
    ensures Indexed(DropConversation(s, cid))
  {
    forall x, p | At(DropConversation(s, cid), x, p).Some?
      ensures At(s, x, p).Some?
    {
    }
  }

  /**
    * Rekeying a row keeps lookup and scan in agreement exactly when no row it moves holds anything. Otherwise the
    * scan still meets the moved bodies and lookup has lost them.
    */
  lemma RekeyAgreesExactlyWhen(s: Store, from: Cid, to: Cid)
    requires Indexed(s) && from != to
    ensures (forall id, b :: BodyOf(RekeyRow(s, from, to), id) == Some(b) <==> Scanned(RekeyRow(s, from, to), id, b))
            <==> MovesNothing(s, from)
    ensures MovesNothing(s, from) ==> Indexed(RekeyRow(s, from, to))
  {
    var t := RekeyRow(s, from, to);
    if MovesNothing(s, from) {
      RekeyOfNothing(s, from, to);
      forall id
        ensures forall b :: BodyOf(t, id) == Some(b) <==> Scanned(t, id, b)
      {
        LookupIsScan(t, id);
      }
    } else {
      var k :| k in s.rows && k.cid == from && s.rows[k].Logged? && s.rows[k].log != map[];
      var id :| id in s.rows[k].log;
      RekeyLoses(s, from, to, k, id);
    }
  }

  lemma RekeyOfNothing(s: Store, from: Cid, to: Cid)
    requires Indexed(s) && from != to && MovesNothing(s, from)
    ensures Indexed(RekeyRow(s, from, to))
  {
    var t := RekeyRow(s, from, to);
    forall x, p | At(t, x, p).Some?
      ensures At(s, x, p).Some?
    {
    }
  }

  /** A body in a moved row is met by the scan at its new place, while the index still names the old one. */
  lemma RekeyLoses(s: Store, from: Cid, to: Cid, k: Spot, id: TxId)
    requires Indexed(s) && from != to
    requires k in s.rows && k.cid == from && s.rows[k].Logged? && id in s.rows[k].log
    ensures BodyOf(RekeyRow(s, from, to), id) == None
    ensures Scanned(RekeyRow(s, from, to), id, s.rows[k].log[id])
  {
    var t := RekeyRow(s, from, to);
    assert At(s, id, InRow(k)).Some?;
    assert Renamed(Renamed(k, to), from) == k;
    assert At(t, id, InRow(Renamed(k, to))) == Some(s.rows[k].log[id]);
    assert k !in t.rows;
  }

  // ---------------------------------------------------------------- whole runs

  datatype Op =
    | InsertOp(id: TxId, body: Body)
    | RemoveOp(id: TxId)
    | PutOp(spot: Spot, kind: Option<RowKind>)
    | DropOp(cid: Cid)
    | RekeyOp(from: Cid, to: Cid)

  ghost function Do(s: Store, op: Op): Store {
    match op
    case InsertOp(id, body) => InsertBody(s, id, body).store
    case RemoveOp(id) => RemoveBody(s, id)
    case PutOp(spot, kind) => PutRow(s, spot, kind)
    case DropOp(cid) => DropConversation(s, cid)
    case RekeyOp(from, to) => if MovesNothing(s, from) then RekeyRow(s, from, to) else s
  }

  ghost function DoAll(s: Store, ops: seq<Op>): Store {
    if ops == [] then s else Do(DoAll(s, ops[..|ops| - 1]), ops[|ops| - 1])
  }

  lemma DoKeeps(s: Store, op: Op)
    requires Indexed(s)
    ensures Indexed(Do(s, op))
  {
    match op
    case InsertOp(id, body) => InsertIs(s, id, body);
    case RemoveOp(id) => RemoveIs(s, id);
    case PutOp(spot, kind) => PutKeeps(s, spot, kind);
    case DropOp(cid) => DropKeeps(s, cid);
    case RekeyOp(from, to) =>
      if from == to {
        RekeyToItself(s, from);
      } else if MovesNothing(s, from) {
        RekeyOfNothing(s, from, to);
      }
  }

  lemma RekeyToItself(s: Store, cid: Cid)
    ensures RekeyRow(s, cid, cid) == s
  {
    assert forall k: Spot :: k.cid == cid ==> Renamed(k, cid) == k;
    assert RekeyRows(s.rows, cid, cid) == s.rows;
  }

  const EMPTY: Store := Store(map[], map[], map[])

  /** In every store reached from the empty one, failed inserts, replaced rows and stale index entries included. */
  lemma {:induction false} LookupAgreesAlways(ops: seq<Op>, id: TxId)
    ensures Indexed(DoAll(EMPTY, ops))
    ensures forall b :: BodyOf(DoAll(EMPTY, ops), id) == Some(b) <==> Scanned(DoAll(EMPTY, ops), id, b)
    ensures forall p, q :: At(DoAll(EMPTY, ops), id, p).Some? && At(DoAll(EMPTY, ops), id, q).Some? ==> p == q
  {
    if ops != [] {
      var n := |ops| - 1;
      LookupAgreesAlways(ops[..n], id);
      DoKeeps(DoAll(EMPTY, ops[..n]), ops[n]);
    }
    LookupIsScan(DoAll(EMPTY, ops), id);
  }
}
