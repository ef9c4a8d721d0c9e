/** The store, changed in place. */
module TxEngine {
  import opened TxLookup
  import opened TxStore
  import opened Wrappers

  class EngineState {
    var engine: Log
    var index: map<TxId, Place>
    var rows: map<Spot, Node>

    function Value(): Store
      reads this
    {
      Store(engine, index, rows)
    }

    constructor ()
      ensures Value() == EMPTY
    {
      engine, index, rows := map[], map[], map[];
    }

    method Lookup(id: TxId) returns (b: Option<Body>)
      ensures b == BodyOf(Value(), id)
    {
      if id !in index {
        return None;
      }
      return At(Value(), id, index[id]);
    }

    /** The first identity that has a row with this conversation id, else the device. */
    method PlaceOf(cid: Cid) returns (r: Option<Spot>)
      ensures r == SpotOf(rows, cid)
    {
      var best: Option<Owner> := None;
      var left := rows.Keys;
      while left != {}
        invariant left <= rows.Keys
        invariant best.Some? ==> Owns(rows, best.value, cid)
        invariant forall o: Owner :: Owns(rows, o, cid) && OfIdentity(o, cid) !in left ==> best.Some? && best.value <= o
        decreases left
      {
        var spot :| spot in left;
        left := left - {spot};
        if spot.OfIdentity? && spot.cid == cid && (best.None? || spot.owner < best.value) {
          best := Some(spot.owner);
        }
      }
      if best.Some? {
        assert First(rows, best.value, cid);
        return Some(OfIdentity(best.value, cid));
      }
      return if OnDevice(cid) in rows then Some(OnDevice(cid)) else None;
    }

    method Remove(id: TxId)
      modifies this
      ensures Value() == RemoveBody(old(Value()), id)
    {
      if id !in index {
        return;
      }
      var place := index[id];
      index := index - {id};
      match place
      case InEngine =>
        engine := engine - {id};
      case InRow(spot) =>
        if spot in rows && rows[spot].Logged? {
          rows := rows[spot := rows[spot].(log := rows[spot].log - {id})];
        }
    }

    /** Store a body. On a refusal the body it was to replace is already gone. */
    method Insert(id: TxId, b: Body) returns (ok: bool)
      modifies this
      ensures InsertBody(old(Value()), id, b) == Inserted(Value(), ok)
    {
      Remove(id);
      var spot := PlaceOf(b.cid);
      if spot.Some? {
        var node := rows[spot.value];
        if node.Closed? || !Takes(node.kind, b.kind) {
          return false;
        }
        rows := rows[spot.value := node.(log := node.log[id := b])];
        index := index[id := InRow(spot.value)];
      } else {
        if b.kind !in ENGINE {
          return false;
        }
        engine := engine[id := b];
        index := index[id := InEngine];
      }
      return true;
    }

    method Drop(cid: Cid) returns (found: bool)
      modifies this`rows
      ensures Value() == DropConversation(old(Value()), cid)
      ensures found <==> SpotOf(old(rows), cid).Some?
    {
      var spot := PlaceOf(cid);
      if spot.Some? {
        rows := rows - {spot.value};
      }
      rows := rows - {OnDevice(cid)};
      found := spot.Some?;
    }

    method Rekey(from: Cid, to: Cid)
      modifies this`rows
      ensures Value() == RekeyRow(old(Value()), from, to)
    {
      rows := RekeyRows(rows, from, to);
    }

    /** All bodies of all logs, collected log by log. What is in no log twice needs no order. */
    method BodyPairs() returns (out: map<TxId, Body>)
      requires Indexed(Value())
      ensures forall id :: id in out <==> BodyOf(Value(), id).Some?
      ensures forall id :: id in out ==> BodyOf(Value(), id) == Some(out[id])
    {
      out := engine;
      assert forall id :: id in engine ==> At(Value(), id, InEngine) == Some(engine[id]);
      var left := rows.Keys;
      while left != {}
        invariant left <= rows.Keys
        invariant forall id, b :: id in out && out[id] == b ==> Scanned(Value(), id, b)
        invariant forall id :: id in engine ==> id in out
        invariant forall spot, id :: spot in rows && spot !in left && rows[spot].Logged? && id in rows[spot].log ==> id in out
        decreases left
      {
        var spot :| spot in left;
        left := left - {spot};
        if rows[spot].Logged? {
          assert forall id :: id in rows[spot].log ==> At(Value(), id, InRow(spot)) == Some(rows[spot].log[id]);
          out := out + rows[spot].log;
        }
      }
      forall id
        ensures id in out ==> BodyOf(Value(), id) == Some(out[id])
      {
        LookupIsScan(Value(), id);
      }
    }
  }
}
