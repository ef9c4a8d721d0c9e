/** Which hour bins of a mailbox have been listed: a watermark and a sparse set stand for the plain set. */
module Bins {
  import opened Numbers
  import opened Wrappers

  /** Every bin up to the watermark is complete, and so is every bin of the set. */
  datatype Progress = Progress(watermark: Option<U64>, completed: set<U64>)

  const NOTHING: Progress := Progress(None, {})

  predicate Complete(p: Progress, bin: U64) {
    (p.watermark.Some? && bin <= p.watermark.value) || bin in p.completed
  }

  predicate BinComplete(p: Option<Progress>, bin: U64) { p.Some? && Complete(p.value, bin) }

  /** Where a scan starts. */
  function CatchUpStart(p: Option<Progress>, listFrom: U64): U64 {
    if p.Some? && p.value.watermark.Some? then SatAdd(p.value.watermark.value, 1) else listFrom
  }

  function ListenBins(w: U64): set<U64> { {SatSub(w, 1), w, SatAdd(w, 1)} }

  function Next(p: Progress, listFrom: U64): U64 {
    if p.watermark.None? then listFrom else SatAdd(p.watermark.value, 1)
  }

  /** Move the watermark over every bin that follows it in the set. */
  function Advanced(p: Progress, listFrom: U64): Progress
    decreases |p.completed|
  {
    var next := Next(p, listFrom);
    if next in p.completed then Advanced(Progress(Some(next), p.completed - {next}), listFrom) else p
  }

  /** Record that a bin has been listed. */
  function Completed(p: Progress, bin: U64, listFrom: U64): Progress {
    if p.watermark.Some? && bin <= p.watermark.value then p
    else Advanced(p.(completed := p.completed + {bin}), listFrom)
  }

  class BinProgress {
    var watermark: Option<U64>
    var completed: set<U64>

    function Value(): Progress
      reads this
    {
      Progress(watermark, completed)
    }

    constructor (p: Progress)
      ensures Value() == p
    {
      watermark, completed := p.watermark, p.completed;
    }

    method Advance(listFrom: U64)
      modifies this
      ensures Value() == Advanced(old(Value()), listFrom)
    {
      var next := if watermark.None? then listFrom else SatAdd(watermark.value, 1);
      while next in completed
        invariant next == Next(Value(), listFrom)
        invariant Advanced(Value(), listFrom) == Advanced(old(Value()), listFrom)
        decreases |completed|
      {
        completed := completed - {next};
        watermark := Some(next);
        next := SatAdd(next, 1);
      }
    }

    method Complete(bin: U64, listFrom: U64)
      modifies this
      ensures Value() == Completed(old(Value()), bin, listFrom)
    {
      if watermark.Some? && bin <= watermark.value {
        return;
      }
      completed := completed + {bin};
      Advance(listFrom);
    }
  }

  // ---------------------------------------------------------------- what the watermark and the set stand for

  /** Advancing changes nothing, except that a first step completes everything below the bin it starts from. */
  lemma {:induction false} AdvanceIs(p: Progress, origin: U64, bin: U64)
    ensures Complete(Advanced(p, origin), bin)
            <==> Complete(p, bin) || (p.watermark.None? && origin in p.completed && bin <= origin)
    decreases |p.completed|
  {
    var next := Next(p, origin);
    if next in p.completed {
      AdvanceIs(Progress(Some(next), p.completed - {next}), origin, bin);
    }
  }

  /** From `listFrom` on, a bin is complete exactly when it was listed. */
  ghost predicate Refines(p: Option<Progress>, listFrom: U64, listed: set<U64>) {
    forall bin: U64 :: listFrom <= bin ==> (BinComplete(p, bin) <==> bin in listed)
  }

  function Or(p: Option<Progress>): Progress { if p.Some? then p.value else NOTHING }

  lemma CompletedIs(p: Option<Progress>, bin: U64, origin: U64, b: U64)
    ensures Complete(Completed(Or(p), bin, origin), b)
            <==> BinComplete(p, b) || b == bin
                 || (Or(p).watermark.None? && (origin == bin || origin in Or(p).completed) && b <= origin)
  {
    var q := Or(p);
    if q.watermark.None? || q.watermark.value < bin {
      AdvanceIs(q.(completed := q.completed + {bin}), origin, b);
    }
  }

  /** Recording a bin, with the row's own origin, adds that bin and no other. */
  lemma RecordRefines(p: Option<Progress>, bin: U64, listFrom: U64, listed: set<U64>)
    requires Refines(p, listFrom, listed)
    ensures Refines(Some(Completed(Or(p), bin, listFrom)), listFrom, listed + {bin})
  {
    forall b: U64 | listFrom <= b
      ensures BinComplete(Some(Completed(Or(p), bin, listFrom)), b) <==> b in listed + {bin}
    {
      CompletedIs(p, bin, listFrom, b);
    }
  }

  /**
    * Recording a bin with the bin itself as origin, which happens when the row's conversation id changed during the
    * same list, is right exactly when a watermark already stood or nothing between the row's origin and the bin is
    * unlisted. Otherwise the unlisted bins below count as complete and are not listed any more.
    */
  lemma RecordAtBinRefinesExactlyWhen(p: Option<Progress>, bin: U64, listFrom: U64, listed: set<U64>)
    requires Refines(p, listFrom, listed)
    ensures Refines(Some(Completed(Or(p), bin, bin)), listFrom, listed + {bin})
            <==> Or(p).watermark.Some? || forall b: U64 :: listFrom <= b < bin ==> b in listed
  {
    var q := Some(Completed(Or(p), bin, bin));
    forall b: U64
      ensures BinComplete(q, b) <==> BinComplete(p, b) || b == bin || (Or(p).watermark.None? && b <= bin)
    {
      CompletedIs(p, bin, bin, b);
    }
  }

  // ---------------------------------------------------------------- runs

  function RecordAll(p: Option<Progress>, bins: seq<U64>, listFrom: U64): Option<Progress> {
    if bins == [] then p
    else
      var n := |bins| - 1;
      Some(Completed(Or(RecordAll(p, bins[..n], listFrom)), bins[n], listFrom))
  }

  /** Whatever bins are listed, in whatever order and however often, the watermark and the set remember exactly those. */
  lemma {:induction false} ProgressIsListedSet(bins: seq<U64>, listFrom: U64)
    ensures Refines(RecordAll(None, bins, listFrom), listFrom, set b | b in bins)
    ensures AtLeast(RecordAll(None, bins, listFrom), listFrom)
  {
    if bins != [] {
      var n := |bins| - 1;
      ProgressIsListedSet(bins[..n], listFrom);
      RecordRefines(RecordAll(None, bins[..n], listFrom), bins[n], listFrom, set b | b in bins[..n]);
      RecordKeepsStart(RecordAll(None, bins[..n], listFrom), bins[n], listFrom);
      assert bins == bins[..n] + [bins[n]];
      assert (set b | b in bins) == (set b | b in bins[..n]) + {bins[n]};
    }
  }

  /** A watermark never stands below the row's origin. */
  predicate AtLeast(p: Option<Progress>, listFrom: U64) {
    p.Some? && p.value.watermark.Some? ==> listFrom <= p.value.watermark.value
  }

  lemma {:induction false} AdvanceKeepsStart(p: Progress, listFrom: U64)
    requires AtLeast(Some(p), listFrom)
    ensures AtLeast(Some(Advanced(p, listFrom)), listFrom)
    decreases |p.completed|
  {
    var next := Next(p, listFrom);
    if next in p.completed {
      AdvanceKeepsStart(Progress(Some(next), p.completed - {next}), listFrom);
    }
  }

  lemma RecordKeepsStart(p: Option<Progress>, bin: U64, listFrom: U64)
    requires AtLeast(p, listFrom)
    ensures AtLeast(Some(Completed(Or(p), bin, listFrom)), listFrom)
  {
    AdvanceKeepsStart(Or(p).(completed := Or(p).completed + {bin}), listFrom);
  }
}
