/**
 * The buffer of block-finder credit (crates/sv2-p2pool-engine/src/recent_solutions.rs), shown
 * to behave as if it were the whole history of what was recorded and taken.
 */
module RecentSolutions {
  import opened Primitives

  datatype Entry = Entry(recordedAt: int, blockHash: Hash)

  type Buffer = map<Hash, Entry>

  predicate Expired(e: Entry, ttl: nat, now: int) {
    now - e.recordedAt > ttl
  }

  class SolutionBuffer {
    var inner: map<Hash, Entry>
    const ttl: nat

    constructor (ttl: nat)
      ensures this.ttl == ttl && inner == map[]
    {
      this.ttl := ttl;
      inner := map[];
    }

    method Record(shareHash: Hash, blockHash: Hash, now: int)
      modifies this
      ensures inner == Apply(old(inner), ttl, Event(Recorded(shareHash, blockHash), now)).0
      ensures inner == old(inner)[shareHash := Entry(now, blockHash)]
    {
      inner := inner[shareHash := Entry(now, blockHash)];
    }

    method Take(shareHash: Hash, now: int) returns (credit: Option<Hash>)
      modifies this
      ensures (inner, credit) == Apply(old(inner), ttl, Event(Taken(shareHash), now))
      ensures inner == old(inner) - {shareHash}
      ensures credit.Some? <==> shareHash in old(inner) && now - old(inner)[shareHash].recordedAt <= ttl
      ensures credit.Some? ==> credit.value == old(inner)[shareHash].blockHash
    {
      if shareHash !in inner {
        assert inner == inner - {shareHash};
        return None;
      }
      var removed := inner[shareHash];
      inner := inner - {shareHash};
      credit := if Expired(removed, ttl, now) then None else Some(removed.blockHash);
    }

    method Sweep(now: int)
      modifies this
      ensures inner == Apply(old(inner), ttl, Event(Swept, now)).0
      ensures forall s :: s in inner <==> s in old(inner) && now - old(inner)[s].recordedAt <= ttl
      ensures forall s :: s in inner ==> inner[s] == old(inner)[s]
    {
      inner := map s | s in inner && !Expired(inner[s], ttl, now) :: inner[s];
    }
  }

  // ------------------------------------------------------------------
  // Traces
  // ------------------------------------------------------------------

  datatype Op = Recorded(share: Hash, blockHash: Hash) | Taken(share: Hash) | Swept

  datatype Event = Event(op: Op, at: int)

  /** One operation: the buffer after it and, for a take, the credit it returns. */
  function Apply(buf: Buffer, ttl: nat, e: Event): (r: (Buffer, Option<Hash>)) {
    match e.op
    case Recorded(s, b) => (buf[s := Entry(e.at, b)], None)
    case Taken(s) =>
      (buf - {s}, if s in buf && !Expired(buf[s], ttl, e.at) then Some(buf[s].blockHash) else None)
    case Swept => (map s | s in buf && !Expired(buf[s], ttl, e.at) :: buf[s], None)
  }

  function Run(ttl: nat, es: seq<Event>): Buffer {
    if es == [] then map[] else Apply(Run(ttl, Init(es)), ttl, Last(es)).0
  }

  /** The credits returned by the takes of a trace, in order. */
  function Credits(ttl: nat, es: seq<Event>): seq<Option<Hash>> {
    if es == [] then []
    else if Last(es).op.Taken? then
      Credits(ttl, Init(es)) + [Apply(Run(ttl, Init(es)), ttl, Last(es)).1]
    else Credits(ttl, Init(es))
  }

  ghost predicate ClockNeverGoesBack(es: seq<Event>) {
    forall i, j :: 0 <= i < j < |es| ==> es[i].at <= es[j].at
  }

  // ------------------------------------------------------------------
  // What a take means, in terms of the history alone
  // ------------------------------------------------------------------

  predicate Touches(e: Event, share: Hash) {
    !e.op.Swept? && e.op.share == share
  }

  /** The latest record or take of `share`. */
  function LatestOn(es: seq<Event>, share: Hash): (r: Option<nat>)
    ensures r.Some? ==> r.value < |es| && Touches(es[r.value], share)
    ensures r.Some? ==> forall k :: r.value < k < |es| ==> !Touches(es[k], share)
    ensures r.None? ==> forall k :: 0 <= k < |es| ==> !Touches(es[k], share)
  {
    if es == [] then None
    else if Touches(Last(es), share) then Some(|es| - 1)
    else LatestOn(Init(es), share)
  }

  function LatestEvent(es: seq<Event>, share: Hash): Option<Event> {
    match LatestOn(es, share)
    case None => None
    case Some(i) => Some(es[i])
  }

  /** The credit history owes a take of `share` at `now`. */
  function Owed(ttl: nat, es: seq<Event>, share: Hash, now: int): Option<Hash> {
    match LatestEvent(es, share)
    case Some(Event(Recorded(_, b), at)) => if now - at <= ttl then Some(b) else None
    case _ => None
  }

  lemma {:induction false} BufferHoldsLatestRecords(ttl: nat, es: seq<Event>, share: Hash)
    requires ClockNeverGoesBack(es)
    ensures var latest := LatestOn(es, share);
      && (share in Run(ttl, es) ==>
            latest.Some? && es[latest.value].op.Recorded?
            && Run(ttl, es)[share] == Entry(es[latest.value].at, es[latest.value].op.blockHash))
      && (share !in Run(ttl, es) && latest.Some? && es[latest.value].op.Recorded? ==>
            Last(es).at - es[latest.value].at > ttl)
  {
    if es != [] {
      BufferHoldsLatestRecords(ttl, Init(es), share);
    }
  }

  /**
   * A take returns `Some(b)` exactly when the latest record-or-take of that share was a record
   * of `b` no older than the time to live; otherwise it returns nothing.
   */
  lemma TakePaysWhatIsOwed(ttl: nat, es: seq<Event>, share: Hash, now: int)
    requires ClockNeverGoesBack(es + [Event(Taken(share), now)])
    ensures Apply(Run(ttl, es), ttl, Event(Taken(share), now)).1 == Owed(ttl, es, share, now)
  {
    var all := es + [Event(Taken(share), now)];
    assert forall i :: 0 <= i < |es| ==> all[i] == es[i];
    assert ClockNeverGoesBack(es);
    assert es != [] ==> all[|es| - 1].at <= all[|es|].at;
    BufferHoldsLatestRecords(ttl, es, share);
  }

  // ------------------------------------------------------------------
  // Sweeping is invisible
  // ------------------------------------------------------------------

  function WithoutSweeps(es: seq<Event>): (r: seq<Event>)
    ensures forall i :: 0 <= i < |r| ==> r[i] in es
  {
    if es == [] then []
    else if Last(es).op.Swept? then WithoutSweeps(Init(es))
    else WithoutSweeps(Init(es)) + [Last(es)]
  }

  lemma {:induction false} SweepFreeClock(es: seq<Event>)
    requires ClockNeverGoesBack(es)
    ensures ClockNeverGoesBack(WithoutSweeps(es))
  {
    if es != [] {
      assert ClockNeverGoesBack(Init(es));
      SweepFreeClock(Init(es));
      var r := WithoutSweeps(Init(es));
      forall i | 0 <= i < |r| ensures r[i].at <= Last(es).at {
        var k :| 0 <= k < |Init(es)| && Init(es)[k] == r[i];
        assert es[k].at <= es[|es| - 1].at;
      }
    }
  }

  lemma LatestEventStep(es: seq<Event>, share: Hash)
    requires es != []
    ensures LatestEvent(es, share) == if Touches(Last(es), share) then Some(Last(es)) else LatestEvent(Init(es), share)
  {
  }

  lemma {:induction false} LatestEventIgnoresSweeps(es: seq<Event>, share: Hash)
    ensures LatestEvent(es, share) == LatestEvent(WithoutSweeps(es), share)
  {
    if es != [] {
      LatestEventStep(es, share);
      LatestEventIgnoresSweeps(Init(es), share);
      if !Last(es).op.Swept? {
        var r := WithoutSweeps(es);
        assert Init(r) == WithoutSweeps(Init(es)) && Last(r) == Last(es);
        LatestEventStep(r, share);
      }
      hide LatestEvent, WithoutSweeps;
    }
  }

  /** Deleting every sweep from a trace changes no credit that any take in it returns. */
  lemma {:induction false} SweepsAreInvisible(ttl: nat, es: seq<Event>)
    requires ClockNeverGoesBack(es)
    ensures Credits(ttl, es) == Credits(ttl, WithoutSweeps(es))
  {
    if es != [] {
      var init, last := Init(es), Last(es);
      SweepsAreInvisible(ttl, init);
      if !last.op.Swept? {
        var r := WithoutSweeps(es);
        assert Init(r) == WithoutSweeps(init) && Last(r) == last;
        if last.op.Taken? {
          SweepFreeClock(es);
          assert init + [last] == es && Init(r) + [last] == r;
          TakePaysWhatIsOwed(ttl, init, last.op.share, last.at);
          TakePaysWhatIsOwed(ttl, Init(r), last.op.share, last.at);
          LatestEventIgnoresSweeps(init, last.op.share);
        }
      }
    }
  }

  // ------------------------------------------------------------------
  // No credit is paid twice
  // ------------------------------------------------------------------

  predicate PaidTake(ttl: nat, es: seq<Event>, j: nat) {
    && j < |es| && es[j].op.Taken?
    && Apply(Run(ttl, es[..j]), ttl, es[j]).1.Some?
  }

  /** The record a successful take is paid from. */
  function PaidFrom(es: seq<Event>, j: nat): Option<nat>
    requires j < |es| && es[j].op.Taken?
  {
    LatestOn(es[..j], es[j].op.share)
  }

  /** Every paid take is paid from an earlier record of its share and block... */
  lemma PaidFromARecord(ttl: nat, es: seq<Event>, j: nat)
    requires ClockNeverGoesBack(es) && PaidTake(ttl, es, j)
    ensures PaidFrom(es, j).Some?
    ensures var i := PaidFrom(es, j).value;
      i < j && es[i].op == Recorded(es[j].op.share, Apply(Run(ttl, es[..j]), ttl, es[j]).1.value)
  {
    assert ClockNeverGoesBack(es[..j] + [Event(Taken(es[j].op.share), es[j].at)]) by {
      assert es[..j] + [es[j]] == es[..j + 1];
    }
    TakePaysWhatIsOwed(ttl, es[..j], es[j].op.share, es[j].at);
  }

  /** ...and no record pays two takes. */
  lemma EachRecordPaysOnce(ttl: nat, es: seq<Event>, j: nat, j': nat)
    requires ClockNeverGoesBack(es) && PaidTake(ttl, es, j) && PaidTake(ttl, es, j') && j < j'
    ensures PaidFrom(es, j).Some? && PaidFrom(es, j').Some?
    ensures PaidFrom(es, j) != PaidFrom(es, j')
  {
    PaidFromARecord(ttl, es, j);
    PaidFromARecord(ttl, es, j');
    if es[j].op.share == es[j'].op.share {
      assert Touches(es[..j'][j], es[j'].op.share);
    }
  }
}
