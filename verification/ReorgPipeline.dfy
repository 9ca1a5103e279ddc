/**
 * From a stored tip to a flushed cache: the tip snapshot, the detector that polls it, the lossy
 * broadcast, and the invalidator that flushes the declared jobs
 * (crates/sv2-p2pool-engine/src/reorg_detector.rs, crates/sv2-p2pool-engine/src/lib.rs,
 * crates/sv2-p2pool-pool/src/share_chain.rs).
 */
module ReorgPipeline {
  import opened Primitives
  import opened Block
  import opened Broadcast
  import opened JobCache

  // ------------------------------------------------------------------
  // The detector
  // ------------------------------------------------------------------

  /** One poll: the tip to remember, and the tip to broadcast, if any. */
  function PollResult(current: Option<Hash>, last: Option<Hash>): (Option<Hash>, Option<Hash>) {
    match (current, last)
    case (None, _) => (last, None)
    case (Some(tip), None) => (Some(tip), None)
    case (Some(tip), Some(prev)) => (Some(tip), if tip == prev then None else Some(tip))
  }

  function Listed(tip: Option<Hash>): seq<Hash> {
    if tip.Some? then [tip.value] else []
  }

  /** The tip remembered, and the tips broadcast, after these polls. */
  function Detect(polls: seq<Option<Hash>>): (Option<Hash>, seq<Hash>) {
    if polls == [] then (None, [])
    else
      var (last, sent) := Detect(Init(polls));
      var (last', out) := PollResult(Last(polls), last);
      (last', sent + Listed(out))
  }

  function Somes(polls: seq<Option<Hash>>): seq<Hash> {
    if polls == [] then [] else Somes(Init(polls)) + Listed(Last(polls))
  }

  /** Consecutive repeats removed. */
  function Dedup(s: seq<Hash>): (d: seq<Hash>)
    ensures s == [] <==> d == []
    ensures s != [] ==> Last(d) == Last(s)
  {
    if s == [] then []
    else
      var d := Dedup(Init(s));
      if d != [] && Last(d) == Last(s) then d else d + [Last(s)]
  }

  predicate NoRepeats(s: seq<Hash>) {
    forall i :: 0 < i < |s| ==> s[i - 1] != s[i]
  }

  lemma {:induction false} DedupHasNoRepeats(s: seq<Hash>)
    ensures NoRepeats(Dedup(s))
    ensures Dedup(s) == s <==> NoRepeats(s)
    ensures |Dedup(s)| <= |s|
  {
    if s != [] {
      DedupHasNoRepeats(Init(s));
      assert s == Init(s) + [Last(s)];
      assert NoRepeats(s) ==> NoRepeats(Init(s));
    }
  }

  lemma DedupOneMore(polls: seq<Option<Hash>>, tip: Hash)
    ensures var d := Dedup(Somes(polls));
      Dedup(Somes(polls + [Some(tip)])) == if d != [] && Last(d) == tip then d else d + [tip]
  {
    assert Init(polls + [Some(tip)]) == polls;
    assert Init(Somes(polls) + [tip]) == Somes(polls);
  }

  lemma NothingPolled(polls: seq<Option<Hash>>)
    ensures Somes(polls + [None]) == Somes(polls)
  {
    assert Init(polls + [None]) == polls;
  }

  lemma DetectOneMore(polls: seq<Option<Hash>>, current: Option<Hash>)
    ensures var (last, sent) := Detect(polls);
      var (last', out) := PollResult(current, last);
      Detect(polls + [current]) == (last', sent + Listed(out))
  {
    assert Init(polls + [current]) == polls;
  }

  /** The detector's memory and broadcasts, told by the deduplicated sightings. */
  predicate FollowsSightings(d: seq<Hash>, last: Option<Hash>, sent: seq<Hash>) {
    && last == (if d == [] then None else Some(Last(d)))
    && sent == (if d == [] then [] else d[1..])
  }

  lemma FollowsOneMore(d: seq<Hash>, last: Option<Hash>, sent: seq<Hash>, tip: Hash)
    requires FollowsSightings(d, last, sent)
    ensures var (last', out) := PollResult(Some(tip), last);
      FollowsSightings(if d != [] && Last(d) == tip then d else d + [tip], last', sent + Listed(out))
  {
  }

  /** What a run of polls amounts to: the first sighting, then the events, are the deduplicated tips. */
  lemma {:induction false} FirstSightingThenEvents(polls: seq<Option<Hash>>)
    ensures var d, r := Dedup(Somes(polls)), Detect(polls);
      && r.0 == (if d == [] then None else Some(Last(d)))
      && r.1 == (if d == [] then [] else d[1..])
  {
    if polls != [] {
      var before, current := Init(polls), Last(polls);
      FirstSightingThenEvents(before);
      assert before + [current] == polls;
      DetectOneMore(before, current);
      hide Dedup, Somes, Detect;
      if current.Some? {
        DedupOneMore(before, current.value);
        FollowsOneMore(Dedup(Somes(before)), Detect(before).0, Detect(before).1, current.value);
      } else {
        NothingPolled(before);
        assert Detect(before).1 + [] == Detect(before).1;
      }
    }
  }

  class ReorgDetector {
    const sender: TipBroadcast

    constructor ()
      ensures fresh(sender) && fresh(sender.buffer) && sender.Valid() && sender.sent == []
    {
      sender := new TipBroadcast();
    }

    method PollOnce(current: Option<Hash>, last: Option<Hash>) returns (last': Option<Hash>)
      requires sender.Valid()
      modifies sender, sender.buffer
      ensures sender.Valid()
      ensures last' == PollResult(current, last).0
      ensures sender.sent == old(sender.sent) + Listed(PollResult(current, last).1)
    {
      match (current, last) {
        case (None, _) =>
          return last;
        case (Some(tip), None) =>
          return Some(tip);
        case (Some(tip), Some(prev)) =>
          if tip == prev {
            return Some(prev);
          }
          sender.Send(tip);
          return Some(tip);
      }
    }

    /** `run`, for as many ticks as there are polls. */
    method Run(polls: seq<Option<Hash>>) returns (lastTip: Option<Hash>)
      requires sender.Valid() && sender.sent == []
      modifies sender, sender.buffer
      ensures sender.Valid() && (lastTip, sender.sent) == Detect(polls)
      ensures Listed(if Somes(polls) == [] then None else Some(Somes(polls)[0])) + sender.sent == Dedup(Somes(polls))
    {
      lastTip := None;
      for i := 0 to |polls|
        invariant sender.Valid() && (lastTip, sender.sent) == Detect(polls[..i])
      {
        assert Init(polls[..i + 1]) == polls[..i];
        lastTip := PollOnce(polls[i], lastTip);
      }
      assert polls[..|polls|] == polls;
      FirstSightingThenEvents(polls);
      FirstIsKept(Somes(polls));
    }
  }

  lemma {:induction false} FirstIsKept(s: seq<Hash>)
    ensures s != [] ==> Dedup(s)[0] == s[0]
  {
    if s != [] { FirstIsKept(Init(s)); }
  }

  // ------------------------------------------------------------------
  // The invalidator
  // ------------------------------------------------------------------

  class ReorgInvalidator {
    const rx: TipBroadcast
    const cache: DeclaredJobCache
    var next: nat
    var reorgNotifications: nat
    var jobsInvalidated: nat

    ghost predicate Valid()
      reads this, rx, rx.buffer
    {
      rx.Valid() && next <= rx.pos
    }

    constructor (rx: TipBroadcast, cache: DeclaredJobCache)
      requires rx.Valid()
      ensures Valid() && this.rx == rx && this.cache == cache && next == rx.pos
      ensures reorgNotifications == 0 && jobsInvalidated == 0
    {
      this.rx, this.cache, next := rx, cache, rx.pos;
      reorgNotifications, jobsInvalidated := 0, 0;
    }

    /**
     * The loop up to the point where it would wait: it catches up in `Rounds` flushes however
     * far behind it was, and if it was behind at all nothing stays cached.
     */
    method DrainPending()
      requires Valid()
      modifies this, cache
      ensures Valid() && next == rx.pos
      ensures old(next) == rx.pos ==> cache.inner == old(cache.inner)
      ensures old(next) < rx.pos ==> cache.inner == map[]
      ensures reorgNotifications == old(reorgNotifications) + Rounds(rx.pos - old(next))
      ensures jobsInvalidated + |cache.inner| == old(jobsInvalidated) + |old(cache.inner)|
    {
      while true
        invariant Valid() && old(next) <= next
        invariant cache.inner == if next == old(next) then old(cache.inner) else map[]
        invariant reorgNotifications + Rounds(rx.pos - next) == old(reorgNotifications) + Rounds(rx.pos - old(next))
        invariant jobsInvalidated + |cache.inner| == old(jobsInvalidated) + |old(cache.inner)|
        decreases rx.pos - next
      {
        var received, next' := rx.Recv(next);
        if received.Empty? {
          break;
        }
        ReceiveShortensBacklog(rx.sent, next);
        next := next';
        var dropped := cache.InvalidateAll();
        reorgNotifications := reorgNotifications + 1;
        jobsInvalidated := jobsInvalidated + dropped;
      }
    }
  }

  // ------------------------------------------------------------------
  // All of it interleaved
  // ------------------------------------------------------------------

  /** A cached job, with how many tips had been broadcast when it was inserted. */
  datatype Cached = Cached(job: DeclaredJob, birth: nat)

  datatype World = World(
    stored: seq<Hash>,
    snapshot: Option<Hash>,
    polls: seq<Option<Hash>>,
    lastTip: Option<Hash>,
    sent: seq<Hash>,
    next: nat,
    flushDue: bool,
    flushes: nat,
    cache: map<u32, Cached>)

  /** `Take` is the invalidator's receive, `Flush` the invalidation that follows it. */
  datatype Action =
    | StoreTip(tip: Hash)
    | Poll
    | Insert(requestId: u32, job: DeclaredJob)
    | Drop(requestIds: set<u32>)
    | Take
    | Flush

  /** The watcher may start on a cache that already holds jobs. */
  function Start(cache: map<u32, DeclaredJob>): World {
    World([], None, [], None, [], 0, false, 0, map r | r in cache :: Cached(cache[r], 0))
  }

  function Act(w: World, a: Action): World
    requires w.next <= |w.sent|
  {
    match a
    case StoreTip(tip) => w.(stored := w.stored + [tip], snapshot := Some(tip))
    case Poll =>
      var (last', out) := PollResult(w.snapshot, w.lastTip);
      w.(polls := w.polls + [w.snapshot], lastTip := last', sent := w.sent + Listed(out))
    case Insert(r, job) => w.(cache := w.cache[r := Cached(job, |w.sent|)])
    case Drop(rs) => w.(cache := w.cache - rs)
    case Take =>
      if w.flushDue then w
      else
        var (received, next') := Receive(w.sent, w.next);
        if received.Empty? then w else w.(next := next', flushDue := true)
    case Flush => if w.flushDue then w.(cache := map[], flushDue := false, flushes := w.flushes + 1) else w
  }

  function Acts(cache: map<u32, DeclaredJob>, actions: seq<Action>): (w: World)
    ensures w.next <= |w.sent|
  {
    if actions == [] then Start(cache) else Act(Acts(cache, Init(actions)), Last(actions))
  }

  ghost predicate PipelineInv(w: World) {
    && w.next <= |w.sent|
    && (w.lastTip, w.sent) == Detect(w.polls)
    && w.snapshot == (if w.stored == [] then None else Some(Last(w.stored)))
    && w.flushes + (if w.flushDue then 1 else 0) <= w.next
    && (!w.flushDue ==> forall r :: r in w.cache ==> w.cache[r].birth >= w.next)
    && (forall r :: r in w.cache ==> w.cache[r].birth <= |w.sent|)
    && SightingsSampled(Dedup(Somes(w.polls)), Dedup(w.stored))
  }

  ghost predicate Subsequence(a: seq<Hash>, b: seq<Hash>) {
    || a == []
    || (b != [] && Last(a) == Last(b) && Subsequence(Init(a), Init(b)))
    || (b != [] && Subsequence(a, Init(b)))
  }

  /** A subsequence occurs in order: at increasing positions. */
  lemma {:induction false} SubsequencePicks(a: seq<Hash>, b: seq<Hash>) returns (at: seq<nat>)
    requires Subsequence(a, b)
    ensures |at| == |a|
    ensures forall i :: 0 <= i < |a| ==> at[i] < |b| && b[at[i]] == a[i]
    ensures forall i :: 0 < i < |a| ==> at[i - 1] < at[i]
    decreases b
  {
    if a == [] {
      at := [];
    } else if Last(a) == Last(b) && Subsequence(Init(a), Init(b)) {
      at := SubsequencePicks(Init(a), Init(b));
      at := at + [|b| - 1];
    } else {
      at := SubsequencePicks(a, Init(b));
    }
  }

  /** The sightings so far, and whether the latest stored tip is among them yet. */
  ghost predicate SightingsSampled(seen: seq<Hash>, stored: seq<Hash>) {
    || seen == []
    || (stored != [] && Last(seen) == Last(stored) && Subsequence(seen, stored))
    || (stored != [] && Subsequence(seen, Init(stored)))
  }

  lemma SampledAfterStore(seen: seq<Hash>, stored: seq<Hash>, tip: Hash)
    requires SightingsSampled(seen, Dedup(stored))
    ensures SightingsSampled(seen, Dedup(stored + [tip]))
  {
    assert Init(stored + [tip]) == stored;
    var d := Dedup(stored);
    assert Init(d + [tip]) == d;
    hide Dedup;
    if seen != [] { assert Subsequence(seen, d); }
  }

  lemma SampledAfterSighting(seen: seq<Hash>, d: seq<Hash>)
    requires SightingsSampled(seen, d) && d != [] && (seen == [] || Last(seen) != Last(d))
    ensures SightingsSampled(seen + [Last(d)], d)
  {
    assert Init(seen + [Last(d)]) == seen;
    assert Subsequence(seen, Init(d));
    assert Subsequence(seen + [Last(d)], d);
  }

  lemma SampledAfterPoll(polls: seq<Option<Hash>>, stored: seq<Hash>, current: Option<Hash>)
    requires current == if stored == [] then None else Some(Last(stored))
    requires SightingsSampled(Dedup(Somes(polls)), Dedup(stored))
    ensures SightingsSampled(Dedup(Somes(polls + [current])), Dedup(stored))
  {
    if current.Some? {
      DedupOneMore(polls, current.value);
      hide Somes, Dedup, SightingsSampled;
      var seen, d := Dedup(Somes(polls)), Dedup(stored);
      if seen == [] || Last(seen) != Last(d) { SampledAfterSighting(seen, d); }
    } else {
      assert Init(polls + [current]) == polls;
      assert Somes(polls + [current]) == Somes(polls);
    }
  }

  lemma ActKeepsInv(w: World, a: Action)
    requires PipelineInv(w)
    ensures PipelineInv(Act(w, a))
  {
    hide Dedup, Somes, Detect, SightingsSampled, PollResult;
    match a
    case StoreTip(tip) => SampledAfterStore(Dedup(Somes(w.polls)), w.stored, tip);
    case Poll =>
      DetectOneMore(w.polls, w.snapshot);
      SampledAfterPoll(w.polls, w.stored, w.snapshot);
    case _ =>
  }

  lemma {:induction false} EveryWorldKeepsInv(cache: map<u32, DeclaredJob>, actions: seq<Action>)
    ensures PipelineInv(Acts(cache, actions))
  {
    if actions != [] {
      EveryWorldKeepsInv(cache, Init(actions));
      ActKeepsInv(Acts(cache, Init(actions)), Last(actions));
    }
  }

  predicate CaughtUp(w: World) {
    w.next == |w.sent| && !w.flushDue
  }

  /**
   * Safety of the lossy pipeline: under any interleaving, lag included, once the invalidator
   * has caught up no job inserted before the latest broadcast tip change is still cached; and
   * it never flushed more often than tips were broadcast.
   */
  lemma NoStaleJobOnceCaughtUp(cache: map<u32, DeclaredJob>, actions: seq<Action>)
    ensures var w := Acts(cache, actions);
      && w.flushes <= |w.sent|
      && (CaughtUp(w) ==> forall r :: r in w.cache ==> w.cache[r].birth == |w.sent|)
  {
    EveryWorldKeepsInv(cache, actions);
  }

  /** First sighting followed by broadcasts = the non-empty polls without consecutive repeats. */
  lemma BroadcastsAreSightings(cache: map<u32, DeclaredJob>, actions: seq<Action>)
    ensures var w := Acts(cache, actions); var d := Dedup(Somes(w.polls));
      && w.sent == (if d == [] then [] else d[1..])
      && w.lastTip == (if d == [] then None else Some(Last(d)))
  {
    EveryWorldKeepsInv(cache, actions);
    FirstSightingThenEvents(Acts(cache, actions).polls);
  }

  /** And those are some of the stored tips, in the order they were stored. */
  lemma SightingsAreStoredTips(cache: map<u32, DeclaredJob>, actions: seq<Action>)
    ensures Subsequence(Dedup(Somes(Acts(cache, actions).polls)), Dedup(Acts(cache, actions).stored))
  {
    EveryWorldKeepsInv(cache, actions);
    hide Dedup, Somes, Acts;
  }

  // ------------------------------------------------------------------
  // Exactly when sampling misses nothing
  // ------------------------------------------------------------------

  /** This action stores a new tip over one that no poll has seen. */
  predicate Skips(w: World, a: Action) {
    && a.StoreTip? && w.snapshot.Some?
    && w.snapshot.value != a.tip && w.lastTip != w.snapshot
  }

  predicate SkipAt(cache: map<u32, DeclaredJob>, actions: seq<Action>, i: nat) {
    i < |actions| && Skips(Acts(cache, actions[..i]), actions[i])
  }

  lemma SkippedSoFar(cache: map<u32, DeclaredJob>, actions: seq<Action>)
    requires actions != []
    ensures (exists i :: SkipAt(cache, actions, i))
      <==> (exists i :: SkipAt(cache, Init(actions), i)) || Skips(Acts(cache, Init(actions)), Last(actions))
  {
    var before := Init(actions);
    hide Acts, Skips;
    forall i: nat | i < |before| ensures SkipAt(cache, actions, i) <==> SkipAt(cache, before, i) {
      assert actions[..i] == before[..i];
    }
    assert actions[..|before|] == before;
    assert SkipAt(cache, actions, |before|) <==> Skips(Acts(cache, before), Last(actions));
    if i: nat :| SkipAt(cache, before, i) {
      assert SkipAt(cache, actions, i);
    }
  }

  lemma DedupGrows(s: seq<Hash>, tip: Hash)
    ensures |Dedup(s + [tip])| == |Dedup(s)| + if s != [] && Last(s) == tip then 0 else 1
  {
    assert Init(s + [tip]) == s;
  }

  /** How many deduplicated stored tips have not been sighted. */
  function Unsighted(w: World): int {
    |Dedup(w.stored)| - |Dedup(Somes(w.polls))|
  }

  /** What one action does to that number. */
  lemma UnsightedAfter(w: World, a: Action)
    requires PipelineInv(w)
    ensures Unsighted(Act(w, a)) - Unsighted(w) ==
      if a.StoreTip? then (if w.snapshot == Some(a.tip) then 0 else 1)
      else if a.Poll? then (if w.snapshot.None? || w.lastTip == w.snapshot then 0 else -1)
      else 0
  {
    FirstSightingThenEvents(w.polls);
    hide Dedup, Somes, Detect, SightingsSampled, Receive;
    match a
    case StoreTip(tip) => DedupGrows(w.stored, tip);
    case Poll =>
      if w.snapshot.Some? {
        DedupOneMore(w.polls, w.snapshot.value);
      } else {
        NothingPolled(w.polls);
      }
    case _ =>
  }

  /** Only a stored tip can have been seen. */
  lemma SnapshotSeen(w: World)
    requires PipelineInv(w)
    ensures w.snapshot.None? ==> w.lastTip.None?
  {
    FirstSightingThenEvents(w.polls);
    hide Dedup, Somes, Detect;
  }

  /** One tip is unsighted while the latest is unseen; a skip adds at least one for good. */
  predicate Behind(w: World, skipped: bool) {
    var unseen := if w.lastTip == w.snapshot then 0 else 1;
    if skipped then Unsighted(w) > unseen else Unsighted(w) == unseen
  }

  lemma BehindAfter(w: World, a: Action, skipped: bool)
    requires PipelineInv(w) && Behind(w, skipped)
    ensures Behind(Act(w, a), skipped || Skips(w, a))
  {
    UnsightedAfter(w, a);
    SnapshotSeen(w);
    hide Unsighted, PipelineInv, Receive;
  }

  lemma {:induction false} UnsightedBounds(cache: map<u32, DeclaredJob>, actions: seq<Action>)
    ensures Behind(Acts(cache, actions), exists i :: SkipAt(cache, actions, i))
  {
    if actions != [] {
      var w, a := Acts(cache, Init(actions)), Last(actions);
      UnsightedBounds(cache, Init(actions));
      EveryWorldKeepsInv(cache, Init(actions));
      SkippedSoFar(cache, actions);
      BehindAfter(w, a, exists i :: SkipAt(cache, Init(actions), i));
      hide Behind, SkipAt, PipelineInv, Skips, Act;
    }
  }

  lemma {:induction false} SubsequenceIsShorter(a: seq<Hash>, b: seq<Hash>)
    requires Subsequence(a, b)
    ensures |a| <= |b| && (|a| == |b| ==> a == b)
    decreases b
  {
    if a != [] {
      assert a == Init(a) + [Last(a)] && b == Init(b) + [Last(b)];
      if Last(a) == Last(b) && Subsequence(Init(a), Init(b)) {
        SubsequenceIsShorter(Init(a), Init(b));
      } else {
        SubsequenceIsShorter(a, Init(b));
      }
    }
  }

  /**
   * In every run: the sightings are all the stored tips, repeats removed, if and only if no
   * unseen tip was ever overwritten by another and the latest one has been seen.
   */
  lemma EveryTipSightedIff(cache: map<u32, DeclaredJob>, actions: seq<Action>)
    ensures var w := Acts(cache, actions);
      Dedup(Somes(w.polls)) == Dedup(w.stored)
      <==> w.lastTip == w.snapshot && !exists i :: SkipAt(cache, actions, i)
  {
    SightingsAreStoredTips(cache, actions);
    UnsightedBounds(cache, actions);
    hide Acts, Dedup, Somes, SkipAt;
    var w := Acts(cache, actions);
    SubsequenceIsShorter(Dedup(Somes(w.polls)), Dedup(w.stored));
  }

  /** Invalidator turns: receive, then flush. */
  function Turns(w: World, n: nat): (r: World)
    requires w.next <= |w.sent|
    ensures r.next <= |r.sent| && r.sent == w.sent
  {
    if n == 0 then w else Act(Act(Turns(w, n - 1), Take), Flush)
  }

  lemma {:induction false} TurnsShortenBacklog(w: World, n: nat)
    requires w.next <= |w.sent| && !w.flushDue && n <= Rounds(|w.sent| - w.next)
    ensures var r := Turns(w, n);
      !r.flushDue && Rounds(|r.sent| - r.next) == Rounds(|w.sent| - w.next) - n && r.flushes == w.flushes + n
  {
    hide Act, Rounds;
    if n > 0 {
      TurnsShortenBacklog(w, n - 1);
      OneTurnShortensBacklog(Turns(w, n - 1));
    }
  }

  lemma OneTurnShortensBacklog(w: World)
    requires w.next < |w.sent| && !w.flushDue
    ensures var r := Act(Act(w, Take), Flush);
      !r.flushDue && r.sent == w.sent && r.flushes == w.flushes + 1
      && Rounds(|r.sent| - r.next) == Rounds(|w.sent| - w.next) - 1
  {
    ReceiveShortensBacklog(w.sent, w.next);
    hide Rounds;
  }

  /** Left to itself the invalidator catches up within 257 turns, however far it lagged. */
  lemma CatchesUpWithinOneLap(w: World)
    requires w.next <= |w.sent| && !w.flushDue
    ensures CaughtUp(Turns(w, Rounds(|w.sent| - w.next)))
    ensures Rounds(|w.sent| - w.next) <= 257
  {
    hide Turns;
    TurnsShortenBacklog(w, Rounds(|w.sent| - w.next));
  }

  lemma OneMoreAction(cache: map<u32, DeclaredJob>, actions: seq<Action>, a: Action)
    ensures Acts(cache, actions + [a]) == Act(Acts(cache, actions), a)
  {
    assert Init(actions + [a]) == actions;
  }

  /** Tip `a`, then `b` with a job declared under it, then `a` again, all between two polls. */
  function ComeAndGo(job: DeclaredJob, a: Hash, b: Hash): seq<Action> {
    [StoreTip(a)] + [Poll] + [StoreTip(b)] + [Insert(0, job)] + [StoreTip(a)]
  }

  lemma ComeAndGoState(job: DeclaredJob, a: Hash, b: Hash)
    ensures Acts(map[], ComeAndGo(job, a, b))
      == World([a, b, a], Some(a), [Some(a)], Some(a), [], 0, false, 0, map[0 := Cached(job, 0)])
  {
    var w0 := Start(map[]);
    var w1 := Act(w0, StoreTip(a));
    var w2 := Act(w1, Poll);
    var w3 := Act(w2, StoreTip(b));
    var w4 := Act(w3, Insert(0, job));
    var w5 := Act(w4, StoreTip(a));
    assert w0 == World([], None, [], None, [], 0, false, 0, map[]);
    assert w2.lastTip == Some(a) && w2.sent == [];
    assert Acts(map[], []) == w0 && [] + [StoreTip(a)] == [StoreTip(a)];
    hide Act, Acts;
    OneMoreAction(map[], [], StoreTip(a));
    OneMoreAction(map[], [StoreTip(a)], Poll);
    OneMoreAction(map[], [StoreTip(a)] + [Poll], StoreTip(b));
    OneMoreAction(map[], [StoreTip(a)] + [Poll] + [StoreTip(b)], Insert(0, job));
    OneMoreAction(map[], [StoreTip(a)] + [Poll] + [StoreTip(b)] + [Insert(0, job)], StoreTip(a));
  }

  /**
   * What sampling cannot give: a tip that comes and goes between two polls is never broadcast,
   * so a job declared under it stays cached although everything has caught up.
   */
  lemma TipBetweenPollsIsMissed(job: DeclaredJob, a: Hash, b: Hash)
    requires a != b
    ensures var w := Acts(map[], ComeAndGo(job, a, b) + [Poll] + [Take] + [Flush]);
      && CaughtUp(w) && w.lastTip == w.snapshot
      && 0 in w.cache && w.stored == [a, b, a] && w.sent == []
  {
    ComeAndGoState(job, a, b);
    var before := ComeAndGo(job, a, b);
    hide Acts, ComeAndGo;
    OneMoreAction(map[], before, Poll);
    OneMoreAction(map[], before + [Poll], Take);
    OneMoreAction(map[], before + [Poll] + [Take], Flush);
  }
}
