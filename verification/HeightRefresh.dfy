/**
 * Refreshing the tip height after tip pushes: a trigger channel of capacity 8 fed without
 * blocking, and a fetcher that drains it before each fetch
 * (crates/sv2-p2pool-pool/src/share_chain.rs, `actor_main`).
 */
module HeightRefresh {
  import opened Primitives

  const TRIGGER_CAPACITY: nat := 8

  /** `Ready` has drained the backlog and is about to fetch; `Fetching` waits for the reply. */
  datatype Fetcher = Waiting | Draining | Ready | Fetching(afterPushes: nat)

  /**
   * `fetchedAfter` is how many pushes had happened when the latest fetch started, and
   * `height` the stored height with the same mark for the fetch it came from.
   */
  datatype Refresh = Refresh(
    pushes: nat, triggers: nat, fetcher: Fetcher, fetches: nat, fetchedAfter: Option<nat>,
    height: Option<(u32, nat)>, lastFailed: bool)

  const FRESH: Refresh := Refresh(0, 0, Waiting, 0, None, None, false)

  datatype RefreshEvent =
    | TipPushed
    | TakeTrigger
    | DrainOne
    | DrainedAll
    | StartFetch
    | FetchDone(result: Option<u32>)

  function RefreshStep(r: Refresh, e: RefreshEvent): Refresh {
    match e
    case TipPushed =>
      r.(pushes := r.pushes + 1, triggers := if r.triggers < TRIGGER_CAPACITY then r.triggers + 1 else r.triggers)
    case TakeTrigger =>
      if r.fetcher.Waiting? && r.triggers > 0 then r.(triggers := r.triggers - 1, fetcher := Draining) else r
    case DrainOne => if r.fetcher.Draining? && r.triggers > 0 then r.(triggers := r.triggers - 1) else r
    case DrainedAll => if r.fetcher.Draining? && r.triggers == 0 then r.(fetcher := Ready) else r
    case StartFetch =>
      if r.fetcher.Ready? then
        r.(fetcher := Fetching(r.pushes), fetches := r.fetches + 1, fetchedAfter := Some(r.pushes))
      else r
    case FetchDone(result) =>
      if !r.fetcher.Fetching? then r
      else
        var r' := r.(fetcher := Waiting, lastFailed := result.None?);
        if result.Some? then r'.(height := Some((result.value, r.fetcher.afterPushes))) else r'
  }

  function Refreshed(events: seq<RefreshEvent>): Refresh {
    if events == [] then FRESH else RefreshStep(Refreshed(Init(events)), Last(events))
  }

  /** Nothing has been pushed since the latest fetch started, or a fetch is still to come. */
  predicate NothingLost(r: Refresh) {
    || r.pushes == 0
    || r.triggers > 0
    || r.fetcher.Draining? || r.fetcher.Ready?
    || r.fetchedAfter == Some(r.pushes)
  }

  predicate RefreshInv(r: Refresh) {
    && r.triggers <= TRIGGER_CAPACITY
    && NothingLost(r)
    && (r.fetchedAfter.Some? ==> r.fetchedAfter.value <= r.pushes)
    && (r.fetcher.Fetching? ==> r.fetchedAfter == Some(r.fetcher.afterPushes))
    && (r.fetchedAfter.Some? && !r.fetcher.Fetching? && !r.lastFailed ==>
          r.height.Some? && Some(r.height.value.1) == r.fetchedAfter)
    && r.fetches + r.triggers + (if r.fetcher.Draining? || r.fetcher.Ready? then 1 else 0) <= r.pushes
  }

  lemma {:induction false} EveryRunKeepsRefreshInv(events: seq<RefreshEvent>)
    ensures RefreshInv(Refreshed(events))
  {
    if events != [] { EveryRunKeepsRefreshInv(Init(events)); }
  }

  /**
   * No lost refresh: after any burst of pushes, dropped triggers included, a trigger is
   * pending, or the fetcher has taken one and not fetched yet, or a fetch started after the
   * last push. And there are never more fetches than pushes.
   */
  lemma NoRefreshIsLost(events: seq<RefreshEvent>)
    ensures var r := Refreshed(events);
      && (r.pushes == 0 || r.triggers > 0 || r.fetcher.Draining? || r.fetcher.Ready? || r.fetchedAfter == Some(r.pushes))
      && r.fetches <= r.pushes
  {
    EveryRunKeepsRefreshInv(events);
  }

  predicate Quiet(r: Refresh) {
    r.fetcher.Waiting? && r.triggers == 0
  }

  /** So once the fetcher is idle, the height shown was asked for after the last push, unless that fetch failed. */
  lemma QuietMeansFresh(events: seq<RefreshEvent>)
    requires Quiet(Refreshed(events)) && Refreshed(events).pushes > 0 && !Refreshed(events).lastFailed
    ensures var r := Refreshed(events); r.height.Some? && r.height.value.1 == r.pushes
  {
    EveryRunKeepsRefreshInv(events);
  }

  /**
   * One round of the fetcher: take a trigger, drain the rest, fetch. Taking, draining and
   * starting the fetch happen without a pause, so pushes can only come while the reply is
   * awaited; `pushed` of them do. They are not covered by this fetch, and leave triggers.
   */
  method FetchRound(r: Refresh, pushed: nat, result: Option<u32>) returns (after: Refresh)
    requires RefreshInv(r) && r.fetcher.Waiting?
    ensures r.triggers == 0 ==> after == r
    ensures r.triggers > 0 ==>
      && after.fetcher.Waiting? && after.pushes == r.pushes + pushed
      && after.triggers == (if pushed < 8 then pushed else 8)
      && after.fetches == r.fetches + 1 && after.fetchedAfter == Some(r.pushes)
      && after.height == (if result.Some? then Some((result.value, r.pushes)) else r.height)
    ensures RefreshInv(after)
  {
    after := r;
    if r.triggers == 0 {
      return;
    }
    after := RefreshStep(after, TakeTrigger);
    while after.triggers > 0
      invariant after == r.(triggers := after.triggers, fetcher := Draining)
      invariant after.triggers < r.triggers
      decreases after.triggers
    {
      after := RefreshStep(after, DrainOne);
    }
    after := RefreshStep(after, DrainedAll);
    after := RefreshStep(after, StartFetch);
    ghost var started := after;
    for i := 0 to pushed
      invariant after == started.(
        pushes := r.pushes + i, triggers := if i < TRIGGER_CAPACITY then i else TRIGGER_CAPACITY)
    {
      after := RefreshStep(after, TipPushed);
    }
    after := RefreshStep(after, FetchDone(result));
  }
}
