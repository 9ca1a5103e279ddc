/**
 * Requests for transaction bodies over the template bridge, with every interleaving of
 * registering, sending, delivering, timing out and cleaning up
 * (crates/sv2-p2pool-engine/src/tdp.rs).
 */
module TdpModel {
  import opened Primitives

  datatype Reply =
    | TxSuccess(templateId: u64, transactionList: seq<Bytes>)
    | TxError(templateId: u64, errorCode: Bytes)

  /** How a request ended, before its reply is decoded. */
  datatype Ending = Duplicate | SendFailed | DemuxClosed | TimedOut | Got(reply: Reply)

  /**
   * Where one `request_tx_bodies` call stands. A poll of the timed wait looks at the one-shot
   * and then, in `Checked`, at the timer. `SendFailing`, `SenderGone` and `TimingOut` have
   * decided to fail but have not yet removed their map entry.
   */
  datatype Phase =
    | Sending
    | Awaiting
    | Checked
    | SendFailing
    | SenderGone
    | TimingOut
    | Returned(ending: Ending)

  /** `since` counts the replies that had been delivered when the call registered. */
  datatype Call = Call(id: u64, since: nat, phase: Phase)

  /** A reply, with its position among all delivered replies. */
  datatype Delivery = Delivery(at: nat, reply: Reply)

  /**
   * `pending` maps a template id to the call whose one-shot sender it holds. `inHand` are
   * senders a delivery has taken out of the map and not yet used; `oneshot` are the values
   * that reached their receiver. `evictor` records whose cleanup dropped a call's sender.
   */
  datatype TdpState = TdpState(
    calls: seq<Call>,
    pending: map<u64, nat>,
    inHand: map<nat, Delivery>,
    oneshot: map<nat, Delivery>,
    delivered: seq<Reply>,
    requested: seq<u64>,
    evictor: map<nat, nat>)

  const IDLE: TdpState := TdpState([], map[], map[], map[], [], [], map[])

  datatype Step =
    | Begin(id: u64)
    | FinishSend(call: nat, sent: bool)
    | PollReceiver(call: nat)
    | PollTimer(call: nat, expired: bool)
    | CleanUp(call: nat)
    | TakeWaiter(reply: Reply)
    | HandOver(call: nat)

  predicate InPhase(s: TdpState, c: nat, p: Phase) {
    c < |s.calls| && s.calls[c].phase == p
  }

  predicate HasEntry(s: TdpState, c: nat) {
    c < |s.calls| && s.calls[c].id in s.pending && s.pending[s.calls[c].id] == c
  }

  /** The call's one-shot can still receive a value. */
  predicate SenderAlive(s: TdpState, c: nat) {
    HasEntry(s, c) || c in s.inHand
  }

  /** The receiving half is dropped as soon as the wait ends. */
  predicate ReceiverAlive(s: TdpState, c: nat) {
    InPhase(s, c, Sending) || InPhase(s, c, Awaiting) || InPhase(s, c, Checked) || InPhase(s, c, SendFailing)
  }

  function WithPhase(s: TdpState, c: nat, p: Phase): TdpState
    requires c < |s.calls|
  {
    s.(calls := s.calls[c := s.calls[c].(phase := p)])
  }

  function BeginStep(s: TdpState, id: u64): TdpState {
    if id in s.pending then
      s.(calls := s.calls + [Call(id, |s.delivered|, Returned(Duplicate))])
    else
      s.(calls := s.calls + [Call(id, |s.delivered|, Sending)], pending := s.pending[id := |s.calls|])
  }

  function FinishSendStep(s: TdpState, c: nat, sent: bool): TdpState {
    if !InPhase(s, c, Sending) then s
    else if sent then WithPhase(s, c, Awaiting).(requested := s.requested + [s.calls[c].id])
    else WithPhase(s, c, SendFailing)
  }

  /** The one-shot is polled: the call takes its value, learns that none can come, or looks at the timer next. */
  function PollReceiverStep(s: TdpState, c: nat): TdpState {
    if !InPhase(s, c, Awaiting) then s
    else if c in s.oneshot then WithPhase(s, c, Returned(Got(s.oneshot[c].reply)))
    else if SenderAlive(s, c) then WithPhase(s, c, Checked)
    else WithPhase(s, c, SenderGone)
  }

  /** A value that arrived since the one-shot was looked at does not stop the timer. */
  function PollTimerStep(s: TdpState, c: nat, expired: bool): TdpState {
    if !InPhase(s, c, Checked) then s
    else WithPhase(s, c, if expired then TimingOut else Awaiting)
  }

  function EndingOf(p: Phase): Option<Ending> {
    match p
    case SendFailing => Some(SendFailed)
    case SenderGone => Some(DemuxClosed)
    case TimingOut => Some(TimedOut)
    case _ => None
  }

  /** Cleanup removes whatever entry the template id has now, whoever registered it. */
  function CleanUpStep(s: TdpState, c: nat): TdpState {
    if c >= |s.calls| || EndingOf(s.calls[c].phase).None? then s
    else
      var id := s.calls[c].id;
      var s' := WithPhase(s, c, Returned(EndingOf(s.calls[c].phase).value)).(pending := s.pending - {id});
      if id in s.pending && s.pending[id] != c then s'.(evictor := s.evictor[s.pending[id] := c]) else s'
  }

  function TakeWaiterStep(s: TdpState, reply: Reply): TdpState {
    var s' := s.(delivered := s.delivered + [reply]);
    if reply.templateId !in s.pending then s'
    else
      s'.(pending := s.pending - {reply.templateId},
          inHand := s.inHand[s.pending[reply.templateId] := Delivery(|s.delivered|, reply)])
  }

  function HandOverStep(s: TdpState, c: nat): TdpState {
    if c !in s.inHand then s
    else
      var s' := s.(inHand := s.inHand - {c});
      if ReceiverAlive(s, c) then s'.(oneshot := s.oneshot[c := s.inHand[c]]) else s'
  }

  function Next(s: TdpState, step: Step): TdpState {
    match step
    case Begin(id) => BeginStep(s, id)
    case FinishSend(c, sent) => FinishSendStep(s, c, sent)
    case PollReceiver(c) => PollReceiverStep(s, c)
    case PollTimer(c, expired) => PollTimerStep(s, c, expired)
    case CleanUp(c) => CleanUpStep(s, c)
    case TakeWaiter(reply) => TakeWaiterStep(s, reply)
    case HandOver(c) => HandOverStep(s, c)
  }

  function After(steps: seq<Step>): TdpState {
    if steps == [] then IDLE else Next(After(Init(steps)), Last(steps))
  }

  // ------------------------------------------------------------------
  // Invariants
  // ------------------------------------------------------------------

  /** Every index the maps mention is a call's, and an entry is filed under its call's id. */
  ghost predicate Named(s: TdpState) {
    && (forall id :: id in s.pending ==> s.pending[id] < |s.calls| && s.calls[s.pending[id]].id == id)
    && (forall c :: c in s.inHand || c in s.oneshot || c in s.evictor ==> c < |s.calls|)
  }

  predicate OwnReply(s: TdpState, c: nat, d: Delivery)
    requires c < |s.calls|
  {
    && s.calls[c].since <= d.at < |s.delivered|
    && s.delivered[d.at] == d.reply
    && d.reply.templateId == s.calls[c].id
  }

  /**
   * A call's sender is in one place at most. If it is still in the map the call has not
   * returned; what it carried or delivered is a reply with the call's id, delivered after the
   * call registered.
   */
  predicate SenderExplained(s: TdpState, c: nat)
    requires c < |s.calls|
  {
    && s.calls[c].since <= |s.delivered|
    && (HasEntry(s, c) ==> !s.calls[c].phase.Returned? && c !in s.inHand && c !in s.oneshot && c !in s.evictor)
    && (c in s.inHand ==> OwnReply(s, c, s.inHand[c]) && c !in s.oneshot && c !in s.evictor)
    && (c in s.oneshot ==> OwnReply(s, c, s.oneshot[c]) && c !in s.evictor)
  }

  /** The sender of a call that still listens has not just vanished. */
  predicate Located(s: TdpState, c: nat) {
    SenderAlive(s, c) || c in s.oneshot || c in s.evictor
  }

  predicate PhaseExplained(s: TdpState, c: nat)
    requires c < |s.calls|
  {
    match s.calls[c].phase
    case Sending => Located(s, c)
    case Awaiting => Located(s, c)
    case Checked => Located(s, c)
    case SendFailing => true
    case SenderGone => c in s.evictor
    case TimingOut => true
    case Returned(DemuxClosed) => c in s.evictor
    case Returned(Got(reply)) => c in s.oneshot && s.oneshot[c].reply == reply
    case Returned(_) => true
  }

  /** An evicted call lost its entry to the cleanup of another, failed call with its id. */
  predicate EvictionExplained(s: TdpState, c: nat)
    requires c < |s.calls|
  {
    c in s.evictor ==>
      var culprit := s.evictor[c];
      && s.calls[c].phase != Returned(Duplicate)
      && culprit < |s.calls| && culprit != c
      && s.calls[culprit].id == s.calls[c].id
      && s.calls[culprit].phase in {Returned(TimedOut), Returned(SendFailed), Returned(DemuxClosed)}
  }

  predicate CallExplained(s: TdpState, c: nat)
    requires c < |s.calls|
  {
    SenderExplained(s, c) && PhaseExplained(s, c) && EvictionExplained(s, c)
  }

  /** No delivered reply is on its way to, or arrived at, two calls. */
  ghost predicate RepliesNotShared(s: TdpState) {
    && (forall c, d :: c in s.inHand && d in s.inHand && s.inHand[c].at == s.inHand[d].at ==> c == d)
    && (forall c, d :: c in s.oneshot && d in s.oneshot && s.oneshot[c].at == s.oneshot[d].at ==> c == d)
    && (forall c, d :: c in s.inHand && d in s.oneshot ==> s.inHand[c].at != s.oneshot[d].at)
    && (forall c :: c in s.inHand ==> s.inHand[c].at < |s.delivered|)
    && (forall c :: c in s.oneshot ==> s.oneshot[c].at < |s.delivered|)
  }

  ghost predicate TdpInv(s: TdpState) {
    && Named(s)
    && (forall c :: 0 <= c < |s.calls| ==> CallExplained(s, c))
    && RepliesNotShared(s)
  }

  // What each step does to one call `d`, which may or may not be the call that takes the step.

  lemma BeginExplains(s: TdpState, id: u64, d: nat)
    requires Named(s) && d <= |s.calls| && (d < |s.calls| ==> CallExplained(s, d))
    ensures CallExplained(BeginStep(s, id), d)
  {
    if d < |s.calls| {
      assert HasEntry(BeginStep(s, id), d) <==> HasEntry(s, d);
    }
  }

  lemma PhaseChangeExplains(s: TdpState, c: nat, p: Phase, d: nat)
    requires c < |s.calls| && d < |s.calls| && CallExplained(s, c) && CallExplained(s, d)
    requires !s.calls[c].phase.Returned? && p != Returned(Duplicate) && (p.Returned? ==> !HasEntry(s, c))
    requires PhaseExplained(WithPhase(s, c, p), c)
    ensures CallExplained(WithPhase(s, c, p), d)
  {
    assert HasEntry(WithPhase(s, c, p), d) <==> HasEntry(s, d);
  }

  lemma CleanUpEntries(s: TdpState, c: nat, d: nat)
    requires Named(s) && c < |s.calls| && d < |s.calls| && EndingOf(s.calls[c].phase).Some?
    ensures var s' := CleanUpStep(s, c);
      && (HasEntry(s', d) <==> HasEntry(s, d) && s.calls[d].id != s.calls[c].id)
      && (d in s'.evictor <==> d in s.evictor || (HasEntry(s, d) && s.calls[d].id == s.calls[c].id && d != c))
      && (HasEntry(s, d) && s.calls[d].id == s.calls[c].id && d != c ==> s'.evictor[d] == c)
      && (d in s.evictor && !HasEntry(s, d) ==> s'.evictor[d] == s.evictor[d])
  {
  }

  lemma CleanUpExplains(s: TdpState, c: nat, d: nat)
    requires Named(s) && c < |s.calls| && d < |s.calls| && CallExplained(s, c) && CallExplained(s, d)
    ensures CallExplained(CleanUpStep(s, c), d)
  {
    if EndingOf(s.calls[c].phase).Some? {
      var s' := CleanUpStep(s, c);
      CleanUpEntries(s, c, d);
      assert s'.calls == WithPhase(s, c, Returned(EndingOf(s.calls[c].phase).value)).calls;
      assert s'.inHand == s.inHand && s'.oneshot == s.oneshot && s'.delivered == s.delivered;
      hide CleanUpStep, HasEntry;
      assert SenderExplained(s', d) by { hide PhaseExplained, EvictionExplained, EndingOf; }
      assert PhaseExplained(s', d) by { hide SenderExplained, EvictionExplained, OwnReply; }
      assert EvictionExplained(s', d) by { hide SenderExplained, OwnReply; }
    }
  }

  lemma TakeWaiterExplains(s: TdpState, reply: Reply, d: nat)
    requires Named(s) && d < |s.calls| && CallExplained(s, d)
    ensures CallExplained(TakeWaiterStep(s, reply), d)
  {
  }

  lemma HandOverExplains(s: TdpState, c: nat, d: nat)
    requires d < |s.calls| && CallExplained(s, d)
    ensures CallExplained(HandOverStep(s, c), d)
  {
  }

  // ... and to all of them.

  lemma SameRepliesNotShared(s: TdpState, s': TdpState)
    requires RepliesNotShared(s)
    requires s'.inHand == s.inHand && s'.oneshot == s.oneshot && s'.delivered == s.delivered
    ensures RepliesNotShared(s')
  {
  }

  lemma BeginKeepsInv(s: TdpState, id: u64)
    requires TdpInv(s)
    ensures TdpInv(BeginStep(s, id))
  {
    hide CallExplained, RepliesNotShared;
    SameRepliesNotShared(s, BeginStep(s, id));
    forall d | 0 <= d <= |s.calls| { BeginExplains(s, id, d); }
  }

  lemma PhaseChangeKeepsInv(s: TdpState, c: nat, p: Phase)
    requires TdpInv(s) && c < |s.calls|
    requires !s.calls[c].phase.Returned? && p != Returned(Duplicate) && (p.Returned? ==> !HasEntry(s, c))
    requires PhaseExplained(WithPhase(s, c, p), c)
    ensures TdpInv(WithPhase(s, c, p))
  {
    hide CallExplained, PhaseExplained;
    forall d | 0 <= d < |s.calls| { PhaseChangeExplains(s, c, p, d); }
  }

  lemma CleanUpKeepsInv(s: TdpState, c: nat)
    requires TdpInv(s)
    ensures TdpInv(CleanUpStep(s, c))
  {
    hide CallExplained, RepliesNotShared, Named, HasEntry;
    CleanUpKeepsNamed(s, c);
    SameRepliesNotShared(s, CleanUpStep(s, c));
    CleanUpKeepsCalls(s, c);
    if c < |s.calls| {
      hide CleanUpStep;
      forall d | 0 <= d < |s.calls| { CleanUpExplains(s, c, d); }
    }
  }

  lemma CleanUpKeepsNamed(s: TdpState, c: nat)
    requires Named(s)
    ensures Named(CleanUpStep(s, c))
  {
  }

  lemma CleanUpKeepsCalls(s: TdpState, c: nat)
    ensures |CleanUpStep(s, c).calls| == |s.calls|
  {
  }

  lemma TakeWaiterKeepsInv(s: TdpState, reply: Reply)
    requires TdpInv(s)
    ensures TdpInv(TakeWaiterStep(s, reply))
  {
    hide CallExplained, RepliesNotShared, Named;
    TakeWaiterKeepsNamed(s, reply);
    TakeWaiterSharesNoReply(s, reply);
    assert TakeWaiterStep(s, reply).calls == s.calls;
    hide TakeWaiterStep;
    forall d | 0 <= d < |s.calls| { TakeWaiterExplains(s, reply, d); }
  }

  lemma TakeWaiterKeepsNamed(s: TdpState, reply: Reply)
    requires Named(s)
    ensures Named(TakeWaiterStep(s, reply))
  {
  }

  lemma TakeWaiterSharesNoReply(s: TdpState, reply: Reply)
    requires RepliesNotShared(s)
    ensures RepliesNotShared(TakeWaiterStep(s, reply))
  {
  }

  lemma HandOverKeepsInv(s: TdpState, c: nat)
    requires TdpInv(s)
    ensures TdpInv(HandOverStep(s, c))
  {
    hide CallExplained, RepliesNotShared, Named, ReceiverAlive;
    HandOverKeepsNamed(s, c);
    HandOverSharesNoReply(s, c);
    assert HandOverStep(s, c).calls == s.calls;
    hide HandOverStep;
    forall d | 0 <= d < |s.calls| { HandOverExplains(s, c, d); }
  }

  lemma HandOverKeepsNamed(s: TdpState, c: nat)
    requires Named(s)
    ensures Named(HandOverStep(s, c))
  {
    hide ReceiverAlive;
  }

  lemma HandOverSharesNoReply(s: TdpState, c: nat)
    requires RepliesNotShared(s)
    ensures RepliesNotShared(HandOverStep(s, c))
  {
    hide ReceiverAlive;
  }

  lemma RequestedIsFree(s: TdpState, requested: seq<u64>)
    requires TdpInv(s)
    ensures TdpInv(s.(requested := requested))
  {
    var s' := s.(requested := requested);
    forall c | 0 <= c < |s.calls| ensures CallExplained(s', c) {
      assert CallExplained(s, c);
      assert HasEntry(s', c) <==> HasEntry(s, c);
    }
  }

  lemma PollReceiverKeepsInv(s: TdpState, c: nat)
    requires TdpInv(s)
    ensures TdpInv(PollReceiverStep(s, c))
  {
    if InPhase(s, c, Awaiting) {
      assert CallExplained(s, c);
      hide TdpInv;
      var p := PollReceiverStep(s, c).calls[c].phase;
      assert HasEntry(WithPhase(s, c, p), c) <==> HasEntry(s, c);
      PhaseChangeKeepsInv(s, c, p);
    }
  }

  lemma PollTimerKeepsInv(s: TdpState, c: nat, expired: bool)
    requires TdpInv(s)
    ensures TdpInv(PollTimerStep(s, c, expired))
  {
    if InPhase(s, c, Checked) {
      assert CallExplained(s, c);
      hide TdpInv;
      var p := if expired then TimingOut else Awaiting;
      assert HasEntry(WithPhase(s, c, p), c) <==> HasEntry(s, c);
      PhaseChangeKeepsInv(s, c, p);
    }
  }

  lemma FinishSendKeepsInv(s: TdpState, c: nat, sent: bool)
    requires TdpInv(s)
    ensures TdpInv(FinishSendStep(s, c, sent))
  {
    if InPhase(s, c, Sending) {
      assert CallExplained(s, c);
      hide TdpInv;
      var p := if sent then Awaiting else SendFailing;
      assert HasEntry(WithPhase(s, c, p), c) <==> HasEntry(s, c);
      PhaseChangeKeepsInv(s, c, p);
      RequestedIsFree(WithPhase(s, c, p), FinishSendStep(s, c, sent).requested);
    }
  }

  lemma NextKeepsInv(s: TdpState, step: Step)
    requires TdpInv(s)
    ensures TdpInv(Next(s, step))
  {
    hide TdpInv, BeginStep, FinishSendStep, PollReceiverStep, PollTimerStep, CleanUpStep, TakeWaiterStep, HandOverStep;
    match step
    case Begin(id) => BeginKeepsInv(s, id);
    case FinishSend(c, sent) => FinishSendKeepsInv(s, c, sent);
    case PollReceiver(c) => PollReceiverKeepsInv(s, c);
    case PollTimer(c, expired) => PollTimerKeepsInv(s, c, expired);
    case CleanUp(c) => CleanUpKeepsInv(s, c);
    case TakeWaiter(reply) => TakeWaiterKeepsInv(s, reply);
    case HandOver(c) => HandOverKeepsInv(s, c);
  }

  lemma {:induction false} EveryRunKeepsTdpInv(steps: seq<Step>)
    ensures TdpInv(After(steps))
  {
    hide TdpInv, Next;
    if steps == [] {
      IdleInv();
    } else {
      EveryRunKeepsTdpInv(Init(steps));
      NextKeepsInv(After(Init(steps)), Last(steps));
    }
  }

  lemma IdleInv()
    ensures TdpInv(IDLE)
  {
  }

  // ------------------------------------------------------------------
  // Results
  // ------------------------------------------------------------------

  /** A call that succeeded got a reply with its own id, delivered after it registered ... */
  lemma SuccessIsOwnReply(steps: seq<Step>, c: nat)
    requires c < |After(steps).calls| && After(steps).calls[c].phase.Returned?
    requires After(steps).calls[c].phase.ending.Got?
    ensures var s := After(steps);
      && c in s.oneshot && s.oneshot[c].reply == s.calls[c].phase.ending.reply
      && s.calls[c].since <= s.oneshot[c].at < |s.delivered|
      && s.delivered[s.oneshot[c].at] == s.calls[c].phase.ending.reply
      && s.calls[c].phase.ending.reply.templateId == s.calls[c].id
  {
    EveryRunKeepsTdpInv(steps);
    hide After;
    assert CallExplained(After(steps), c);
  }

  /** ... and no delivered reply resolves two calls. */
  lemma ReplyResolvesOneCall(steps: seq<Step>, c: nat, d: nat)
    requires c in After(steps).oneshot && d in After(steps).oneshot
    requires After(steps).oneshot[c].at == After(steps).oneshot[d].at
    ensures c == d
  {
    EveryRunKeepsTdpInv(steps);
  }

  /**
   * Entries in the map belong to calls still in flight, one call per id and one id per call;
   * so none are left once every call has returned.
   */
  lemma EntriesBelongToCallsInFlight(steps: seq<Step>)
    ensures var s := After(steps);
      && (forall id :: id in s.pending ==>
            && s.pending[id] < |s.calls| && s.calls[s.pending[id]].id == id
            && !s.calls[s.pending[id]].phase.Returned? && s.pending[id] !in s.oneshot)
      && ((forall c :: 0 <= c < |s.calls| ==> s.calls[c].phase.Returned?) ==> s.pending == map[])
  {
    EveryRunKeepsTdpInv(steps);
    var s := After(steps);
    hide After;
    forall id | id in s.pending ensures !s.calls[s.pending[id]].phase.Returned? && s.pending[id] !in s.oneshot {
      assert CallExplained(s, s.pending[id]);
    }
  }

  /**
   * A call that reports the demux closed lost its sender to the cleanup of another call with
   * the same id. Without reused ids this cannot happen.
   */
  lemma DemuxClosedMeansEvicted(steps: seq<Step>, c: nat)
    requires InPhase(After(steps), c, Returned(DemuxClosed))
    ensures var s := After(steps);
      && c in s.evictor && s.evictor[c] != c && SameId(s, s.evictor[c], c)
      && s.calls[s.evictor[c]].phase in {Returned(TimedOut), Returned(SendFailed), Returned(DemuxClosed)}
  {
    EveryRunKeepsTdpInv(steps);
    hide After;
    assert CallExplained(After(steps), c);
  }

  /** Ids never change, and only a new call can find itself a duplicate. */
  lemma NextKeepsIds(s: TdpState, step: Step, d: nat)
    requires d < |s.calls|
    ensures var s' := Next(s, step);
      && |s.calls| <= |s'.calls| <= |s.calls| + 1
      && s'.calls[d].id == s.calls[d].id
      && (InPhase(s', d, Returned(Duplicate)) ==> InPhase(s, d, Returned(Duplicate)))
  {
    hide SenderAlive, ReceiverAlive;
    match step
    case CleanUp(c) =>
      if c < |s.calls| { assert EndingOf(s.calls[c].phase) != Some(Duplicate); }
    case _ =>
  }

  predicate SameId(s: TdpState, c: int, d: int) {
    0 <= c < |s.calls| && 0 <= d < |s.calls| && s.calls[c].id == s.calls[d].id
  }

  /** A call turned away as a duplicate came after another with its id. */
  lemma {:induction false} DuplicateMeansEarlierCall(steps: seq<Step>, c: nat)
    requires InPhase(After(steps), c, Returned(Duplicate))
    ensures exists d :: d < c && SameId(After(steps), d, c)
  {
    if steps != [] {
      var s, step := After(Init(steps)), Last(steps);
      EveryRunKeepsTdpInv(Init(steps));
      if c < |s.calls| {
        NextKeepsIds(s, step, c);
        DuplicateMeansEarlierCall(Init(steps), c);
        var d :| d < c && SameId(s, d, c);
        NextKeepsIds(s, step, d);
        assert SameId(After(steps), d, c);
      } else {
        NewDuplicateHasHolder(s, step, c);
      }
    }
  }

  lemma NewDuplicateHasHolder(s: TdpState, step: Step, c: nat)
    requires Named(s) && c >= |s.calls| && InPhase(Next(s, step), c, Returned(Duplicate))
    ensures exists d :: d < c && SameId(Next(s, step), d, c)
  {
    assert step.Begin? && step.id in s.pending && c == |s.calls|;
    assert SameId(Next(s, step), s.pending[step.id], c);
  }

  /** A call that shares its id with no other is never refused and never evicted. */
  lemma UnsharedIdsAreSafe(steps: seq<Step>, c: nat)
    requires forall d :: d != c ==> !SameId(After(steps), d, c)
    ensures !InPhase(After(steps), c, Returned(Duplicate)) && !InPhase(After(steps), c, Returned(DemuxClosed))
  {
    if InPhase(After(steps), c, Returned(Duplicate)) {
      DuplicateMeansEarlierCall(steps, c);
    } else if InPhase(After(steps), c, Returned(DemuxClosed)) {
      DemuxClosedMeansEvicted(steps, c);
    }
  }

  /** A cleanup takes another call's entry exactly when its id is now registered to another call. */
  lemma CleanUpEvictsIff(steps: seq<Step>, c: nat)
    requires c < |After(steps).calls| && EndingOf(After(steps).calls[c].phase).Some?
    ensures var s, s' := After(steps), CleanUpStep(After(steps), c);
      var id := s.calls[c].id;
      && ((exists d :: d != c && HasEntry(s, d) && !HasEntry(s', d)) <==> id in s.pending && s.pending[id] != c)
      && (forall d :: d != c && HasEntry(s, d) && !HasEntry(s', d) ==>
            d == s.pending[id] && d in s'.evictor && s'.evictor[d] == c)
      && (forall d :: HasEntry(s', d) ==> HasEntry(s, d))
  {
    EveryRunKeepsTdpInv(steps);
    var s := After(steps);
    hide After, CleanUpStep, SenderExplained, PhaseExplained, EvictionExplained, RepliesNotShared;
    forall d: nat | d < |s.calls|
      ensures HasEntry(CleanUpStep(s, c), d) <==> HasEntry(s, d) && s.calls[d].id != s.calls[c].id
      ensures d != c && HasEntry(s, d) && s.calls[d].id == s.calls[c].id ==>
        d in CleanUpStep(s, c).evictor && CleanUpStep(s, c).evictor[d] == c
    {
      CleanUpEntries(s, c, d);
    }
    CleanUpKeepsCalls(s, c);
    var id := s.calls[c].id;
    if id in s.pending && s.pending[id] != c {
      assert HasEntry(s, s.pending[id]);
    }
  }

  /** An evicted call never gets a value: if it returns, it returns a failure. */
  lemma EvictedNeverSucceeds(steps: seq<Step>, c: nat)
    requires c in After(steps).evictor
    ensures var s := After(steps);
      && c < |s.calls| && c !in s.oneshot && c !in s.inHand && !HasEntry(s, c)
      && (s.calls[c].phase.Returned? ==> s.calls[c].phase.ending in {DemuxClosed, SendFailed, TimedOut})
  {
    EveryRunKeepsTdpInv(steps);
    hide After;
    assert CallExplained(After(steps), c);
  }

  /** Evicted, and not already past its last look at the timer. */
  predicate Stranded(s: TdpState, c: nat) {
    && c < |s.calls| && c in s.evictor
    && s.calls[c].phase in
         {Sending, Awaiting, SendFailing, SenderGone, Returned(SendFailed), Returned(DemuxClosed)}
  }

  lemma NextKeepsStranded(s: TdpState, step: Step, c: nat)
    requires TdpInv(s) && Stranded(s, c)
    ensures Stranded(Next(s, step), c)
  {
    assert CallExplained(s, c);
    hide TdpInv, OwnReply, PhaseExplained, EvictionExplained;
    match step
    case CleanUp(d) => if d < |s.calls| && EndingOf(s.calls[d].phase).Some? { EvictorOnlyGrows(s, d, c); }
    case _ =>
  }

  lemma EvictorOnlyGrows(s: TdpState, c: nat, d: nat)
    requires d in s.evictor
    ensures d in CleanUpStep(s, c).evictor
  {
  }

  /**
   * So a call evicted while it was sending or waiting can only fail, and only as "send failed"
   * or "demux closed", whatever happens afterwards.
   */
  lemma {:induction false} EvictedWhileWaitingFails(steps: seq<Step>, i: nat, c: nat)
    requires i <= |steps| && Stranded(After(steps[..i]), c)
    ensures Stranded(After(steps), c)
  {
    if i == |steps| {
      assert steps[..i] == steps;
    } else {
      assert steps[..i] == Init(steps)[..i];
      EvictedWhileWaitingFails(Init(steps), i, c);
      EveryRunKeepsTdpInv(Init(steps));
      hide Next, Stranded, TdpInv;
      NextKeepsStranded(After(Init(steps)), Last(steps), c);
    }
  }

  lemma OneMoreStep(steps: seq<Step>, step: Step)
    ensures After(steps + [step]) == Next(After(steps), step)
  {
    assert Init(steps + [step]) == steps;
  }

  /** The first call's timer fires just as its reply is taken, and a second call registers its id. */
  function RaceSetUp(id: u64, reply: Reply): seq<Step> {
    [Begin(id)] + [FinishSend(0, true)] + [PollReceiver(0)] + [PollTimer(0, true)] + [TakeWaiter(reply)] + [Begin(id)]
  }

  function RaceState(id: u64, reply: Reply): TdpState {
    TdpState([Call(id, 0, TimingOut), Call(id, 1, Sending)], map[id := 1], map[0 := Delivery(0, reply)], map[],
             [reply], [id], map[])
  }

  lemma RaceBegins(id: u64, reply: Reply)
    requires reply.templateId == id
    ensures Next(Next(Next(Next(Next(Next(IDLE,
        Begin(id)), FinishSend(0, true)), PollReceiver(0)), PollTimer(0, true)), TakeWaiter(reply)), Begin(id))
      == RaceState(id, reply)
  {
    var s2 := Next(Next(IDLE, Begin(id)), FinishSend(0, true));
    assert s2 == IDLE.(calls := [Call(id, 0, Awaiting)], pending := map[id := 0], requested := [id]);
    var s4 := Next(Next(s2, PollReceiver(0)), PollTimer(0, true));
    assert s4 == s2.(calls := [Call(id, 0, TimingOut)]);
  }

  lemma RaceSetUpState(id: u64, reply: Reply)
    requires reply.templateId == id
    ensures After(RaceSetUp(id, reply)) == RaceState(id, reply)
  {
    assert After([]) == IDLE && [] + [Begin(id)] == [Begin(id)];
    hide After, Next, RaceState;
    RaceBegins(id, reply);
    var e1 := [Begin(id)];
    OneMoreStep([], Begin(id));
    OneMoreStep(e1, FinishSend(0, true));
    OneMoreStep(e1 + [FinishSend(0, true)], PollReceiver(0));
    OneMoreStep(e1 + [FinishSend(0, true)] + [PollReceiver(0)], PollTimer(0, true));
    OneMoreStep(e1 + [FinishSend(0, true)] + [PollReceiver(0)] + [PollTimer(0, true)], TakeWaiter(reply));
    OneMoreStep(e1 + [FinishSend(0, true)] + [PollReceiver(0)] + [PollTimer(0, true)] + [TakeWaiter(reply)], Begin(id));
  }

  lemma RaceEnds(id: u64, reply: Reply)
    ensures var r := Next(Next(Next(Next(RaceState(id, reply), FinishSend(1, true)), CleanUp(0)), PollReceiver(1)), CleanUp(1));
      && |r.calls| == 2 && r.calls[0].phase == Returned(TimedOut) && r.calls[1].phase == Returned(DemuxClosed)
      && r.requested == [id, id] && r.pending == map[]
  {
    var s6 := Next(RaceState(id, reply), FinishSend(1, true));
    var s7 := Next(s6, CleanUp(0));
    assert s7.calls == [Call(id, 0, Returned(TimedOut)), Call(id, 1, Awaiting)] && s7.pending == map[];
    var s8 := Next(s7, PollReceiver(1));
    assert s8.calls == [Call(id, 0, Returned(TimedOut)), Call(id, 1, SenderGone)];
  }

  /**
   * It does happen otherwise: the first call's cleanup then removes the second call's entry,
   * and the second call fails although its own request was sent and never timed out.
   */
  lemma CleanUpCanEvictAnother(id: u64, reply: Reply)
    requires reply.templateId == id
    ensures var s :=
        After(RaceSetUp(id, reply) + [FinishSend(1, true)] + [CleanUp(0)] + [PollReceiver(1)] + [CleanUp(1)]);
      && |s.calls| == 2 && s.calls[0].phase == Returned(TimedOut) && s.calls[1].phase == Returned(DemuxClosed)
      && s.requested == [id, id] && s.pending == map[]
  {
    hide After, Next, RaceSetUp, RaceState;
    RaceSetUpState(id, reply);
    var before := RaceSetUp(id, reply);
    RaceEnds(id, reply);
    OneMoreStep(before, FinishSend(1, true));
    OneMoreStep(before + [FinishSend(1, true)], CleanUp(0));
    OneMoreStep(before + [FinishSend(1, true)] + [CleanUp(0)], PollReceiver(1));
    OneMoreStep(before + [FinishSend(1, true)] + [CleanUp(0)] + [PollReceiver(1)], CleanUp(1));
  }

  lemma LateEvictionEnds(id: u64, reply: Reply)
    ensures var r := Next(Next(Next(Next(Next(RaceState(id, reply),
        FinishSend(1, true)), PollReceiver(1)), PollTimer(1, true)), CleanUp(0)), CleanUp(1));
      |r.calls| == 2 && 1 in r.evictor && r.calls[1].phase == Returned(TimedOut)
  {
    var s6 := Next(RaceState(id, reply), FinishSend(1, true));
    var s8 := Next(Next(s6, PollReceiver(1)), PollTimer(1, true));
    assert s6.calls == [Call(id, 0, TimingOut), Call(id, 1, Awaiting)];
    assert s8.calls == [Call(id, 0, TimingOut), Call(id, 1, TimingOut)] && s8.pending == map[id := 1];
  }

  /** A call whose timer fired before it was evicted still reports the timeout. */
  lemma EvictedAfterTimerTimesOut(id: u64, reply: Reply)
    requires reply.templateId == id
    ensures var s := After(RaceSetUp(id, reply)
        + [FinishSend(1, true)] + [PollReceiver(1)] + [PollTimer(1, true)] + [CleanUp(0)] + [CleanUp(1)]);
      |s.calls| == 2 && 1 in s.evictor && s.calls[1].phase == Returned(TimedOut)
  {
    hide After, Next, RaceSetUp, RaceState;
    RaceSetUpState(id, reply);
    var before := RaceSetUp(id, reply);
    LateEvictionEnds(id, reply);
    OneMoreStep(before, FinishSend(1, true));
    OneMoreStep(before + [FinishSend(1, true)], PollReceiver(1));
    OneMoreStep(before + [FinishSend(1, true)] + [PollReceiver(1)], PollTimer(1, true));
    OneMoreStep(before + [FinishSend(1, true)] + [PollReceiver(1)] + [PollTimer(1, true)], CleanUp(0));
    OneMoreStep(before + [FinishSend(1, true)] + [PollReceiver(1)] + [PollTimer(1, true)] + [CleanUp(0)], CleanUp(1));
  }
}
