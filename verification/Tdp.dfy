/**
 * `TdpHandle`: the atomic sections of a body request, the delivery of replies, the template
 * snapshots, and what a reply decodes to (crates/sv2-p2pool-engine/src/tdp.rs).
 */
module Tdp {
  import opened Primitives
  import opened TxCodec
  import opened Block
  import opened TdpModel

  datatype SetNewPrevHash = SetNewPrevHash(templateId: u64, prevHash: Hash, headerTimestamp: u32, nBits: u32)

  datatype NewTemplate = NewTemplate(templateId: u64, version: u32)

  /** The latest message of each kind, if one has been seen. */
  datatype Snapshots = Snapshots(prevHash: Option<SetNewPrevHash>, template: Option<NewTemplate>)

  datatype TdpError =
    | DuplicateRequest(templateId: u64)
    | RequestNotSent
    | DemuxClosedEarly
    | Timeout(templateId: u64)
    | TpRejected(templateId: u64, errorCode: Bytes)
    | DecodeFailed

  // ------------------------------------------------------------------
  // What a request returns
  // ------------------------------------------------------------------

  function DecodeAll(bodies: seq<Bytes>): (txs: Option<seq<Tx>>) {
    if bodies == [] then Some([])
    else
      match DecodeAll(Init(bodies))
      case None => None
      case Some(front) =>
        match Decode(Last(bodies))
        case None => None
        case Some(tx) => Some(front + [tx])
  }

  /** All or nothing: every body decodes, in order, or the whole reply is refused. */
  lemma {:induction false} DecodeAllMeaning(bodies: seq<Bytes>)
    ensures DecodeAll(bodies).Some? <==> forall i :: 0 <= i < |bodies| ==> Decode(bodies[i]).Some?
    ensures DecodeAll(bodies).Some? ==>
      && |DecodeAll(bodies).value| == |bodies|
      && forall i :: 0 <= i < |bodies| ==> Decode(bodies[i]) == Some(DecodeAll(bodies).value[i])
  {
    hide Decode;
    if bodies != [] {
      DecodeAllMeaning(Init(bodies));
      assert Last(bodies) == bodies[|bodies| - 1];
    }
  }

  lemma EncodedDecodes(tx: Tx)
    ensures Decode(EncodeTx(tx)) == Some(tx)
  {
    hide EncodeTx, ParseTx;
    assert EncodeTx(tx) + [] == EncodeTx(tx);
    TxDecodes(tx, []);
  }

  /** Serialised transactions come back as they were. */
  lemma DecodeAllOfEncoded(txs: seq<Tx>, bodies: seq<Bytes>)
    requires |bodies| == |txs| && forall i :: 0 <= i < |txs| ==> bodies[i] == EncodeTx(txs[i])
    ensures DecodeAll(bodies) == Some(txs)
  {
    hide Decode, EncodeTx, DecodeAll;
    forall i | 0 <= i < |txs| ensures Decode(bodies[i]) == Some(txs[i]) {
      EncodedDecodes(txs[i]);
    }
    DecodeAllMeaning(bodies);
    assert forall i :: 0 <= i < |bodies| ==> Decode(bodies[i]) == Some(txs[i]);
    var decoded := DecodeAll(bodies).value;
    forall i | 0 <= i < |txs| ensures decoded[i] == txs[i] {
      assert Decode(bodies[i]) == Some(decoded[i]);
    }
    assert decoded == txs;
  }

  /** The result of a request that ended this way. */
  function Conclude(id: u64, ending: Ending): Result<seq<Tx>, TdpError> {
    match ending
    case Duplicate => Err(DuplicateRequest(id))
    case SendFailed => Err(RequestNotSent)
    case DemuxClosed => Err(DemuxClosedEarly)
    case TimedOut => Err(Timeout(id))
    case Got(TxError(_, code)) => Err(TpRejected(id, code))
    case Got(TxSuccess(_, bodies)) => if DecodeAll(bodies).Some? then Ok(DecodeAll(bodies).value) else Err(DecodeFailed)
  }

  /** Each way a request can end, and what its caller is told. */
  lemma ConcludeMeaning(id: u64, ending: Ending)
    ensures var r := Conclude(id, ending);
      && (r.Ok? <==>
            && ending.Got? && ending.reply.TxSuccess?
            && forall i :: 0 <= i < |ending.reply.transactionList| ==> Decode(ending.reply.transactionList[i]).Some?)
      && (r == Err(DuplicateRequest(id)) <==> ending == Duplicate)
      && (r == Err(RequestNotSent) <==> ending == SendFailed)
      && (r == Err(DemuxClosedEarly) <==> ending == DemuxClosed)
      && (r == Err(Timeout(id)) <==> ending == TimedOut)
      && (ending.Got? && ending.reply.TxError? ==> r == Err(TpRejected(id, ending.reply.errorCode)))
      && (r == Err(DecodeFailed) <==>
            && ending.Got? && ending.reply.TxSuccess?
            && exists i :: 0 <= i < |ending.reply.transactionList| && Decode(ending.reply.transactionList[i]).None?)
  {
    hide Decode;
    if ending.Got? && ending.reply.TxSuccess? { DecodeAllMeaning(ending.reply.transactionList); }
  }

  /**
   * In every run: the transactions a request returns are exactly the bodies of one reply that
   * carries the requested template id and arrived after the request registered.
   */
  lemma ReturnedBodiesAreTheTemplates(steps: seq<Step>, c: nat, txs: seq<Tx>)
    requires c < |After(steps).calls| && After(steps).calls[c].phase.Returned?
    requires Conclude(After(steps).calls[c].id, After(steps).calls[c].phase.ending) == Ok(txs)
    ensures var s := After(steps);
      exists k :: s.calls[c].since <= k < |s.delivered| && AnswersWith(s.delivered[k], s.calls[c].id, txs)
  {
    SuccessIsOwnReply(steps, c);
    var s := After(steps);
    hide After, Decode;
    var reply := s.calls[c].phase.ending.reply;
    DecodeAllMeaning(reply.transactionList);
    assert AnswersWith(s.delivered[s.oneshot[c].at], s.calls[c].id, txs);
  }

  predicate AnswersWith(reply: Reply, id: u64, txs: seq<Tx>) {
    && reply.TxSuccess? && reply.templateId == id
    && |reply.transactionList| == |txs|
    && forall i :: 0 <= i < |txs| ==> Decode(reply.transactionList[i]) == Some(txs[i])
  }

  class TdpHandle {
    var pendingRequests: map<u64, nat>
    var lastPrevHash: Option<SetNewPrevHash>
    var lastTemplate: Option<NewTemplate>
    var calls: seq<Call>
    var inHand: map<nat, Delivery>
    var oneshot: map<nat, Delivery>
    var delivered: seq<Reply>
    var requested: seq<u64>
    ghost var evictor: map<nat, nat>

    ghost function State(): TdpState
      reads this
    {
      TdpState(calls, pendingRequests, inHand, oneshot, delivered, requested, evictor)
    }

    function Seen(): Snapshots
      reads this
    {
      Snapshots(lastPrevHash, lastTemplate)
    }

    ghost predicate Valid()
      reads this
    {
      TdpInv(State())
    }

    constructor ()
      ensures Valid() && State() == IDLE && Seen() == Snapshots(None, None)
    {
      pendingRequests, lastPrevHash, lastTemplate := map[], None, None;
      calls, inHand, oneshot, delivered, requested, evictor := [], map[], map[], [], [], map[];
      new;
      IdleInv();
    }

    /** The first critical section: refuse a template id already waited for, else claim it. */
    method Register(templateId: u64) returns (call: nat, refused: bool)
      requires Valid()
      modifies this
      ensures Valid() && Seen() == old(Seen())
      ensures State() == Next(old(State()), Begin(templateId)) && call == |old(calls)|
      ensures refused <==> templateId in old(pendingRequests)
      ensures calls == old(calls)
        + [Call(templateId, |delivered|, if refused then Returned(Duplicate) else Sending)]
      ensures pendingRequests == if refused then old(pendingRequests) else old(pendingRequests)[templateId := call]
    {
      hide TdpInv;
      NextKeepsInv(State(), Begin(templateId));
      call := |calls|;
      refused := templateId in pendingRequests;
      if refused {
        calls := calls + [Call(templateId, |delivered|, Returned(Duplicate))];
      } else {
        calls := calls + [Call(templateId, |delivered|, Sending)];
        pendingRequests := pendingRequests[templateId := call];
      }
    }

    /** The request goes out, or the channel to the template provider turns out closed. */
    method SendRequest(call: nat, channelOpen: bool)
      requires Valid() && InPhase(State(), call, Sending)
      modifies this
      ensures Valid() && Seen() == old(Seen())
      ensures State() == Next(old(State()), FinishSend(call, channelOpen))
      ensures InPhase(State(), call, if channelOpen then Awaiting else SendFailing)
      ensures requested == old(requested) + if channelOpen then [old(calls)[call].id] else []
    {
      hide TdpInv;
      NextKeepsInv(State(), FinishSend(call, channelOpen));
      if channelOpen {
        requested := requested + [calls[call].id];
        calls := calls[call := calls[call].(phase := Awaiting)];
      } else {
        calls := calls[call := calls[call].(phase := SendFailing)];
      }
    }

    /** The first half of a poll of the timed wait: the one-shot. */
    method PollOneShot(call: nat)
      requires Valid() && InPhase(State(), call, Awaiting)
      modifies this`calls
      ensures Valid()
      ensures State() == Next(old(State()), PollReceiver(call))
      ensures call in oneshot ==> InPhase(State(), call, Returned(Got(oneshot[call].reply)))
      ensures call !in oneshot ==> InPhase(State(), call,
        if call in inHand || (calls[call].id in pendingRequests && pendingRequests[calls[call].id] == call) then Checked
        else SenderGone)
    {
      hide TdpInv;
      NextKeepsInv(State(), PollReceiver(call));
      var c := calls[call];
      if call in oneshot {
        calls := calls[call := c.(phase := Returned(Got(oneshot[call].reply)))];
      } else if call in inHand || (c.id in pendingRequests && pendingRequests[c.id] == call) {
        calls := calls[call := c.(phase := Checked)];
      } else {
        calls := calls[call := c.(phase := SenderGone)];
      }
    }

    /** The second half: the timer, whatever has arrived since. */
    method PollDeadline(call: nat, expired: bool)
      requires Valid() && InPhase(State(), call, Checked)
      modifies this`calls
      ensures Valid()
      ensures State() == Next(old(State()), PollTimer(call, expired))
      ensures InPhase(State(), call, if expired then TimingOut else Awaiting)
    {
      hide TdpInv;
      NextKeepsInv(State(), PollTimer(call, expired));
      calls := calls[call := calls[call].(phase := if expired then TimingOut else Awaiting)];
    }

    /** The removal after a failed send, a closed one-shot or a timeout: by id, not by owner. */
    method RemovePending(call: nat, ending: Ending)
      requires Valid() && call < |calls| && EndingOf(calls[call].phase) == Some(ending)
      modifies this
      ensures Valid() && Seen() == old(Seen())
      ensures |calls| == |old(calls)|
      ensures calls[call].phase == Returned(ending) && calls[call].id !in pendingRequests
      ensures pendingRequests == old(pendingRequests) - {calls[call].id}
      ensures State() == Next(old(State()), CleanUp(call))
    {
      hide TdpInv;
      NextKeepsInv(State(), CleanUp(call));
      var templateId := calls[call].id;
      if templateId in pendingRequests && pendingRequests[templateId] != call {
        evictor := evictor[pendingRequests[templateId] := call];
      }
      pendingRequests := pendingRequests - {templateId};
      calls := calls[call := calls[call].(phase := Returned(ending))];
    }

    /** `deliver_response` up to the lock's release: the waiter, if any, leaves the map. */
    method TakePending(reply: Reply) returns (waiter: Option<nat>)
      requires Valid()
      modifies this
      ensures Valid() && Seen() == old(Seen())
      ensures State() == Next(old(State()), TakeWaiter(reply))
      ensures waiter.Some? <==> reply.templateId in old(pendingRequests)
      ensures waiter.Some? ==>
        && waiter.value == old(pendingRequests)[reply.templateId]
        && waiter.value in inHand && inHand[waiter.value] == Delivery(|old(delivered)|, reply)
      ensures delivered == old(delivered) + [reply]
      ensures pendingRequests == old(pendingRequests) - {reply.templateId}
    {
      hide TdpInv;
      NextKeepsInv(State(), TakeWaiter(reply));
      waiter := None;
      if reply.templateId in pendingRequests {
        waiter := Some(pendingRequests[reply.templateId]);
        inHand := inHand[waiter.value := Delivery(|delivered|, reply)];
        pendingRequests := pendingRequests - {reply.templateId};
      }
      delivered := delivered + [reply];
    }

    /** ... and the send into the one-shot, which fails if the request has stopped waiting. */
    method SendToWaiter(call: nat) returns (ok: bool)
      requires Valid() && call in inHand
      modifies this
      ensures Valid() && Seen() == old(Seen()) && delivered == old(delivered)
      ensures State() == Next(old(State()), HandOver(call))
      ensures ok <==> call in oneshot
      ensures ok <==> call < |calls| && calls[call].phase in {Sending, Awaiting, Checked, SendFailing}
      ensures ok ==> oneshot[call] == old(inHand)[call]
      ensures !ok ==> oneshot == old(oneshot)
    {
      hide TdpInv;
      assert call !in oneshot by { InHandIsNotYetReceived(State(), call); }
      NextKeepsInv(State(), HandOver(call));
      ok := call < |calls| && calls[call].phase in {Sending, Awaiting, Checked, SendFailing};
      if ok {
        oneshot := oneshot[call := inHand[call]];
      }
      inHand := inHand - {call};
    }

    method DeliverResponse(reply: Reply) returns (ok: bool)
      requires Valid()
      modifies this
      ensures Valid() && Seen() == old(Seen())
      ensures delivered == old(delivered) + [reply]
      ensures ok ==>
        && reply.templateId in old(pendingRequests) && old(pendingRequests)[reply.templateId] in oneshot
        && oneshot[old(pendingRequests)[reply.templateId]] == Delivery(|old(delivered)|, reply)
      ensures !ok ==> oneshot == old(oneshot)
    {
      hide TdpInv;
      var waiter := TakePending(reply);
      if waiter.None? {
        return false;
      }
      ok := SendToWaiter(waiter.value);
    }

    method RecordSetNewPrevHash(msg: SetNewPrevHash)
      modifies this`lastPrevHash
      ensures Seen() == old(Seen()).(prevHash := Some(msg))
    {
      lastPrevHash := Some(msg);
    }

    method RecordNewTemplate(msg: NewTemplate)
      modifies this`lastTemplate
      ensures Seen() == old(Seen()).(template := Some(msg))
    {
      lastTemplate := Some(msg);
    }

    /** The tip of the latest SetNewPrevHash; a NewTemplate is not needed for it. */
    method CurrentTip() returns (tip: Option<TipMetadata>)
      ensures tip.Some? <==> lastPrevHash.Some?
      ensures tip.Some? ==>
        tip.value == TipMetadata(lastPrevHash.value.prevHash, lastPrevHash.value.nBits, lastPrevHash.value.headerTimestamp)
    {
      if lastPrevHash.None? {
        return None;
      }
      var msg := lastPrevHash.value;
      return Some(TipMetadata(msg.prevHash, msg.nBits, msg.headerTimestamp));
    }

    /** The last step of a request: what the caller gets for the way it ended. */
    method Finish(templateId: u64, ending: Ending) returns (result: Result<seq<Tx>, TdpError>)
      ensures result == Conclude(templateId, ending)
    {
      match ending {
        case Duplicate => return Err(DuplicateRequest(templateId));
        case SendFailed => return Err(RequestNotSent);
        case DemuxClosed => return Err(DemuxClosedEarly);
        case TimedOut => return Err(Timeout(templateId));
        case Got(reply) =>
          if reply.TxError? {
            return Err(TpRejected(templateId, reply.errorCode));
          }
          var bodies := reply.transactionList;
          var txs := [];
          for i := 0 to |bodies|
            invariant DecodeAll(bodies[..i]) == Some(txs)
          {
            assert Init(bodies[..i + 1]) == bodies[..i];
            var tx := Decode(bodies[i]);
            if tx.None? {
              DecodeAllMeaning(bodies);
              return Err(DecodeFailed);
            }
            txs := txs + [tx.value];
          }
          assert bodies[..|bodies|] == bodies;
          return Ok(txs);
      }
    }
  }

  lemma InHandIsNotYetReceived(s: TdpState, c: nat)
    requires TdpInv(s) && c in s.inHand
    ensures c !in s.oneshot
  {
    assert CallExplained(s, c);
  }
}
