/**
 * The tee and the merge between the channel manager, the engine and the template provider
 * (crates/sv2-p2pool-pool/src/tdp_demux.rs).
 */
module TdpDemux {
  import opened Primitives
  import opened TdpModel
  import opened Tdp

  /** A message of the template distribution protocol; `Other` is any the tee does not look at. */
  datatype Message =
    | PrevHash(snph: SetNewPrevHash)
    | Template(nt: NewTemplate)
    | TxData(reply: Reply)
    | Request(templateId: u64)
    | Other(tag: nat)

  // ------------------------------------------------------------------
  // Tee
  // ------------------------------------------------------------------

  function Reflect(seen: Snapshots, msg: Message): Snapshots {
    match msg
    case PrevHash(snph) => seen.(prevHash := Some(snph))
    case Template(nt) => seen.(template := Some(nt))
    case _ => seen
  }

  /** The snapshots once these messages have been observed. */
  function ReflectAll(seen: Snapshots, msgs: seq<Message>): Snapshots {
    if msgs == [] then seen else Reflect(ReflectAll(seen, Init(msgs)), Last(msgs))
  }

  function RepliesIn(msgs: seq<Message>): seq<Reply> {
    if msgs == [] then []
    else RepliesIn(Init(msgs)) + if Last(msgs).TxData? then [Last(msgs).reply] else []
  }

  /** The replies among the messages, all of them and in order. */
  lemma {:induction false} RepliesInAppend(a: seq<Message>, b: seq<Message>)
    ensures RepliesIn(a + b) == RepliesIn(a) + RepliesIn(b)
  {
    if b == [] {
      assert a + b == a;
    } else {
      assert Init(a + b) == a + Init(b);
      RepliesInAppend(a, Init(b));
    }
  }

  lemma RepliesInOne(msg: Message)
    ensures RepliesIn([msg]) == match msg case TxData(reply) => [reply] case _ => []
  {
    assert Init([msg]) == [] && Last([msg]) == msg;
  }

  predicate SameKind(a: Message, b: Message) {
    (a.PrevHash? && b.PrevHash?) || (a.Template? && b.Template?)
  }

  /** `msg` is among `msgs`, and none of its kind comes after it. */
  ghost predicate IsLatest(msgs: seq<Message>, msg: Message) {
    exists i :: 0 <= i < |msgs| && msgs[i] == msg && forall j :: i < j < |msgs| ==> !SameKind(msgs[j], msg)
  }

  lemma LatestExtends(msgs: seq<Message>, msg: Message, next: Message)
    requires next == msg || (IsLatest(msgs, msg) && !SameKind(next, msg))
    ensures IsLatest(msgs + [next], msg)
  {
    var all := msgs + [next];
    if next == msg {
      assert all[|msgs|] == msg;
    } else {
      var i :| 0 <= i < |msgs| && msgs[i] == msg && forall j :: i < j < |msgs| ==> !SameKind(msgs[j], msg);
      assert all[i] == msg;
    }
  }

  /** The snapshots hold the latest message of each kind, or what they held if there was none. */
  lemma {:induction false} SnapshotsAreLatest(seen: Snapshots, msgs: seq<Message>)
    ensures var r := ReflectAll(seen, msgs);
      && (if exists i :: 0 <= i < |msgs| && msgs[i].PrevHash?
          then r.prevHash.Some? && IsLatest(msgs, PrevHash(r.prevHash.value))
          else r.prevHash == seen.prevHash)
      && (if exists i :: 0 <= i < |msgs| && msgs[i].Template?
          then r.template.Some? && IsLatest(msgs, Template(r.template.value))
          else r.template == seen.template)
  {
    if msgs != [] {
      var r := ReflectAll(seen, msgs);
      SnapshotsAreLatest(seen, Init(msgs));
      hide IsLatest;
      assert msgs == Init(msgs) + [Last(msgs)];
      if exists i :: 0 <= i < |msgs| && msgs[i].PrevHash? {
        assert Last(msgs).PrevHash? || exists i :: 0 <= i < |Init(msgs)| && Init(msgs)[i].PrevHash?;
        LatestExtends(Init(msgs), PrevHash(r.prevHash.value), Last(msgs));
      }
      if exists i :: 0 <= i < |msgs| && msgs[i].Template? {
        assert Last(msgs).Template? || exists i :: 0 <= i < |Init(msgs)| && Init(msgs)[i].Template?;
        LatestExtends(Init(msgs), Template(r.template.value), Last(msgs));
      }
    }
  }

  /**
   * The tee, on everything the template provider will have sent, when the channel manager's
   * side closes after `room` messages. What it forwards is a prefix of the input, complete
   * unless that side closed; and `reflected[k]` is what the snapshots showed when message `k`
   * was handed over: every message up to and including `k`. `observed` messages were looked at.
   */
  method TpToCmTee(tpInput: seq<Message>, room: nat, tdp: TdpHandle)
    returns (cmOutput: seq<Message>, reflected: seq<Snapshots>, observed: nat)
    requires tdp.Valid()
    modifies tdp
    ensures tdp.Valid()
    ensures |cmOutput| == (if |tpInput| <= room then |tpInput| else room)
    ensures cmOutput == tpInput[..|cmOutput|]
    ensures |reflected| == |cmOutput|
    ensures forall k :: 0 <= k < |cmOutput| ==> reflected[k] == ReflectAll(old(tdp.Seen()), tpInput[..k + 1])
    ensures |cmOutput| <= observed <= |tpInput| && observed <= |cmOutput| + 1
    ensures tdp.Seen() == ReflectAll(old(tdp.Seen()), tpInput[..observed])
    ensures tdp.delivered == old(tdp.delivered) + RepliesIn(tpInput[..observed])
  {
    hide TdpInv;
    cmOutput, reflected, observed := [], [], 0;
    for i := 0 to |tpInput|
      invariant tdp.Valid() && i <= room && observed == i
      invariant cmOutput == tpInput[..i] && |reflected| == i
      invariant tdp.Seen() == ReflectAll(old(tdp.Seen()), tpInput[..i])
      invariant tdp.delivered == old(tdp.delivered) + RepliesIn(tpInput[..i])
      invariant forall k :: 0 <= k < i ==> reflected[k] == ReflectAll(old(tdp.Seen()), tpInput[..k + 1])
    {
      var msg := tpInput[i];
      Observe(tdp, msg);
      assert Init(tpInput[..i + 1]) == tpInput[..i] && Last(tpInput[..i + 1]) == msg;
      observed := i + 1;
      if i >= room {
        return;
      }
      cmOutput := cmOutput + [msg];
      reflected := reflected + [tdp.Seen()];
    }
    assert tpInput[..|tpInput|] == tpInput;
  }

  method Observe(tdp: TdpHandle, msg: Message)
    requires tdp.Valid()
    modifies tdp
    ensures tdp.Valid()
    ensures tdp.Seen() == Reflect(old(tdp.Seen()), msg)
    ensures tdp.delivered == old(tdp.delivered) + if msg.TxData? then [msg.reply] else []
  {
    match msg {
      case PrevHash(snph) => tdp.RecordSetNewPrevHash(snph);
      case Template(nt) => tdp.RecordNewTemplate(nt);
      case TxData(reply) => var _ := tdp.DeliverResponse(reply);
      case _ =>
    }
  }

  // ------------------------------------------------------------------
  // Merge
  // ------------------------------------------------------------------

  /** One input channel: everything sent into it, how much has been received, and whether it is closed. */
  datatype Channel = Channel(sent: seq<Message>, received: nat, closed: bool) {
    predicate Valid() { received <= |sent| }
    function Queue(): seq<Message>
      requires Valid()
    { sent[received..] }
  }

  datatype Side = FromCm | FromEngine

  /**
   * `Both` selects between the inputs, `Draining` has seen one end and empties the other.
   * `Finished` has seen both ends; `CutShort` saw one end and a closed flag on the other
   * (`left` is that other one); `OutputGone` could not send.
   */
  datatype Mode = Both | Draining(side: Side) | Finished | CutShort(left: Side) | OutputGone

  datatype Merge = Merge(cm: Channel, engine: Channel, output: seq<(Side, Message)>, outputOpen: bool, mode: Mode)

  const MERGE_START: Merge := Merge(Channel([], 0, false), Channel([], 0, false), [], true, Both)

  datatype MergeEvent =
    | SendInto(side: Side, msg: Message)
    | CloseInput(side: Side)
    | CloseOutput
    | Receive(side: Side)

  function Input(m: Merge, side: Side): Channel {
    if side == FromCm then m.cm else m.engine
  }

  function Opposite(side: Side): Side {
    if side == FromCm then FromEngine else FromCm
  }

  function WithInput(m: Merge, side: Side, c: Channel): Merge {
    if side == FromCm then m.(cm := c) else m.(engine := c)
  }

  predicate Listening(m: Merge, side: Side) {
    m.mode == Both || m.mode == Draining(side)
  }

  /** One `recv` on that side completing, and what the merge does with it. */
  function ReceiveStep(m: Merge, side: Side): (r: Merge)
    requires m.cm.Valid() && m.engine.Valid()
    ensures r.cm.Valid() && r.engine.Valid()
  {
    var c := Input(m, side);
    if !Listening(m, side) then m
    else if c.Queue() != [] then
      var m' := WithInput(m, side, c.(received := c.received + 1));
      if m.outputOpen then m'.(output := m.output + [(side, c.Queue()[0])]) else m'.(mode := OutputGone)
    else if !c.closed then m
    else if m.mode.Draining? then m.(mode := Finished)
    else if Input(m, Opposite(side)).closed then m.(mode := CutShort(Opposite(side)))
    else m.(mode := Draining(Opposite(side)))
  }

  function MergeStep(m: Merge, e: MergeEvent): (r: Merge)
    requires m.cm.Valid() && m.engine.Valid()
    ensures r.cm.Valid() && r.engine.Valid()
  {
    match e
    case SendInto(side, msg) =>
      var c := Input(m, side);
      if c.closed then m else WithInput(m, side, c.(sent := c.sent + [msg]))
    case CloseInput(side) => WithInput(m, side, Input(m, side).(closed := true))
    case CloseOutput => m.(outputOpen := false)
    case Receive(side) => ReceiveStep(m, side)
  }

  function Merged(events: seq<MergeEvent>): (m: Merge)
    ensures m.cm.Valid() && m.engine.Valid()
  {
    if events == [] then MERGE_START else MergeStep(Merged(Init(events)), Last(events))
  }

  /** What the output holds of one side. */
  function Part(output: seq<(Side, Message)>, side: Side): seq<Message> {
    if output == [] then []
    else Part(Init(output), side) + if Last(output).0 == side then [Last(output).1] else []
  }

  /** All that was received of this side was forwarded, in order, save at most one lost to a closed output. */
  predicate SideAccounted(m: Merge, side: Side) {
    var c := Input(m, side);
    && c.Valid()
    && |Part(m.output, side)| <= c.received
    && Part(m.output, side) == c.sent[..|Part(m.output, side)|]
    && (m.mode != OutputGone ==> |Part(m.output, side)| == c.received)
  }

  predicate Ended(m: Merge, side: Side) {
    Input(m, side).Valid() && Input(m, side).closed && Input(m, side).Queue() == []
  }

  ghost predicate MergeInv(m: Merge) {
    && SideAccounted(m, FromCm) && SideAccounted(m, FromEngine)
    && (m.mode == OutputGone ==> !m.outputOpen)
    && match m.mode
       case Draining(side) => Ended(m, Opposite(side))
       case Finished => Ended(m, FromCm) && Ended(m, FromEngine)
       case CutShort(left) => Ended(m, Opposite(left)) && Input(m, left).closed
       case _ => true
  }

  lemma PartAppend(output: seq<(Side, Message)>, from: Side, msg: Message, side: Side)
    ensures Part(output + [(from, msg)], side) == Part(output, side) + if from == side then [msg] else []
  {
    assert Init(output + [(from, msg)]) == output;
  }

  lemma ReceiveKeepsInv(m: Merge, side: Side)
    requires MergeInv(m)
    ensures MergeInv(ReceiveStep(m, side))
  {
    var c := Input(m, side);
    if Listening(m, side) && c.Queue() != [] {
      PartAppend(m.output, side, c.Queue()[0], FromCm);
      PartAppend(m.output, side, c.Queue()[0], FromEngine);
      assert c.sent[..c.received + 1] == c.sent[..c.received] + [c.Queue()[0]];
    }
  }

  lemma MergeStepKeepsInv(m: Merge, e: MergeEvent)
    requires MergeInv(m)
    ensures MergeInv(MergeStep(m, e))
  {
    hide Part;
    match e
    case Receive(side) => ReceiveKeepsInv(m, side);
    case _ =>
  }

  lemma {:induction false} EveryMergeKeepsInv(events: seq<MergeEvent>)
    ensures MergeInv(Merged(events))
  {
    if events != [] {
      EveryMergeKeepsInv(Init(events));
      MergeStepKeepsInv(Merged(Init(events)), Last(events));
    }
  }

  /** `out` is a shuffle of `a` and `b`, each in its own order. */
  ghost predicate Interleaves(out: seq<Message>, a: seq<Message>, b: seq<Message>) {
    if out == [] then a == [] && b == []
    else
      || (a != [] && Last(a) == Last(out) && Interleaves(Init(out), Init(a), b))
      || (b != [] && Last(b) == Last(out) && Interleaves(Init(out), a, Init(b)))
  }

  function Messages(output: seq<(Side, Message)>): seq<Message> {
    seq(|output|, i requires 0 <= i < |output| => output[i].1)
  }

  lemma {:induction false} OutputInterleavesParts(output: seq<(Side, Message)>)
    ensures Interleaves(Messages(output), Part(output, FromCm), Part(output, FromEngine))
  {
    if output != [] {
      OutputInterleavesParts(Init(output));
      assert Init(Messages(output)) == Messages(Init(output));
      assert Init(Part(output, Last(output).0)) == Part(Init(output), Last(output).0);
      assert Part(output, Opposite(Last(output).0)) == Part(Init(output), Opposite(Last(output).0));
    }
  }

  /** At every moment of every run the output shuffles a prefix of each input. */
  lemma MergeForwardsPrefixes(events: seq<MergeEvent>)
    ensures var m := Merged(events); var a, b := Part(m.output, FromCm), Part(m.output, FromEngine);
      && Interleaves(Messages(m.output), a, b)
      && |a| <= |m.cm.sent| && a == m.cm.sent[..|a|]
      && |b| <= |m.engine.sent| && b == m.engine.sent[..|b|]
  {
    EveryMergeKeepsInv(events);
    OutputInterleavesParts(Merged(events).output);
    hide Part, Merged;
  }

  predicate Exited(m: Merge) {
    m.mode.Finished? || m.mode.CutShort? || m.mode.OutputGone?
  }

  predicate Complete(m: Merge) {
    Part(m.output, FromCm) == m.cm.sent && Part(m.output, FromEngine) == m.engine.sent
  }

  /** The `i`th event is where the merge, still selecting, finds that side closed and empty. */
  predicate SeesEnd(events: seq<MergeEvent>, i: nat, side: Side) {
    && i < |events| && events[i] == Receive(side)
    && Merged(events[..i]).mode == Both && Ended(Merged(events[..i]), side)
  }

  /** ... while the other side is closed too and still holds messages. */
  predicate LeavesMessages(events: seq<MergeEvent>, i: nat, side: Side) {
    && SeesEnd(events, i, side)
    && var other := Input(Merged(events[..i]), Opposite(side));
    other.closed && other.Queue() != []
  }

  predicate HasLeft(m: Merge, side: Side) {
    m.cm.Valid() && m.engine.Valid() && m.mode == CutShort(side) && Input(m, side).Queue() != []
  }

  /** Once it has left through the closed-flag test nothing moves any more. */
  lemma CutShortStays(m: Merge, e: MergeEvent)
    requires MergeInv(m)
    ensures m.mode.CutShort? ==>
      var m' := MergeStep(m, e); m'.mode == m.mode && m'.cm == m.cm && m'.engine == m.engine
  {
    hide Part;
  }

  /** One event ends with messages left if they were left before, or if it leaves them itself. */
  lemma LeftByOneEvent(m: Merge, e: MergeEvent, side: Side)
    requires MergeInv(m)
    ensures HasLeft(MergeStep(m, e), Opposite(side)) <==>
      || HasLeft(m, Opposite(side))
      || (e == Receive(side) && m.mode == Both && Ended(m, side)
          && Input(m, Opposite(side)).closed && Input(m, Opposite(side)).Queue() != [])
  {
    hide Part;
    CutShortStays(m, e);
  }

  lemma SameBeforeLast(events: seq<MergeEvent>, i: nat)
    requires events != [] && i < |events|
    ensures events[..i] == Init(events)[..i]
    ensures if i < |events| - 1 then events[i] == Init(events)[i] else events[i] == Last(events) && events[..i] == Init(events)
  {
  }

  lemma OnlyEventsLeave(events: seq<MergeEvent>, side: Side)
    ensures forall i: nat :: LeavesMessages(events, i, side) ==> i < |events|
  {
    hide Merged, Ended;
  }

  lemma {:induction false} LeftIff(events: seq<MergeEvent>, side: Side)
    ensures HasLeft(Merged(events), Opposite(side)) <==> exists i :: LeavesMessages(events, i, side)
  {
    if events != [] {
      var before := Init(events);
      LeftIff(before, side);
      EveryMergeKeepsInv(before);
      LeftByOneEvent(Merged(before), Last(events), side);
      hide MergeInv, HasLeft, Ended, MergeStep;
      SameBeforeLast(events, |before|);
      assert Merged(events) == MergeStep(Merged(before), Last(events));
      hide Merged;
      forall i: nat | i < |before|
        ensures LeavesMessages(events, i, side) <==> LeavesMessages(before, i, side)
      {
        SameBeforeLast(events, i);
      }
      var m, other := Merged(before), Input(Merged(before), Opposite(side));
      assert LeavesMessages(events, |before|, side) <==>
        Last(events) == Receive(side) && m.mode == Both && Ended(m, side) && other.closed && other.Queue() != [];
      assert events[|before|] == Last(events);
      hide LeavesMessages;
      assert (exists i :: LeavesMessages(before, i, side))
        <==> exists i: nat :: i < |before| && LeavesMessages(events, i, side) by {
        OnlyEventsLeave(before, side);
      }
      OnlyEventsLeave(events, side);
    }
  }

  /**
   * With the output open to the end, the merge delivers everything if and only if it never
   * reached the end of one input while the other was closed and still held messages: the
   * closed-flag test then leaves, and those messages stay behind.
   */
  lemma MergeCompleteIff(events: seq<MergeEvent>)
    requires Exited(Merged(events)) && Merged(events).outputOpen
    ensures Merged(events).cm.closed && Merged(events).engine.closed
    ensures Complete(Merged(events)) <==> !exists i, side :: LeavesMessages(events, i, side)
  {
    CompleteUnlessLeft(events);
    hide Merged, Complete, HasLeft, LeavesMessages, Exited;
    LeftIff(events, FromCm);
    LeftIff(events, FromEngine);
    var m := Merged(events);
    if side: Side :| HasLeft(m, Opposite(side)) {
      LeftIff(events, side);
    }
    forall i, side | LeavesMessages(events, i, side) ensures HasLeft(m, FromCm) || HasLeft(m, FromEngine) {
      LeftIff(events, side);
    }
    assert Opposite(FromCm) == FromEngine && Opposite(FromEngine) == FromCm;
  }

  lemma CompleteUnlessLeft(events: seq<MergeEvent>)
    requires Exited(Merged(events)) && Merged(events).outputOpen
    ensures var m := Merged(events);
      m.cm.closed && m.engine.closed && (Complete(m) <==> !HasLeft(m, FromCm) && !HasLeft(m, FromEngine))
  {
    EveryMergeKeepsInv(events);
    hide Part, Merged;
  }

  /** Having stopped selecting, the merge never selects again. */
  lemma {:induction false} SelectingIsOver(events: seq<MergeEvent>, i: nat)
    requires i <= |events| && Merged(events[..i]).mode != Both
    ensures Merged(events).mode != Both
  {
    if i == |events| {
      assert events[..i] == events;
    } else {
      assert events[..i] == Init(events)[..i];
      SelectingIsOver(Init(events), i);
    }
  }

  /** One end is seen first, once: every other end is met while draining. */
  lemma SeesOneEnd(events: seq<MergeEvent>, i: nat, side: Side, j: nat, side': Side)
    requires SeesEnd(events, i, side) && SeesEnd(events, j, side')
    ensures i == j && side == side'
  {
    if i < j {
      SeesEndStopsSelecting(events, i, side);
      assert events[..j][..i + 1] == events[..i + 1];
      SelectingIsOver(events[..j], i + 1);
    } else if j < i {
      SeesEndStopsSelecting(events, j, side');
      assert events[..i][..j + 1] == events[..j + 1];
      SelectingIsOver(events[..i], j + 1);
    }
  }

  lemma SeesEndStopsSelecting(events: seq<MergeEvent>, i: nat, side: Side)
    requires SeesEnd(events, i, side)
    ensures Merged(events[..i + 1]).mode != Both
  {
    assert Init(events[..i + 1]) == events[..i];
  }

  /** In particular everything is delivered if the other input was still open when one end was reached. */
  lemma CompleteIfOtherWasOpen(events: seq<MergeEvent>, i: nat, side: Side)
    requires Exited(Merged(events)) && Merged(events).outputOpen
    requires SeesEnd(events, i, side) && !Input(Merged(events[..i]), Opposite(side)).closed
    ensures Complete(Merged(events))
  {
    MergeCompleteIff(events);
    hide Merged, Complete, SeesEnd;
    forall j, side' ensures !LeavesMessages(events, j, side') {
      if LeavesMessages(events, j, side') { SeesOneEnd(events, i, side, j, side'); }
    }
  }

  /** A message can indeed be left behind: both inputs close, and the empty one is looked at first. */
  lemma ClosedQueueCanBeLeft(msg: Message)
    ensures var m := Merged([SendInto(FromEngine, msg)] + [CloseInput(FromEngine)] + [CloseInput(FromCm)] + [Receive(FromCm)]);
      && m.mode == CutShort(FromEngine) && m.outputOpen && m.engine.sent == [msg] && m.output == []
  {
    var e1 := [SendInto(FromEngine, msg)];
    var e2 := e1 + [CloseInput(FromEngine)];
    var e3 := e2 + [CloseInput(FromCm)];
    assert Init(e1) == [] && Init(e2) == e1 && Init(e3) == e2 && Init(e3 + [Receive(FromCm)]) == e3;
    assert Merged(e1) == MERGE_START.(engine := Channel([msg], 0, false));
    assert Merged(e2) == MERGE_START.(engine := Channel([msg], 0, true));
    assert Merged(e3) == Merge(Channel([], 0, true), Channel([msg], 0, true), [], true, Both);
  }
}
