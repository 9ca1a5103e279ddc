/**
 * The bounded broadcast that carries tip changes: a ring of `BROADCAST_CAPACITY` slots that
 * overwrites its oldest entry, and receivers that may lag behind it
 * (crates/sv2-p2pool-engine/src/reorg_detector.rs).
 */
module Broadcast {
  import opened Primitives

  const BROADCAST_CAPACITY: nat := 256

  datatype Received = Empty | Tip(tip: Hash) | Lagged(missed: nat)

  /**
   * What a receiver that has seen `next` of the tips sent so far gets, and where that leaves
   * it: an overwritten tip shows as a lag, and moves it to the oldest tip still held.
   */
  function Receive(sent: seq<Hash>, next: nat): (r: (Received, nat))
    requires next <= |sent|
    ensures next <= r.1 <= |sent|
    ensures r.0.Empty? <==> r.1 == next
  {
    if next == |sent| then (Empty, next)
    else if |sent| - next > BROADCAST_CAPACITY then
      (Lagged(|sent| - BROADCAST_CAPACITY - next), |sent| - BROADCAST_CAPACITY)
    else (Tip(sent[next]), next + 1)
  }

  /** How many receives empty a backlog of that size. */
  function Rounds(backlog: nat): (n: nat)
    ensures n <= BROADCAST_CAPACITY + 1
    ensures n == 0 <==> backlog == 0
  {
    if backlog > BROADCAST_CAPACITY then BROADCAST_CAPACITY + 1 else backlog
  }

  lemma ReceiveShortensBacklog(sent: seq<Hash>, next: nat)
    requires next < |sent|
    ensures Rounds(|sent| - Receive(sent, next).1) == Rounds(|sent| - next) - 1
  {
  }

  /** A slot remembers which send filled it; a slot never filled counts as one lap earlier. */
  datatype Slot = Slot(pos: int, tip: Hash)

  predicate Holds(slots: seq<Slot>, sent: seq<Hash>, i: int)
    requires |slots| == BROADCAST_CAPACITY && i < |sent|
  {
    slots[i % BROADCAST_CAPACITY].pos == i && (i >= 0 ==> slots[i % BROADCAST_CAPACITY].tip == sent[i])
  }

  lemma WindowIndicesDiffer(i: int, pos: int)
    requires pos - BROADCAST_CAPACITY < i < pos
    ensures i % BROADCAST_CAPACITY != pos % BROADCAST_CAPACITY
  {
  }

  class TipBroadcast {
    const buffer: array<Slot>
    var pos: nat
    ghost var sent: seq<Hash>

    ghost predicate Valid()
      reads this, buffer
    {
      && buffer.Length == BROADCAST_CAPACITY
      && pos == |sent|
      && forall i :: pos - BROADCAST_CAPACITY <= i < pos ==> Holds(buffer[..], sent, i)
    }

    constructor ()
      ensures Valid() && fresh(buffer) && sent == []
    {
      buffer := new Slot[BROADCAST_CAPACITY](i => Slot(i - BROADCAST_CAPACITY, ZERO_HASH));
      pos, sent := 0, [];
      new;
      forall i | 0 - BROADCAST_CAPACITY <= i < 0 ensures Holds(buffer[..], sent, i) {
        assert i % BROADCAST_CAPACITY == i + BROADCAST_CAPACITY;
      }
    }

    method Send(tip: Hash)
      requires Valid()
      modifies this, buffer
      ensures Valid() && sent == old(sent) + [tip]
    {
      ghost var before, was := buffer[..], sent;
      var at := pos % BROADCAST_CAPACITY;
      buffer[at] := Slot(pos, tip);
      sent := sent + [tip];
      pos := pos + 1;
      forall i | pos - BROADCAST_CAPACITY <= i < pos ensures Holds(buffer[..], sent, i) {
        if i < |was| {
          WindowIndicesDiffer(i, |was|);
          assert Holds(before, was, i);
        }
      }
    }

    /** Reads the slot for position `next`; its stamp tells a fresh tip from nothing or a lag. */
    method Recv(next: nat) returns (received: Received, next': nat)
      requires Valid() && next <= pos
      ensures (received, next') == Receive(sent, next)
      ensures received.Empty? <==> next == |sent|
      ensures received.Tip? <==> next < |sent| <= next + BROADCAST_CAPACITY
      ensures received.Tip? ==> received.tip == sent[next] && next' == next + 1
      ensures received.Lagged? ==> next' == |sent| - BROADCAST_CAPACITY && received.missed == next' - next
    {
      var slot := buffer[next % BROADCAST_CAPACITY];
      if pos - BROADCAST_CAPACITY <= next < pos {
        assert Holds(buffer[..], sent, next);
      } else if next == pos {
        assert Holds(buffer[..], sent, next - BROADCAST_CAPACITY);
      } else {
        SlotWasOverwritten(next);
      }
      if slot.pos == next {
        return Tip(slot.tip), next + 1;
      }
      if slot.pos + BROADCAST_CAPACITY == next {
        return Empty, next;
      }
      var oldest := pos - BROADCAST_CAPACITY;
      return Lagged(oldest - next), oldest;
    }

    /** A slot whose position has left the window carries a later stamp. */
    lemma SlotWasOverwritten(next: nat)
      requires Valid() && next < pos - BROADCAST_CAPACITY
      ensures buffer[next % BROADCAST_CAPACITY].pos > next
    {
      var base := pos - BROADCAST_CAPACITY;
      var i := base + (next - base) % BROADCAST_CAPACITY;
      assert i % BROADCAST_CAPACITY == next % BROADCAST_CAPACITY;
      assert Holds(buffer[..], sent, i);
    }
  }
}
