/**
 * The five shared slots in which tasks wait for a message: claiming in `eSL_MessageWait`,
 * delivery in `eSL_MessageQueue`. The loops are proved against functions on the slot array.
 */
module WaitSlots {
  import opened Bytes
  import opened SerialFrame

  const SLOTS: nat := 5
  const E_SL_MSG_STATUS: u16 := 0x8000

  /** What `pu8Message` points to: nothing, the waiter's own status request, or the copy of a received message. */
  datatype Held = Nothing | Request(command: u16) | Received(message: Message)

  /** One slot and the event bit of its event group. Type 0 marks a free slot. */
  datatype Slot = Slot(msgType: u16, held: Held, bit: bool)

  datatype Status = Ok | NoMessage | Error

  function ByteAt(s: seq<u8>, i: nat): u8 { if i < |s| then s[i] else 0 }

  /** The command a received status answers, `pri_ntohs(u16MessageType)`. */
  function Answers(m: Message): u16 { Word(ByteAt(m.payload, 2), ByteAt(m.payload, 3)) }

  /** The command the slot waits for; a copy already received is read again without the byte swap. */
  function WaitsFor(h: Held): (c: u16)
    requires !h.Nothing?
  {
    match h
    case Request(c) => c
    case Received(m) => Word(ByteAt(m.payload, 3), ByteAt(m.payload, 2))
  }

  /** A status slot that waits for another command: it is released instead of served. */
  predicate Mismatch(s: Slot, m: Message) {
    m.msgType == E_SL_MSG_STATUS && !s.held.Nothing? && WaitsFor(s.held) != Answers(m)
  }

  function Delivered(s: Slot, m: Message): Slot { s.(held := Received(m), bit := true) }

  /** The pass over the slots from `i` on. */
  function Queue(slots: seq<Slot>, m: Message, i: nat): (r: (seq<Slot>, Status))
    requires i <= |slots|
    ensures |r.0| == |slots|
    decreases |slots| - i
  {
    if i == |slots| then (slots, NoMessage)
    else if slots[i].msgType != m.msgType then Queue(slots, m, i + 1)
    else if Mismatch(slots[i], m) then Queue(slots[i := slots[i].(msgType := 0)], m, i + 1)
    else (slots[i := Delivered(slots[i], m)], Ok)
  }

  /** First index at or after `i` whose slot has type `t`, or the number of slots. */
  function FirstOfType(slots: seq<Slot>, t: u16, i: nat): (k: nat)
    requires i <= |slots|
    ensures i <= k <= |slots|
    ensures k < |slots| ==> slots[k].msgType == t
    ensures forall j :: i <= j < k ==> slots[j].msgType != t
    decreases |slots| - i
  {
    if i == |slots| || slots[i].msgType == t then i else FirstOfType(slots, t, i + 1)
  }

  /** The slot as it is once claimed. */
  function Claimed(s: Slot, t: u16, request: u16): Slot {
    Slot(t, if t == E_SL_MSG_STATUS then Request(request) else s.held, s.bit)
  }

  class SlotArray {
    const slots: array<Slot>

    constructor ()
      ensures fresh(slots) && slots.Length == SLOTS
      ensures forall i :: 0 <= i < SLOTS ==> slots[i] == Slot(0, Nothing, false)
    {
      slots := new Slot[SLOTS](i => Slot(0, Nothing, false));
    }

    /** The claiming loop; the caller waits on slot `i` when the status is Ok. */
    method Claim(t: u16, request: u16) returns (status: Status, i: nat)
      modifies slots
      ensures i == FirstOfType(old(slots[..]), 0, 0)
      ensures status == if i < slots.Length then Ok else Error
      ensures slots[..] == if i < slots.Length then old(slots[..])[i := Claimed(old(slots[..])[i], t, request)] else old(slots[..])
    {
      i := 0;
      while i < slots.Length
        invariant i <= slots.Length && slots[..] == old(slots[..])
        invariant FirstOfType(slots[..], 0, i) == FirstOfType(slots[..], 0, 0)
      {
        if slots[i].msgType == 0 {
          slots[i] := Claimed(slots[i], t, request);
          return Ok, i;
        }
        i := i + 1;
      }
      status := Error;
    }

    method MessageQueue(m: Message) returns (status: Status)
      modifies slots
      ensures (slots[..], status) == Queue(old(slots[..]), m, 0)
    {
      var i := 0;
      while i < slots.Length
        invariant i <= slots.Length
        invariant Queue(slots[..], m, i) == Queue(old(slots[..]), m, 0)
      {
        if slots[i].msgType == m.msgType {
          if Mismatch(slots[i], m) {
            slots[i] := slots[i].(msgType := 0);
          } else {
            slots[i] := Delivered(slots[i], m);
            return Ok;
          }
        }
        i := i + 1;
      }
      status := NoMessage;
    }
  }

  /** Away from status messages, delivery goes to the first slot of the type and touches no other. */
  lemma {:induction false} QueueFirstOfType(slots: seq<Slot>, m: Message, i: nat)
    requires i <= |slots| && m.msgType != E_SL_MSG_STATUS
    ensures var k := FirstOfType(slots, m.msgType, i);
            Queue(slots, m, i) ==
            if k < |slots| then (slots[k := Delivered(slots[k], m)], Ok) else (slots, NoMessage)
    decreases |slots| - i
  {
    if i < |slots| && slots[i].msgType != m.msgType {
      QueueFirstOfType(slots, m, i + 1);
    }
  }

  // ---- Status replies ----

  predicate WaitsForStatus(s: Slot) { s.msgType == E_SL_MSG_STATUS }

  /** `k` is the first slot at or after `i` that waits for the status of command `c`, or there is none and `k` is the end. */
  predicate FirstWaiter(slots: seq<Slot>, c: u16, i: nat, k: nat) {
    && i <= k <= |slots|
    && (k < |slots| ==> WaitsForStatus(slots[k]) && slots[k].held == Request(c))
    && forall j :: i <= j < k ==> !(WaitsForStatus(slots[j]) && slots[j].held == Request(c))
  }

  /** `after` is `before` with the status slots in `[i, k)` released. */
  predicate StatusReleased(before: seq<Slot>, after: seq<Slot>, i: nat, k: nat) {
    && |after| == |before|
    && forall j :: 0 <= j < |before| ==>
      after[j] == if i <= j < k && WaitsForStatus(before[j]) then before[j].(msgType := 0) else before[j]
  }

  /**
   * Status reply routing: a reply to command `c` goes to the first slot that waits for `c`; exactly the
   * status slots before it are released; nothing else changes; and it finds no waiter exactly
   * when no slot waits for `c`, in which case every status slot is released.
   */
  lemma {:induction false} StatusRouting(slots: seq<Slot>, m: Message, i: nat, k: nat)
    requires m.msgType == E_SL_MSG_STATUS
    requires forall j :: 0 <= j < |slots| && WaitsForStatus(slots[j]) ==> slots[j].held.Request?
    requires i <= |slots| && FirstWaiter(slots, Answers(m), i, k)
    ensures Queue(slots, m, i).1 == if k < |slots| then Ok else NoMessage
    ensures k < |slots| ==> Queue(slots, m, i).0[k] == Delivered(slots[k], m)
    ensures k < |slots| ==> StatusReleased(slots, Queue(slots, m, i).0[k := slots[k]], i, k)
    ensures k == |slots| ==> StatusReleased(slots, Queue(slots, m, i).0, i, k)
    decreases |slots| - i
  {
    if i < k {
      var next := if WaitsForStatus(slots[i]) then slots[i := slots[i].(msgType := 0)] else slots;
      StatusRouting(next, m, i + 1, k);
    }
  }
}
