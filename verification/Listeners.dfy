/**
 * Registered callbacks and the callback queue: `eSL_AddListener` on a linked list, the search in
 * the reader task, and the callback task that executes what was queued.
 */
module Listeners {
  import opened Bytes
  import opened SerialFrame

  const SL_MAX_CALLBACK_QUEUES: nat := 5
  const E_SL_MSG_NODE_CLUSTER_LIST: u16 := 0x8003
  const E_SL_MSG_NODE_ATTRIBUTE_LIST: u16 := 0x8004
  const E_SL_MSG_NODE_COMMAND_ID_LIST: u16 := 0x8005

  /** A registration; `callback` stands for the function pointer and its user data. */
  datatype Listener = Listener(msgType: u16, callback: nat)

  /** An entry of the callback queue. */
  datatype Call = Call(callback: nat, message: Message)

  datatype AddStatus = Added | NoMemory

  /** Index of the first listener for type `t`, or the number of listeners. */
  function FirstFor(ls: seq<Listener>, t: u16): (k: nat)
    ensures k <= |ls|
    ensures k < |ls| ==> ls[k].msgType == t
    ensures forall j :: 0 <= j < k ==> ls[j].msgType != t
  {
    if |ls| == 0 || ls[0].msgType == t then 0 else 1 + FirstFor(ls[1..], t)
  }

  predicate Excluded(t: u16) {
    t == E_SL_MSG_NODE_CLUSTER_LIST || t == E_SL_MSG_NODE_ATTRIBUTE_LIST || t == E_SL_MSG_NODE_COMMAND_ID_LIST
  }

  /** The message has a listener and a type the reader dispatches. */
  predicate Wanted(ls: seq<Listener>, m: Message) {
    !Excluded(m.msgType) && FirstFor(ls, m.msgType) < |ls|
  }

  function CallFor(ls: seq<Listener>, m: Message): Call
    requires Wanted(ls, m)
  {
    Call(ls[FirstFor(ls, m.msgType)].callback, m)
  }

  class CallbackEntry {
    const listener: Listener
    var psNext: CallbackEntry?

    constructor (listener: Listener)
      ensures this.listener == listener && psNext == null
    {
      this.listener := listener;
      psNext := null;
    }
  }

  ghost function EntryAt(spine: seq<CallbackEntry>, i: nat): CallbackEntry? {
    if i < |spine| then spine[i] else null
  }

  /** The list from `head` runs through `spine` and ends: it has no cycle. */
  ghost predicate ListThrough(head: CallbackEntry?, spine: seq<CallbackEntry>)
    reads spine
  {
    && (forall i, j :: 0 <= i < j < |spine| ==> spine[i] != spine[j])
    && head == EntryAt(spine, 0)
    && (forall i :: 0 <= i < |spine| ==> spine[i].psNext == EntryAt(spine, i + 1))
  }

  class Dispatcher {
    var psListHead: CallbackEntry?
    ghost var spine: seq<CallbackEntry>
    // sCallbackQueue, and the calls the callback task has made
    var queue: seq<Call>
    var executed: seq<Call>

    ghost predicate Valid()
      reads this, spine
    {
      ListThrough(psListHead, spine) && |queue| <= SL_MAX_CALLBACK_QUEUES
    }

    ghost function Contents(): (ls: seq<Listener>)
      reads this
      ensures |ls| == |spine|
      ensures forall i :: 0 <= i < |spine| ==> ls[i] == spine[i].listener
    {
      seq(|spine|, i requires 0 <= i < |spine| reads this => spine[i].listener)
    }

    ghost function Abs(): State
      reads this
    {
      State(Contents(), queue, executed)
    }

    constructor ()
      ensures Valid() && Abs() == After([])
    {
      psListHead, spine, queue, executed := null, [], [], [];
    }

    /** `memory` is false when the allocation fails. */
    method AddListener(msgType: u16, callback: nat, memory: bool) returns (status: AddStatus)
      requires Valid()
      modifies this`psListHead, this`spine, spine
      ensures Valid()
      ensures status == if memory then Added else NoMemory
      ensures Abs() == if memory then Next(old(Abs()), Register(Listener(msgType, callback))) else old(Abs())
    {
      if !memory {
        return NoMemory;
      }
      var entry := new CallbackEntry(Listener(msgType, callback));
      if psListHead == null {
        psListHead := entry;
      } else {
        var current := psListHead;
        ghost var k := 0;
        while current.psNext != null
          invariant 0 <= k < |spine| && current == spine[k]
          decreases |spine| - k
        {
          current := current.psNext;
          k := k + 1;
        }
        current.psNext := entry;
      }
      spine := spine + [entry];
      status := Added;
    }

    /** The search of the reader task: it stops at the first entry of the type. */
    method FindEntry(t: u16) returns (current: CallbackEntry?)
      requires Valid()
      ensures current == EntryAt(spine, FirstFor(Contents(), t))
    {
      current := psListHead;
      ghost var k := 0;
      while current != null && current.listener.msgType != t
        invariant 0 <= k <= |spine| && current == EntryAt(spine, k)
        invariant forall j :: 0 <= j < k ==> spine[j].listener.msgType != t
        decreases |spine| - k
      {
        current := current.psNext;
        k := k + 1;
      }
      hide FirstFor;
      FirstForIs(Contents(), t, k);
    }

    /** A single call is queued for a message, or none when the queue is full. */
    method Dispatch(m: Message)
      requires Valid()
      modifies this`queue
      ensures Valid() && Abs() == Next(old(Abs()), Arrive(m))
    {
      if m.msgType == E_SL_MSG_NODE_CLUSTER_LIST || m.msgType == E_SL_MSG_NODE_ATTRIBUTE_LIST
         || m.msgType == E_SL_MSG_NODE_COMMAND_ID_LIST {
        return;
      }
      var entry := FindEntry(m.msgType);
      if entry != null && |queue| < SL_MAX_CALLBACK_QUEUES {
        queue := queue + [Call(entry.listener.callback, m)];
      }
    }

    /** The callback task takes the oldest entry and makes the call. */
    method ExecuteOne()
      requires Valid()
      modifies this`queue, this`executed
      ensures Valid() && Abs() == Next(old(Abs()), Execute)
    {
      if |queue| > 0 {
        executed := executed + [queue[0]];
        queue := queue[1..];
      }
    }
  }

  lemma FirstForIs(ls: seq<Listener>, t: u16, k: nat)
    requires k <= |ls| && (k < |ls| ==> ls[k].msgType == t)
    requires forall j :: 0 <= j < k ==> ls[j].msgType != t
    ensures FirstFor(ls, t) == k
  {
  }

  // ---- Runs ----

  datatype Event = Register(listener: Listener) | Arrive(message: Message) | Execute

  datatype State = State(listeners: seq<Listener>, queue: seq<Call>, executed: seq<Call>)

  /** What the methods above do to the abstract state. */
  function Next(s: State, e: Event): State {
    match e
    case Register(l) => s.(listeners := s.listeners + [l])
    case Arrive(m) =>
      if Wanted(s.listeners, m) && |s.queue| < SL_MAX_CALLBACK_QUEUES
      then s.(queue := s.queue + [CallFor(s.listeners, m)]) else s
    case Execute =>
      if |s.queue| == 0 then s else s.(executed := s.executed + [s.queue[0]], queue := s.queue[1..])
  }

  function After(es: seq<Event>): State {
    if |es| == 0 then State([], [], []) else Next(After(es[..|es| - 1]), es[|es| - 1])
  }

  /** The listeners registered so far, in order. */
  function Registered(es: seq<Event>): seq<Listener> {
    if |es| == 0 then []
    else
      var e := es[|es| - 1];
      Registered(es[..|es| - 1]) + if e.Register? then [e.listener] else []
  }

  /** Waiting calls, counted without looking at them. */
  function Occupancy(es: seq<Event>): nat {
    if |es| == 0 then 0
    else
      var n, e := Occupancy(es[..|es| - 1]), es[|es| - 1];
      match e
      case Register(_) => n
      case Arrive(m) => if Wanted(Registered(es[..|es| - 1]), m) && n < SL_MAX_CALLBACK_QUEUES then n + 1 else n
      case Execute => if n > 0 then n - 1 else 0
  }

  /** The arrivals with a registered, non-excluded type, in order, minus those that met a full queue. */
  function Accepted(es: seq<Event>): seq<Call> {
    if |es| == 0 then []
    else
      var front, e := es[..|es| - 1], es[|es| - 1];
      Accepted(front) +
      if e.Arrive? && Wanted(Registered(front), e.message) && Occupancy(front) < SL_MAX_CALLBACK_QUEUES
      then [CallFor(Registered(front), e.message)] else []
  }

  /** Over any run the calls made followed by the calls waiting are the accepted arrivals: none is lost, doubled or reordered. */
  lemma {:induction false} DispatchConservation(es: seq<Event>)
    ensures After(es).executed + After(es).queue == Accepted(es)
    ensures |After(es).queue| == Occupancy(es) <= SL_MAX_CALLBACK_QUEUES
    ensures After(es).listeners == Registered(es)
  {
    if |es| > 0 {
      var front, e := es[..|es| - 1], es[|es| - 1];
      DispatchConservation(front);
      hide Wanted, CallFor, FirstFor;
      match e
      case Register(_) =>
        assert Accepted(es) == Accepted(front);
      case Arrive(m) =>
        ArriveAppends(After(front), m);
        hide Next;
      case Execute =>
        ExecuteMovesOne(After(front));
        assert Accepted(es) == Accepted(front);
    }
  }

  lemma ArriveAppends(s: State, m: Message)
    ensures var t := Next(s, Arrive(m));
            var taken := Wanted(s.listeners, m) && |s.queue| < SL_MAX_CALLBACK_QUEUES;
            && t.executed + t.queue == s.executed + s.queue + (if taken then [CallFor(s.listeners, m)] else [])
            && |t.queue| == (if taken then |s.queue| + 1 else |s.queue|) && t.listeners == s.listeners
  {
    hide Wanted, CallFor;
  }

  lemma ExecuteMovesOne(s: State)
    ensures Next(s, Execute).executed + Next(s, Execute).queue == s.executed + s.queue
  {
    if |s.queue| > 0 {
      assert s.queue == [s.queue[0]] + s.queue[1..];
    }
  }

  /** The first registration for a type is the one that stays in force. */
  lemma {:induction false} FirstRegistrationWins(ls: seq<Listener>, more: seq<Listener>, t: u16)
    requires FirstFor(ls, t) < |ls|
    ensures FirstFor(ls + more, t) == FirstFor(ls, t)
  {
    FirstForIs(ls + more, t, FirstFor(ls, t));
  }

  // ---- Whose callback it is ----

  /** The callback of `c` is that of the first listener for the type of its message. */
  predicate FirstServes(ls: seq<Listener>, c: Call) {
    exists k :: 0 <= k < |ls| && ls[k].msgType == c.message.msgType && ls[k].callback == c.callback
                && forall j :: 0 <= j < k ==> ls[j].msgType != c.message.msgType
  }

  /** At step `i` of the run the message of `c` arrived, with the listeners registered by then. */
  predicate CalledFor(es: seq<Event>, c: Call, i: nat) {
    i < |es| && es[i] == Arrive(c.message) && FirstServes(Registered(es[..i]), c)
  }

  lemma CallForServes(ls: seq<Listener>, m: Message)
    requires Wanted(ls, m)
    ensures FirstServes(ls, CallFor(ls, m)) && CallFor(ls, m).message == m
  {
    assert ls[FirstFor(ls, m.msgType)].callback == CallFor(ls, m).callback;
  }

  /** At step `h` the callback of `c` was registered for its type, and at no step before that any other. */
  predicate RegisteredFirst(es: seq<Event>, c: Call, h: nat) {
    && h < |es| && es[h] == Register(Listener(c.message.msgType, c.callback))
    && forall g :: 0 <= g < h ==> !(es[g].Register? && es[g].listener.msgType == c.message.msgType)
  }

  lemma {:induction false} NoneRegistered(es: seq<Event>, t: u16)
    requires forall k :: 0 <= k < |Registered(es)| ==> Registered(es)[k].msgType != t
    ensures forall g :: 0 <= g < |es| ==> !(es[g].Register? && es[g].listener.msgType == t)
  {
    if |es| > 0 {
      var front, e := es[..|es| - 1], es[|es| - 1];
      assert forall k :: 0 <= k < |Registered(front)| ==> Registered(front)[k] == Registered(es)[k];
      NoneRegistered(front, t);
      if e.Register? {
        assert Registered(es)[|Registered(front)|] == e.listener;
      }
    }
  }

  lemma {:induction false} FirstOfRun(es: seq<Event>, c: Call) returns (h: nat)
    requires FirstServes(Registered(es), c)
    ensures RegisteredFirst(es, c, h)
  {
    var front, e := es[..|es| - 1], es[|es| - 1];
    if FirstServes(Registered(front), c) {
      h := FirstOfRun(front, c);
    } else {
      h := |es| - 1;
      var ls, more := Registered(front), Registered(es);
      var k :| 0 <= k < |more| && more[k].msgType == c.message.msgType && more[k].callback == c.callback
               && forall j :: 0 <= j < k ==> more[j].msgType != c.message.msgType;
      if k < |ls| {
        assert ls[k] == more[k] && forall j :: 0 <= j < k ==> ls[j] == more[j];
        assert FirstServes(ls, c);
      }
      assert forall j :: 0 <= j < |ls| ==> ls[j] == more[j];
      NoneRegistered(front, c.message.msgType);
    }
  }

  /**
   * Over any run every call made or waiting is for a message that arrived, with the callback that was registered for its
   * type before that arrival and before any other for the type.
   */
  lemma {:induction false} CallIsForFirstListener(es: seq<Event>, c: Call) returns (h: nat, i: nat)
    requires c in After(es).executed + After(es).queue
    ensures h < i < |es| && es[i] == Arrive(c.message) && RegisteredFirst(es, c, h)
  {
    DispatchConservation(es);
    i := AcceptedIsCalledFor(es, c);
    h := FirstOfRun(es[..i], c);
  }

  lemma {:induction false} AcceptedIsCalledFor(es: seq<Event>, c: Call) returns (i: nat)
    requires c in Accepted(es)
    ensures CalledFor(es, c, i)
  {
    hide Wanted, FirstServes;
    var front, e := es[..|es| - 1], es[|es| - 1];
    if c in Accepted(front) {
      i := AcceptedIsCalledFor(front, c);
      assert front[..i] == es[..i];
    } else {
      i := |es| - 1;
      CallForServes(Registered(front), e.message);
    }
  }

  /**
   * An arrival is queued if and only if the queue has room, its type is none of the three list types, and a listener is
   * registered for it; and nothing else changes.
   */
  lemma {:induction false} ArrivalIsQueuedExactlyWhen(es: seq<Event>, m: Message)
    ensures var s, t := After(es), After(es + [Arrive(m)]);
            && t.executed == s.executed && t.listeners == s.listeners
            && if |s.queue| < 5 && m.msgType !in {0x8003, 0x8004, 0x8005}
                  && (exists k :: 0 <= k < |s.listeners| && s.listeners[k].msgType == m.msgType)
               then |t.queue| == |s.queue| + 1 && t.queue[..|s.queue|] == s.queue
                    && t.queue[|s.queue|].message == m && FirstServes(s.listeners, t.queue[|s.queue|])
               else t.queue == s.queue
  {
    assert (es + [Arrive(m)])[..|es|] == es;
    var ls := After(es).listeners;
    if Wanted(ls, m) {
      CallForServes(ls, m);
    }
    if k :| 0 <= k < |ls| && ls[k].msgType == m.msgType {
      assert FirstFor(ls, m.msgType) <= k;
    }
  }
}
