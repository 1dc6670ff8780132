/**
 * Tasks that wait in the slots, the reader that delivers and the kernel's timeouts, interleaved one critical section at a
 * time. `eSL_MessageWait` is split into the test of each slot, the return from the event wait, the release of the slot
 * and the read of the message pointer; `eSL_MessageQueue` into the test of each slot and the setting of the event bit.
 */
module WaitMachine {
  import opened Bytes
  import opened Options
  import opened SerialFrame
  import opened WaitSlots

  /** What a task waits for: a message type and, for a status, the command it answers. */
  datatype Wanted = Wanted(msgType: u16, command: u16)

  predicate Fulfils(m: Message, want: Wanted) {
    m.msgType == want.msgType && (want.msgType == E_SL_MSG_STATUS ==> Answers(m) == want.command)
  }

  /**
   * Where a task stands in `eSL_MessageWait`. `since` counts the messages that had been put into slots when its own was
   * claimed, so a message with number `since` or more was put there after the claim.
   */
  datatype Phase =
    | Idle
    | Scanning(slot: nat, want: Wanted)
    | Waiting(slot: nat, want: Wanted, since: nat)
    | Closing(slot: nat, want: Wanted, since: nat, woken: bool)
    | Fetching(slot: nat, want: Wanted, since: nat)
    | TimedOut
    | Done(want: Wanted, since: nat, held: Held, number: nat)
    | Refused
  {
    predicate Holds() { Waiting? || Closing? }
    predicate Owns(k: nat) { Holds() && slot == k }
    predicate AtRest() { Idle? || TimedOut? || Done? || Refused? }
  }

  /** Where the reader stands in `eSL_MessageQueue`. */
  datatype ReaderPhase = Ready | Looking(slot: nat, message: Message) | Copied(slot: nat)

  /** `delivered` are the messages put into slots, in order; `number[k]` is the place there of the last one put into slot `k`. */
  datatype State = State(slots: seq<Slot>, number: seq<nat>, tasks: seq<Phase>, reader: ReaderPhase, delivered: seq<Message>)

  datatype Event =
    | Begin(w: nat, want: Wanted)
    | Probe(w: nat)
    | Wake(w: nat)
    | Expire(w: nat)
    | Release(w: nat)
    | Fetch(w: nat)
    | Arrive(message: Message)
    | Look
    | Signal

  predicate Sized(s: State) { |s.slots| == SLOTS && |s.number| == SLOTS }

  predicate Enabled(s: State, e: Event) {
    && Sized(s)
    && match e
       case Begin(w, _) => w < |s.tasks| && s.tasks[w].AtRest()
       case Probe(w) => w < |s.tasks| && s.tasks[w].Scanning? && s.tasks[w].slot < SLOTS
       case Wake(w) => w < |s.tasks| && s.tasks[w].Waiting? && s.tasks[w].slot < SLOTS && s.slots[s.tasks[w].slot].bit
       case Expire(w) => w < |s.tasks| && s.tasks[w].Waiting? && s.tasks[w].slot < SLOTS && !s.slots[s.tasks[w].slot].bit
       case Release(w) => w < |s.tasks| && s.tasks[w].Closing? && s.tasks[w].slot < SLOTS
       case Fetch(w) => w < |s.tasks| && s.tasks[w].Fetching? && s.tasks[w].slot < SLOTS
       case Arrive(_) => s.reader.Ready?
       case Look => s.reader.Looking? && s.reader.slot < SLOTS
       case Signal => s.reader.Copied? && s.reader.slot < SLOTS
  }

  /** The test of one slot: claimed if it is free. */
  function Probed(s: State, w: nat): (r: State)
    requires Enabled(s, Probe(w))
    ensures Sized(r) && |r.tasks| == |s.tasks|
  {
    var i, want := s.tasks[w].slot, s.tasks[w].want;
    if s.slots[i].msgType == 0
    then s.(slots := s.slots[i := Claimed(s.slots[i], want.msgType, want.command)],
            tasks := s.tasks[w := Waiting(i, want, |s.delivered|)])
    else s.(tasks := s.tasks[w := if i + 1 == SLOTS then Refused else Scanning(i + 1, want)])
  }

  function LookedOn(i: nat, m: Message): ReaderPhase { if i + 1 == SLOTS then Ready else Looking(i + 1, m) }

  /** The reader's test of one slot: passed over, released or given a copy of the message. */
  function Looked(s: State): (r: State)
    requires Enabled(s, Look)
    ensures Sized(r)
  {
    var i, m := s.reader.slot, s.reader.message;
    if s.slots[i].msgType != m.msgType then s.(reader := LookedOn(i, m))
    else if Mismatch(s.slots[i], m) then s.(slots := s.slots[i := s.slots[i].(msgType := 0)], reader := LookedOn(i, m))
    else s.(slots := s.slots[i := s.slots[i].(held := Received(m))], number := s.number[i := |s.delivered|],
            delivered := s.delivered + [m], reader := Copied(i))
  }

  function Next(s: State, e: Event): (r: State)
    requires Enabled(s, e)
    ensures Sized(r) && |r.tasks| == |s.tasks|
  {
    match e
    case Begin(w, want) => s.(tasks := s.tasks[w := Scanning(0, want)])
    case Probe(w) => Probed(s, w)
    case Wake(w) =>
      var p := s.tasks[w];
      s.(slots := s.slots[p.slot := s.slots[p.slot].(bit := false)],
         tasks := s.tasks[w := Closing(p.slot, p.want, p.since, true)])
    case Expire(w) =>
      var p := s.tasks[w];
      s.(tasks := s.tasks[w := Closing(p.slot, p.want, p.since, false)])
    case Release(w) =>
      var p := s.tasks[w];
      s.(slots := s.slots[p.slot := s.slots[p.slot].(msgType := 0)],
         tasks := s.tasks[w := if p.woken then Fetching(p.slot, p.want, p.since) else TimedOut])
    case Fetch(w) =>
      var p := s.tasks[w];
      s.(tasks := s.tasks[w := Done(p.want, p.since, s.slots[p.slot].held, s.number[p.slot])])
    case Arrive(m) => s.(reader := Looking(0, m))
    case Look => Looked(s)
    case Signal =>
      var k := s.reader.slot;
      s.(slots := s.slots[k := s.slots[k].(bit := true)], reader := Ready)
  }

  // ---- Safety ----

  /** Slot `k` holds a message for `want` that was put there at or after `since`. */
  predicate Good(s: State, k: nat, want: Wanted, since: nat)
    requires Sized(s)
  {
    && k < SLOTS && since <= s.number[k] < |s.delivered|
    && Fulfils(s.delivered[s.number[k]], want)
    && s.slots[k].held == Received(s.delivered[s.number[k]])
  }

  predicate TaskInv(s: State, p: Phase)
    requires Sized(s)
  {
    match p
    case Scanning(k, _) => k < SLOTS
    case Waiting(k, want, since) =>
      && k < SLOTS && s.slots[k].msgType == want.msgType != 0 && since <= |s.delivered|
      && if s.slots[k].bit || s.reader == Copied(k) then Good(s, k, want, since)
         else want.msgType == E_SL_MSG_STATUS ==> s.slots[k].held == Request(want.command)
    case Closing(k, want, since, woken) =>
      && k < SLOTS && s.slots[k].msgType == want.msgType != 0 && !s.slots[k].bit
      && (woken ==> Good(s, k, want, since))
    case Fetching(k, want, since) => Good(s, k, want, since)
    case Done(want, since, held, number) =>
      since <= number < |s.delivered| && Fulfils(s.delivered[number], want) && held == Received(s.delivered[number])
    case _ => true
  }

  predicate Owned(s: State, k: nat) { exists w :: 0 <= w < |s.tasks| && s.tasks[w].Owns(k) }

  /** Some task is inside the event wait of slot `k`. */
  predicate Awaited(s: State, k: nat) { exists w :: 0 <= w < |s.tasks| && s.tasks[w].Waiting? && s.tasks[w].slot == k }

  /** No two tasks own one slot. */
  predicate Exclusive(s: State) {
    forall v, w :: 0 <= v < w < |s.tasks| && s.tasks[v].Holds() && s.tasks[w].Holds() ==> s.tasks[v].slot != s.tasks[w].slot
  }

  predicate SlotsInv(s: State)
    requires Sized(s)
  {
    forall k :: 0 <= k < SLOTS ==> if s.slots[k].msgType == 0 then !s.slots[k].bit else Owned(s, k)
  }

  predicate ReaderInv(s: State) {
    && (s.reader.Looking? ==> s.reader.slot < SLOTS)
    && (s.reader.Copied? ==> s.reader.slot < SLOTS && Awaited(s, s.reader.slot))
  }

  predicate Inv(s: State) {
    && Sized(s) && SlotsInv(s) && ReaderInv(s) && Exclusive(s)
    && forall w :: 0 <= w < |s.tasks| ==> TaskInv(s, s.tasks[w])
  }

  function Boot(tasks: nat): State {
    State(seq(SLOTS, _ => Slot(0, Nothing, false)), seq(SLOTS, _ => 0), seq(tasks, _ => Idle), Ready, [])
  }

  lemma {:induction false} BootIsSafe(tasks: nat)
    ensures Inv(Boot(tasks))
  {
  }

  // ---- Exactly the harmful steps ----

  /** Some task has released slot `k` and not yet read the message there. */
  predicate Unread(s: State, k: nat) { exists w :: 0 <= w < |s.tasks| && s.tasks[w].Fetching? && s.tasks[w].slot == k }

  /** What the reader may find in a slot of its message's type: a wait for just this message, unless the slot is unread. */
  predicate MayCopy(s: State, k: nat, m: Message)
    requires Sized(s) && k < SLOTS
  {
    && m.msgType != 0 && !Mismatch(s.slots[k], m)
    && forall w :: 0 <= w < |s.tasks| && (s.tasks[w].Holds() || s.tasks[w].Fetching?) && s.tasks[w].slot == k ==>
      !s.tasks[w].Closing? && Fulfils(m, s.tasks[w].want)
  }

  /**
   * The steps after which all promises can still be kept. The others are: waiting for type 0; overwriting the message
   * pointer of an unread slot by the request of a status wait; leaving the event wait between the reader's copy and its
   * signal; and a copy for which `MayCopy` fails.
   */
  predicate Harmless(s: State, e: Event)
    requires Enabled(s, e)
  {
    match e
    case Probe(w) =>
      s.slots[s.tasks[w].slot].msgType == 0 ==>
        (&& s.tasks[w].want.msgType != 0
         && (s.tasks[w].want.msgType == E_SL_MSG_STATUS ==> !Unread(s, s.tasks[w].slot)))
    case Wake(w) => s.reader != Copied(s.tasks[w].slot)
    case Expire(w) => s.reader != Copied(s.tasks[w].slot)
    case Look => s.slots[s.reader.slot].msgType == s.reader.message.msgType ==> MayCopy(s, s.reader.slot, s.reader.message)
    case _ => true
  }

  /** Only task `w` moves, and it keeps what it owns. */
  lemma {:induction false} StillOwned(s: State, r: State, w: nat)
    requires w < |s.tasks| && |r.tasks| == |s.tasks| && Sized(s)
    requires forall v :: 0 <= v < |s.tasks| && v != w ==> r.tasks[v] == s.tasks[v]
    requires s.tasks[w].Holds() ==> r.tasks[w].Holds() && r.tasks[w].slot == s.tasks[w].slot
    ensures forall k :: 0 <= k < SLOTS && Owned(s, k) ==> Owned(r, k)
  {
    forall k | 0 <= k < SLOTS && Owned(s, k)
      ensures Owned(r, k)
    {
      var v :| 0 <= v < |s.tasks| && s.tasks[v].Owns(k);
      assert r.tasks[v].Owns(k);
    }
  }

  /** No task but `w` moves in or out of an event wait, and neither does `w`. */
  lemma {:induction false} StillAwaited(s: State, r: State, w: nat)
    requires w < |s.tasks| && |r.tasks| == |s.tasks| && !s.tasks[w].Waiting?
    requires forall v :: 0 <= v < |s.tasks| && v != w ==> r.tasks[v] == s.tasks[v]
    ensures forall k: nat :: Awaited(s, k) ==> Awaited(r, k)
  {
    forall k: nat | Awaited(s, k)
      ensures Awaited(r, k)
    {
      var v :| 0 <= v < |s.tasks| && s.tasks[v].Waiting? && s.tasks[v].slot == k;
      assert r.tasks[v].Waiting?;
    }
  }

  lemma {:induction false} BeginIsSafe(s: State, w: nat, want: Wanted)
    requires Inv(s) && Enabled(s, Begin(w, want))
    ensures Inv(Next(s, Begin(w, want)))
  {
    StillOwned(s, Next(s, Begin(w, want)), w);
    StillAwaited(s, Next(s, Begin(w, want)), w);
  }

  /** A taken slot is passed over. */
  lemma {:induction false} ProbeTakenIsSafe(s: State, w: nat)
    requires Inv(s) && Enabled(s, Probe(w)) && s.slots[s.tasks[w].slot].msgType != 0
    ensures Inv(Next(s, Probe(w)))
  {
    hide Fulfils;
    StillOwned(s, Next(s, Probe(w)), w);
    StillAwaited(s, Next(s, Probe(w)), w);
  }

  lemma {:induction false} ProbeFreeKeeps(s: State, w: nat)
    requires Inv(s) && Enabled(s, Probe(w)) && s.slots[s.tasks[w].slot].msgType == 0 && Harmless(s, Probe(w))
    ensures Inv(Next(s, Probe(w)))
  {
    var r := Next(s, Probe(w));
    StillOwned(s, r, w);
    StillAwaited(s, r, w);
    var i := s.tasks[w].slot;
    assert r.tasks[w].Owns(i);
    assert s.reader != Copied(i);
    forall v | 0 <= v < |s.tasks| && v != w
      ensures TaskInv(r, r.tasks[v])
    {
      assert TaskInv(s, s.tasks[v]);
    }
  }

  lemma {:induction false} ProbeFreeBreaks(s: State, w: nat)
    requires Inv(s) && Enabled(s, Probe(w)) && !Harmless(s, Probe(w))
    ensures !Inv(Next(s, Probe(w)))
  {
    var r, i := Next(s, Probe(w)), s.tasks[w].slot;
    if s.tasks[w].want.msgType == 0 {
      assert !TaskInv(r, r.tasks[w]);
    } else {
      var v :| 0 <= v < |s.tasks| && s.tasks[v].Fetching? && s.tasks[v].slot == i;
      assert !TaskInv(r, r.tasks[v]);
    }
  }

  lemma {:induction false} LeaveKeeps(s: State, w: nat, e: Event)
    requires (e == Wake(w) || e == Expire(w)) && Inv(s) && Enabled(s, e) && Harmless(s, e)
    ensures Inv(Next(s, e))
  {
    hide Fulfils;
    var r := Next(s, e);
    StillOwned(s, r, w);
    assert TaskInv(s, s.tasks[w]);
    if s.reader.Copied? {
      var v :| 0 <= v < |s.tasks| && s.tasks[v].Waiting? && s.tasks[v].slot == s.reader.slot;
      assert r.tasks[v].Waiting?;
    }
  }

  /** With the waiting task gone nobody awaits the slot that the reader will signal. */
  lemma {:induction false} LeaveBreaks(s: State, w: nat, e: Event)
    requires (e == Wake(w) || e == Expire(w)) && Inv(s) && Enabled(s, e) && !Harmless(s, e)
    ensures !Inv(Next(s, e))
  {
    assert !Awaited(Next(s, e), s.reader.slot);
  }

  lemma {:induction false} ReleaseIsSafe(s: State, w: nat)
    requires Inv(s) && Enabled(s, Release(w))
    ensures Inv(Next(s, Release(w)))
  {
    var r := Next(s, Release(w));
    StillAwaited(s, r, w);
    forall k | 0 <= k < SLOTS && r.slots[k].msgType != 0
      ensures Owned(r, k)
    {
      assert Owned(s, k);
      var v :| 0 <= v < |s.tasks| && s.tasks[v].Owns(k);
      assert r.tasks[v].Owns(k);
    }
  }

  lemma {:induction false} FetchIsSafe(s: State, w: nat)
    requires Inv(s) && Enabled(s, Fetch(w))
    ensures Inv(Next(s, Fetch(w)))
  {
    StillOwned(s, Next(s, Fetch(w)), w);
    StillAwaited(s, Next(s, Fetch(w)), w);
  }

  /** Nothing but the reader's own phase changes. */
  lemma {:induction false} ReaderMoves(s: State, r: State)
    requires Inv(s) && r == s.(reader := r.reader) && !s.reader.Copied? && !r.reader.Copied?
    requires r.reader.Looking? ==> r.reader.slot < SLOTS
    ensures Inv(r)
  {
    forall k | 0 <= k < SLOTS && Owned(s, k)
      ensures Owned(r, k)
    {
      var v :| 0 <= v < |s.tasks| && s.tasks[v].Owns(k);
      assert r.tasks[v].Owns(k);
    }
  }

  lemma {:induction false} CopyKeeps(s: State)
    requires Inv(s) && Enabled(s, Look) && s.slots[s.reader.slot].msgType == s.reader.message.msgType && Harmless(s, Look)
    ensures Inv(Next(s, Look))
  {
    var r, i := Next(s, Look), s.reader.slot;
    assert Owned(s, i);
    var v :| 0 <= v < |s.tasks| && s.tasks[v].Owns(i);
    assert r.tasks[v].Waiting? && r.tasks[v].slot == i;
    forall k | 0 <= k < SLOTS && Owned(s, k)
      ensures Owned(r, k)
    {
      var u :| 0 <= u < |s.tasks| && s.tasks[u].Owns(k);
      assert r.tasks[u].Owns(k);
    }
    forall u | 0 <= u < |s.tasks|
      ensures TaskInv(r, r.tasks[u])
    {
      assert TaskInv(s, s.tasks[u]);
    }
  }

  lemma {:induction false} CopyBreaks(s: State)
    requires Inv(s) && Enabled(s, Look) && !Harmless(s, Look)
    ensures !Inv(Next(s, Look))
  {
    var r, i, m := Next(s, Look), s.reader.slot, s.reader.message;
    if m.msgType == 0 {
      UnownedIsNotAwaited(s, r, i);
    } else if Mismatch(s.slots[i], m) {
      assert Owned(s, i);
      var v :| 0 <= v < |s.tasks| && s.tasks[v].Owns(i);
      assert !TaskInv(r, r.tasks[v]);
    } else {
      var w :| 0 <= w < |s.tasks| && (s.tasks[w].Holds() || s.tasks[w].Fetching?) && s.tasks[w].slot == i
               && (s.tasks[w].Closing? || !Fulfils(m, s.tasks[w].want));
      if s.tasks[w].Closing? {
        assert !Awaited(r, i);
      } else {
        assert !TaskInv(r, r.tasks[w]);
      }
    }
  }

  lemma {:induction false} UnownedIsNotAwaited(s: State, r: State, k: nat)
    requires Inv(s) && k < SLOTS && s.slots[k].msgType == 0 && r.tasks == s.tasks
    ensures !Awaited(r, k)
  {
    forall v | 0 <= v < |s.tasks| && s.tasks[v].Waiting?
      ensures s.tasks[v].slot != k
    {
      assert TaskInv(s, s.tasks[v]);
    }
  }

  lemma {:induction false} SignalIsSafe(s: State)
    requires Inv(s) && Enabled(s, Signal)
    ensures Inv(Next(s, Signal))
  {
    hide Fulfils;
    var r, k := Next(s, Signal), s.reader.slot;
    var v :| 0 <= v < |s.tasks| && s.tasks[v].Waiting? && s.tasks[v].slot == k;
    assert TaskInv(s, s.tasks[v]);
    forall j | 0 <= j < SLOTS && Owned(s, j)
      ensures Owned(r, j)
    {
      var u :| 0 <= u < |s.tasks| && s.tasks[u].Owns(j);
      assert r.tasks[u].Owns(j);
    }
  }

  /** Every step keeps the invariant if and only if it is harmless. */
  lemma {:induction false} StepIsSafeExactlyWhen(s: State, e: Event)
    requires Inv(s) && Enabled(s, e)
    ensures Inv(Next(s, e)) <==> Harmless(s, e)
  {
    hide Inv;
    match e
    case Begin(w, want) => BeginIsSafe(s, w, want);
    case Probe(w) =>
      if s.slots[s.tasks[w].slot].msgType != 0 {
        ProbeTakenIsSafe(s, w);
      } else if Harmless(s, e) {
        ProbeFreeKeeps(s, w);
      } else {
        ProbeFreeBreaks(s, w);
      }
    case Wake(w) => if Harmless(s, e) { LeaveKeeps(s, w, e); } else { LeaveBreaks(s, w, e); }
    case Expire(w) => if Harmless(s, e) { LeaveKeeps(s, w, e); } else { LeaveBreaks(s, w, e); }
    case Release(w) => ReleaseIsSafe(s, w);
    case Fetch(w) => FetchIsSafe(s, w);
    case Arrive(m) => ReaderMoves(s, Next(s, e));
    case Look =>
      if s.slots[s.reader.slot].msgType != s.reader.message.msgType {
        ReaderMoves(s, Next(s, e));
      } else if Harmless(s, e) {
        CopyKeeps(s);
      } else {
        CopyBreaks(s);
      }
    case Signal => SignalIsSafe(s);
  }

  // ---- The promises ----

  /** A task that was handed a message got one for its own wait, put into its slot after the claim. */
  predicate Served(s: State, p: Phase) {
    p.Done? ==>
      && p.since <= p.number < |s.delivered|
      && Fulfils(s.delivered[p.number], p.want) && p.held == Received(s.delivered[p.number])
  }

  /**
   * No two tasks hold one slot, no slot of a waiting task is free, a free slot has its event bit clear, and every message
   * handed out was the right one.
   */
  predicate Kept(s: State) {
    && Sized(s) && Exclusive(s)
    && (forall w :: 0 <= w < |s.tasks| && s.tasks[w].Holds() ==> s.tasks[w].slot < SLOTS && s.slots[s.tasks[w].slot].msgType != 0)
    && (forall k :: 0 <= k < SLOTS && s.slots[k].msgType == 0 ==> !s.slots[k].bit)
    && forall w :: 0 <= w < |s.tasks| ==> Served(s, s.tasks[w])
  }

  lemma {:induction false} InvKeepsPromises(s: State)
    requires Inv(s)
    ensures Kept(s)
  {
    forall w | 0 <= w < |s.tasks|
      ensures Served(s, s.tasks[w])
      ensures s.tasks[w].Holds() ==> s.tasks[w].slot < SLOTS && s.slots[s.tasks[w].slot].msgType != 0
    {
      assert TaskInv(s, s.tasks[w]);
    }
  }

  /** Every step of the run can be taken in the state it finds. */
  predicate Possible(s: State, es: seq<Event>)
    decreases |es|, 0
  {
    |es| == 0 || (Possible(s, es[..|es| - 1]) && Enabled(After(s, es[..|es| - 1]), es[|es| - 1]))
  }

  function After(s: State, es: seq<Event>): (r: State)
    requires Possible(s, es)
    ensures |r.tasks| == |s.tasks|
    decreases |es|, 1
  {
    if |es| == 0 then s else Next(After(s, es[..|es| - 1]), es[|es| - 1])
  }

  predicate HarmlessRun(s: State, es: seq<Event>)
    requires Possible(s, es)
  {
    |es| == 0 || (HarmlessRun(s, es[..|es| - 1]) && Harmless(After(s, es[..|es| - 1]), es[|es| - 1]))
  }

  /** The invariant holds at every moment of the run. */
  predicate SafeRun(s: State, es: seq<Event>)
    requires Possible(s, es)
  {
    Inv(After(s, es)) && (|es| == 0 || SafeRun(s, es[..|es| - 1]))
  }

  lemma {:induction false} RunIsSafeExactlyWhen(s: State, es: seq<Event>)
    requires Inv(s) && Possible(s, es)
    ensures SafeRun(s, es) <==> HarmlessRun(s, es)
  {
    if |es| > 0 {
      hide Harmless, Inv, Next;
      RunIsSafeExactlyWhen(s, es[..|es| - 1]);
      if SafeRun(s, es[..|es| - 1]) {
        SafeRunEndsSafe(s, es[..|es| - 1]);
        StepIsSafeExactlyWhen(After(s, es[..|es| - 1]), es[|es| - 1]);
      }
    }
  }

  lemma {:induction false} SafeRunEndsSafe(s: State, es: seq<Event>)
    requires Possible(s, es) && SafeRun(s, es)
    ensures Inv(After(s, es))
  {
  }

  /** Wait-slot safety: from boot, every interleaving of harmless steps keeps all promises. */
  lemma {:induction false} WaitSafety(tasks: nat, es: seq<Event>)
    requires Possible(Boot(tasks), es) && HarmlessRun(Boot(tasks), es)
    ensures Kept(After(Boot(tasks), es))
  {
    BootIsSafe(tasks);
    RunIsSafeExactlyWhen(Boot(tasks), es);
    SafeRunEndsSafe(Boot(tasks), es);
    InvKeepsPromises(After(Boot(tasks), es));
  }

  // ---- What a harmful step leads to ----

  /** Slot `k` is free and its event bit is set. */
  predicate Stale(s: State, k: nat) { Sized(s) && k < SLOTS && s.slots[k].msgType == 0 && s.slots[k].bit }

  lemma {:induction false} RunOfOne(s: State, a: Event)
    requires Enabled(s, a)
    ensures Possible(s, [a]) && After(s, [a]) == Next(s, a)
  {
    hide Next, Enabled;
    assert [a][..0] == [];
  }

  lemma {:induction false} RunOfTwo(s: State, a: Event, b: Event)
    requires Enabled(s, a) && Enabled(Next(s, a), b)
    ensures Possible(s, [a, b]) && After(s, [a, b]) == Next(Next(s, a), b)
  {
    RunOfOne(s, a);
    hide Next, Enabled;
    assert [a, b][..1] == [a];
  }

  lemma {:induction false} RunOfFour(s: State, a: Event, b: Event, c: Event, d: Event)
    requires Possible(s, [a, b]) && Enabled(After(s, [a, b]), c) && Enabled(Next(After(s, [a, b]), c), d)
    ensures Possible(s, [a, b, c, d]) && After(s, [a, b, c, d]) == Next(Next(After(s, [a, b]), c), d)
  {
    hide Next, Enabled;
    assert [a, b, c, d][..3] == [a, b, c] && [a, b, c][..2] == [a, b];
  }

  /**
   * A task that leaves its wait, or has left it, while the reader is between copy and signal: signal and release leave the
   * slot free with its bit set.
   */
  lemma {:induction false} LateSignalLeavesStaleSlot(s: State, w: nat)
    requires Sized(s) && w < |s.tasks| && s.tasks[w].Closing? && s.tasks[w].slot < SLOTS && s.reader == Copied(s.tasks[w].slot)
    ensures Possible(s, [Signal, Release(w)]) && Stale(After(s, [Signal, Release(w)]), s.tasks[w].slot)
  {
    RunOfTwo(s, Signal, Release(w));
  }

  /** A message of type 0 finds a free slot, and the signal leaves that slot with its bit set. */
  lemma {:induction false} TypeZeroLeavesStaleSlot(s: State)
    requires Enabled(s, Look) && s.reader.message.msgType == 0 && s.slots[s.reader.slot].msgType == 0
    ensures Possible(s, [Look, Signal]) && Stale(After(s, [Look, Signal]), s.reader.slot)
  {
    RunOfTwo(s, Look, Signal);
  }

  /** The next task to claim a stale slot wakes at once: with the old message or, if it waits for a status, its own request. */
  lemma {:induction false} StaleSlotMisleads(s: State, v: nat)
    requires Enabled(s, Probe(v)) && Stale(s, s.tasks[v].slot) && s.number[s.tasks[v].slot] < |s.delivered|
    ensures var run := [Probe(v), Wake(v), Release(v), Fetch(v)];
            && Possible(s, run)
            && var p := After(s, run).tasks[v];
            && p == Done(s.tasks[v].want, |s.delivered|, p.held, s.number[s.tasks[v].slot]) && !Served(After(s, run), p)
            && p.held == if s.tasks[v].want.msgType == 0x8000 then Request(s.tasks[v].want.command) else s.slots[s.tasks[v].slot].held
    ensures After(s, [Probe(v), Wake(v), Release(v), Fetch(v)]).delivered == s.delivered
  {
    RunOfTwo(s, Probe(v), Wake(v));
    RunOfFour(s, Probe(v), Wake(v), Release(v), Fetch(v));
  }

  /** A slot that is claimed and served again before its last owner has read the message: it reads the new one. */
  lemma {:induction false} LateDeliveryReplacesMessage(s: State, w: nat)
    requires Enabled(s, Look) && s.slots[s.reader.slot].msgType == s.reader.message.msgType
    requires !Mismatch(s.slots[s.reader.slot], s.reader.message)
    requires w < |s.tasks| && s.tasks[w].Fetching? && s.tasks[w].slot == s.reader.slot
    ensures Possible(s, [Look, Fetch(w)])
    ensures After(s, [Look, Fetch(w)]).tasks[w] == Done(s.tasks[w].want, s.tasks[w].since, Received(s.reader.message), |s.delivered|)
  {
    RunOfTwo(s, Look, Fetch(w));
  }

  /**
   * A status reply to another command frees the slot of a task that still waits, whatever else stands in the slots, and
   * the next task to test the slot shares it.
   */
  lemma {:induction false} StatusReplyFreesWaiter(s: State, w: nat, v: nat)
    requires Inv(s) && Enabled(s, Look) && s.reader.message.msgType == E_SL_MSG_STATUS
    requires w < |s.tasks| && s.tasks[w].Waiting? && s.tasks[w].slot == s.reader.slot
    requires s.tasks[w].want.msgType == E_SL_MSG_STATUS && s.tasks[w].want.command != Answers(s.reader.message)
    requires !s.slots[s.reader.slot].bit
    requires v < |s.tasks| && s.tasks[v].Scanning? && s.tasks[v].slot == s.reader.slot
    ensures Possible(s, [Look, Probe(v)])
    ensures Next(s, Look).tasks[w].Waiting? && Next(s, Look).slots[s.reader.slot].msgType == 0
    ensures var t := After(s, [Look, Probe(v)]);
            v != w && t.tasks[w].Owns(s.reader.slot) && t.tasks[v].Owns(s.reader.slot)
  {
    assert TaskInv(s, s.tasks[w]);
    RunOfTwo(s, Look, Probe(v));
  }

  /** A harmful step can always be continued, by the tasks it concerns and the reader alone, to a broken promise. */
  lemma {:induction false} HarmfulStepBreaksPromise(s: State, e: Event) returns (more: seq<Event>)
    requires Inv(s) && Enabled(s, e) && !Harmless(s, e)
    ensures Possible(Next(s, e), more) && |more| <= 4 && !Kept(After(Next(s, e), more))
  {
    match e
    case Probe(w) => more := HarmfulProbe(s, w);
    case Look => more := HarmfulLook(s);
    case Wake(w) =>
      LateSignalLeavesStaleSlot(Next(s, e), w);
      more := [Signal, Release(w)];
    case Expire(w) =>
      LateSignalLeavesStaleSlot(Next(s, e), w);
      more := [Signal, Release(w)];
  }

  lemma {:induction false} HarmfulProbe(s: State, w: nat) returns (more: seq<Event>)
    requires Inv(s) && Enabled(s, Probe(w)) && !Harmless(s, Probe(w))
    ensures Possible(Next(s, Probe(w)), more) && |more| <= 4 && !Kept(After(Next(s, Probe(w)), more))
  {
    var r := Next(s, Probe(w));
    if s.tasks[w].want.msgType == 0 {
      more := [];
      assert After(r, []).tasks[w].Holds();
    } else {
      var v :| 0 <= v < |s.tasks| && s.tasks[v].Fetching? && s.tasks[v].slot == s.tasks[w].slot;
      more := [Fetch(v)];
      RunOfOne(r, Fetch(v));
      assert !Served(After(r, more), After(r, more).tasks[v]);
    }
  }

  lemma {:induction false} HarmfulLook(s: State) returns (more: seq<Event>)
    requires Inv(s) && Enabled(s, Look) && !Harmless(s, Look)
    ensures Possible(Next(s, Look), more) && |more| <= 4 && !Kept(After(Next(s, Look), more))
  {
    var r, i, m := Next(s, Look), s.reader.slot, s.reader.message;
    if Mismatch(s.slots[i], m) {
      assert Owned(s, i);
      var v :| 0 <= v < |s.tasks| && s.tasks[v].Owns(i);
      more := [];
      assert After(r, []).tasks[v].Holds();
    } else if m.msgType == 0 {
      more := [Signal];
      RunOfOne(r, Signal);
      assert Stale(After(r, more), i);
    } else {
      var v :| 0 <= v < |s.tasks| && (s.tasks[v].Holds() || s.tasks[v].Fetching?) && s.tasks[v].slot == i
               && (s.tasks[v].Closing? || !Fulfils(m, s.tasks[v].want));
      if s.tasks[v].Closing? {
        LateSignalLeavesStaleSlot(r, v);
        more := [Signal, Release(v)];
      } else if s.tasks[v].Fetching? {
        more := [Fetch(v)];
        RunOfOne(r, Fetch(v));
        assert !Served(After(r, more), After(r, more).tasks[v]);
      } else {
        more := WrongMessageIsFetched(s, v);
      }
    }
  }

  /** A second status reply can be copied over the first: it is compared with the bytes of the first, not with the request. */
  lemma {:induction false} WrongMessageIsFetched(s: State, v: nat) returns (more: seq<Event>)
    requires Inv(s) && Enabled(s, Look) && s.slots[s.reader.slot].msgType == s.reader.message.msgType
    requires !Mismatch(s.slots[s.reader.slot], s.reader.message)
    requires v < |s.tasks| && s.tasks[v].Waiting? && s.tasks[v].slot == s.reader.slot && !Fulfils(s.reader.message, s.tasks[v].want)
    ensures more == [Signal, Wake(v), Release(v), Fetch(v)]
    ensures Possible(Next(s, Look), more) && !Kept(After(Next(s, Look), more))
  {
    var r := Next(s, Look);
    more := [Signal, Wake(v), Release(v), Fetch(v)];
    RunOfTwo(r, Signal, Wake(v));
    RunOfFour(r, Signal, Wake(v), Release(v), Fetch(v));
    assert !Served(After(r, more), After(r, more).tasks[v]);
  }

  // ---- Undisturbed passes ----

  /** The task's tests of the slots with nothing else in between. */
  function ScannedAlone(s: State, w: nat): (r: State)
    requires Enabled(s, Probe(w))
    ensures Sized(r) && |r.tasks| == |s.tasks|
    decreases SLOTS - s.tasks[w].slot
  {
    var r := Probed(s, w);
    if r.tasks[w].Scanning? then ScannedAlone(r, w) else r
  }

  lemma {:induction false} UndisturbedScan(s: State, w: nat)
    requires Enabled(s, Probe(w))
    ensures var i, want := s.tasks[w].slot, s.tasks[w].want;
            var k := FirstOfType(s.slots, 0, i);
            ScannedAlone(s, w) ==
            if k < SLOTS then s.(slots := s.slots[k := Claimed(s.slots[k], want.msgType, want.command)],
                                 tasks := s.tasks[w := Waiting(k, want, |s.delivered|)])
            else s.(tasks := s.tasks[w := Refused])
    decreases SLOTS - s.tasks[w].slot
  {
    var r := Probed(s, w);
    if r.tasks[w].Scanning? {
      UndisturbedScan(r, w);
    }
  }

  /** An undisturbed claim takes the first free slot, and is refused exactly when each of the five slots is owned. */
  lemma {:induction false} RefusedOnlyWhenFull(s: State, w: nat, want: Wanted)
    requires Inv(s) && Enabled(s, Begin(w, want))
    ensures var r := ScannedAlone(Next(s, Begin(w, want)), w);
            && (r.tasks[w].Refused? <==> forall k :: 0 <= k < SLOTS ==> Owned(s, k))
            && (!r.tasks[w].Refused? ==> r.tasks[w] == Waiting(FirstOfType(s.slots, 0, 0), want, |s.delivered|))
  {
    UndisturbedScan(Next(s, Begin(w, want)), w);
    forall k | 0 <= k < SLOTS
      ensures s.slots[k].msgType != 0 <==> Owned(s, k)
    {
      if Owned(s, k) {
        var v :| 0 <= v < |s.tasks| && s.tasks[v].Owns(k);
        assert TaskInv(s, s.tasks[v]);
      }
    }
  }

  /** How many slots the task has tested and found taken since it began, if it is still testing or was refused. */
  function Passed(p: Phase): nat { if p.Scanning? then p.slot else if p.Refused? then SLOTS else 0 }

  /** At its step `t` the run has task `w` test slot `j` and find it taken, and the task does not begin again after that. */
  predicate FoundTaken(s: State, es: seq<Event>, w: nat, j: nat, t: nat) {
    && w < |s.tasks| && j < SLOTS && t < |es| && es[t] == Probe(w) && Possible(s, es[..t])
    && Enabled(After(s, es[..t]), Probe(w)) && After(s, es[..t]).tasks[w].slot == j && After(s, es[..t]).slots[j].msgType != 0
    && forall q :: t <= q < |es| ==> !(es[q].Begin? && es[q].w == w)
  }

  lemma {:induction false} PassedByStep(s: State, e: Event, w: nat, j: nat)
    requires Enabled(s, e) && w < |s.tasks| && j < Passed(Next(s, e).tasks[w]) && j < SLOTS
    ensures !(e.Begin? && e.w == w)
    ensures j < Passed(s.tasks[w]) || (e == Probe(w) && s.tasks[w].slot == j && s.slots[j].msgType != 0)
  {
  }

  lemma {:induction false} FoundTakenStays(s: State, es: seq<Event>, w: nat, j: nat, t: nat)
    requires |es| > 0 && t < |es| - 1
    requires !(es[|es| - 1].Begin? && es[|es| - 1].w == w)
    ensures FoundTaken(s, es, w, j, t) <==> FoundTaken(s, es[..|es| - 1], w, j, t)
  {
    hide Enabled, Next, Possible, After;
    var front := es[..|es| - 1];
    assert front[..t] == es[..t];
    assert forall q :: 0 <= q < |front| ==> front[q] == es[q];
  }

  lemma {:induction false} PassedFoundTaken(s: State, es: seq<Event>, w: nat, j: nat) returns (t: nat)
    requires Possible(s, es) && w < |s.tasks| && Passed(s.tasks[w]) == 0
    requires j < Passed(After(s, es).tasks[w]) && j < SLOTS
    ensures FoundTaken(s, es, w, j, t)
  {
    var front, e := es[..|es| - 1], es[|es| - 1];
    var u := After(s, front);
    PassedByStep(u, e, w, j);
    hide Next;
    if j < Passed(u.tasks[w]) {
      t := PassedFoundTaken(s, front, w, j);
      FoundTakenStays(s, es, w, j, t);
    } else {
      t := |es| - 1;
    }
  }

  lemma {:induction false} FoundLastTakenIsRefused(s: State, es: seq<Event>, w: nat, t: nat)
    requires Possible(s, es) && FoundTaken(s, es, w, SLOTS - 1, t)
    ensures After(s, es).tasks[w].Refused?
  {
    if t < |es| - 1 {
      FoundTakenStays(s, es, w, SLOTS - 1, t);
      FoundLastTakenIsRefused(s, es[..|es| - 1], w, t);
    }
  }

  predicate MetTaken(s: State, es: seq<Event>, w: nat, j: nat) { exists t :: 0 <= t < |es| && FoundTaken(s, es, w, j, t) }

  /** Over any run: a claim is refused if and only if it found each of the five slots taken, each when it tested it. */
  lemma {:induction false} RefusedExactlyWhenEachTaken(s: State, es: seq<Event>, w: nat)
    requires Possible(s, es) && w < |s.tasks| && Passed(s.tasks[w]) == 0
    ensures After(s, es).tasks[w].Refused? <==> forall j :: 0 <= j < SLOTS ==> MetTaken(s, es, w, j)
  {
    if After(s, es).tasks[w].Refused? {
      forall j | 0 <= j < SLOTS
        ensures MetTaken(s, es, w, j)
      {
        var t := PassedFoundTaken(s, es, w, j);
      }
    }
    if MetTaken(s, es, w, SLOTS - 1) {
      var t: nat :| FoundTaken(s, es, w, SLOTS - 1, t);
      FoundLastTakenIsRefused(s, es, w, t);
    }
  }

  /** The reader's tests of the slots with nothing else in between. */
  function LookedAlone(s: State): (r: State)
    requires Enabled(s, Look)
    ensures Sized(r)
    decreases SLOTS - s.reader.slot
  {
    var r := Looked(s);
    if r.reader.Looking? then LookedAlone(r) else r
  }

  /** Undisturbed, tests and signal do to the slots what one pass of the delivery loop does. */
  lemma {:induction false} UndisturbedDelivery(s: State)
    requires Enabled(s, Look)
    ensures var r, q := LookedAlone(s), Queue(s.slots, s.reader.message, s.reader.slot);
            if r.reader.Copied? then Enabled(r, Signal) && q == (Next(r, Signal).slots, WaitSlots.Ok)
            else r.reader.Ready? && q == (r.slots, NoMessage)
    decreases SLOTS - s.reader.slot
  {
    var r, i, m := Looked(s), s.reader.slot, s.reader.message;
    if r.reader.Looking? {
      UndisturbedDelivery(r);
    } else if r.reader.Copied? {
      assert r.slots[i].(bit := true) == Delivered(s.slots[i], m);
      assert r.slots[i := r.slots[i].(bit := true)] == s.slots[i := Delivered(s.slots[i], m)];
    }
  }
}
