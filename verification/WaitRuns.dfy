/**
 * Whole runs of the wait slots: a schedule under which every interleaving is safe, and runs from boot that show what
 * happens without each of its conditions.
 */
module WaitRuns {
  import opened Bytes
  import opened SerialFrame
  import opened WaitSlots
  import opened WaitMachine

  // ---- A schedule that is safe ----

  /** Some task has left its event wait and not yet read its message. */
  predicate Leaving(s: State) { exists w :: 0 <= w < |s.tasks| && (s.tasks[w].Closing? || s.tasks[w].Fetching?) }

  /** The task will wait, or waits, for a status. */
  predicate Asks(p: Phase) { (p.Scanning? || p.Waiting?) && p.want.msgType == E_SL_MSG_STATUS }

  /** The status `m` is the one that all tasks waiting for a status ask for, and none of them has been served. */
  predicate AskedFor(s: State, m: Message) {
    && Sized(s)
    && forall w :: 0 <= w < |s.tasks| && Asks(s.tasks[w]) ==>
      && s.tasks[w].want.command == Answers(m)
      && (s.tasks[w].Waiting? ==> s.tasks[w].slot < SLOTS && !s.slots[s.tasks[w].slot].bit)
  }

  /**
   * The schedule: between its copy and its signal the reader is not interrupted by a task that leaves its wait; from
   * leaving its wait to reading its message a task is not interrupted by the reader's tests, nor by the claim of a status
   * slot; nobody waits for type 0 and no message of type 0 arrives; and a status that arrives is the one asked for.
   */
  predicate Calm(s: State, e: Event)
    requires Enabled(s, e)
  {
    match e
    case Begin(_, want) =>
      && want.msgType != 0
      && (want.msgType == E_SL_MSG_STATUS && s.reader.Looking? && s.reader.message.msgType == E_SL_MSG_STATUS ==>
            want.command == Answers(s.reader.message))
    case Probe(w) => s.tasks[w].want.msgType == E_SL_MSG_STATUS ==> !Leaving(s)
    case Wake(_) => !s.reader.Copied?
    case Expire(_) => !s.reader.Copied?
    case Arrive(m) => m.msgType != 0 && (m.msgType == E_SL_MSG_STATUS ==> AskedFor(s, m))
    case Look => !Leaving(s)
    case _ => true
  }

  /** What calm steps keep beside the invariant. */
  predicate CalmInv(s: State) {
    && (forall w :: 0 <= w < |s.tasks| && s.tasks[w].Scanning? ==> s.tasks[w].want.msgType != 0)
    && (s.reader.Looking? ==>
          s.reader.message.msgType != 0 && (s.reader.message.msgType == E_SL_MSG_STATUS ==> AskedFor(s, s.reader.message)))
  }

  lemma {:induction false} CalmLookMayCopy(s: State)
    requires Inv(s) && CalmInv(s) && Enabled(s, Look) && Calm(s, Look)
    requires s.slots[s.reader.slot].msgType == s.reader.message.msgType
    ensures MayCopy(s, s.reader.slot, s.reader.message)
  {
    var k, m := s.reader.slot, s.reader.message;
    assert Owned(s, k);
    var v :| 0 <= v < |s.tasks| && s.tasks[v].Owns(k);
    assert s.tasks[v].Waiting? && TaskInv(s, s.tasks[v]);
    forall w | 0 <= w < |s.tasks| && (s.tasks[w].Holds() || s.tasks[w].Fetching?) && s.tasks[w].slot == k
      ensures !s.tasks[w].Closing? && Fulfils(m, s.tasks[w].want)
    {
      assert TaskInv(s, s.tasks[w]);
    }
  }

  lemma {:induction false} CalmIsHarmless(s: State, e: Event)
    requires Inv(s) && CalmInv(s) && Enabled(s, e) && Calm(s, e)
    ensures Harmless(s, e)
  {
    match e
    case Look =>
      if s.slots[s.reader.slot].msgType == s.reader.message.msgType {
        CalmLookMayCopy(s);
      }
    case _ =>
  }

  lemma {:induction false} CalmProbeKeeps(s: State, w: nat)
    requires Inv(s) && CalmInv(s) && Enabled(s, Probe(w)) && Calm(s, Probe(w))
    ensures CalmInv(Next(s, Probe(w)))
  {
    hide TaskInv, Fulfils, Leaving;
  }

  lemma {:induction false} CalmStepKeeps(s: State, e: Event)
    requires Inv(s) && CalmInv(s) && Enabled(s, e) && Calm(s, e)
    ensures CalmInv(Next(s, e))
  {
    if e.Probe? {
      CalmProbeKeeps(s, e.w);
    } else {
      hide Inv, Fulfils, Leaving;
    }
  }

  predicate CalmRun(s: State, es: seq<Event>)
    requires Possible(s, es)
  {
    |es| == 0 || (CalmRun(s, es[..|es| - 1]) && Calm(After(s, es[..|es| - 1]), es[|es| - 1]))
  }

  lemma {:induction false} CalmRunKeeps(s: State, es: seq<Event>)
    requires Inv(s) && CalmInv(s) && Possible(s, es) && CalmRun(s, es)
    ensures Inv(After(s, es)) && CalmInv(After(s, es)) && HarmlessRun(s, es)
  {
    if |es| > 0 {
      hide Harmless, Calm, Inv, CalmInv, Next;
      var front, e := es[..|es| - 1], es[|es| - 1];
      CalmRunKeeps(s, front);
      CalmIsHarmless(After(s, front), e);
      CalmStepKeeps(After(s, front), e);
      StepIsSafeExactlyWhen(After(s, front), e);
    }
  }

  /** Every interleaving of any number of tasks with the reader that keeps to the schedule keeps all promises. */
  lemma {:induction false} CalmRunIsSafe(tasks: nat, es: seq<Event>)
    requires Possible(Boot(tasks), es) && CalmRun(Boot(tasks), es)
    ensures Kept(After(Boot(tasks), es))
  {
    BootIsSafe(tasks);
    CalmRunKeeps(Boot(tasks), es);
    WaitSafety(tasks, es);
  }

  // ---- Without statuses ----

  predicate Plain(t: u16) { t != 0 && t != E_SL_MSG_STATUS }

  /** Tasks wait for plain types only and only such messages arrive; leaving and delivery do not interrupt each other. */
  predicate PlainStep(s: State, e: Event)
    requires Enabled(s, e)
  {
    match e
    case Begin(_, want) => Plain(want.msgType)
    case Wake(_) => !s.reader.Copied?
    case Expire(_) => !s.reader.Copied?
    case Arrive(m) => Plain(m.msgType)
    case Look => !Leaving(s)
    case _ => true
  }

  predicate PlainRun(s: State, es: seq<Event>)
    requires Possible(s, es)
  {
    |es| == 0 || (PlainRun(s, es[..|es| - 1]) && PlainStep(After(s, es[..|es| - 1]), es[|es| - 1]))
  }

  predicate AllPlain(s: State) { forall w :: 0 <= w < |s.tasks| && s.tasks[w].Scanning? ==> Plain(s.tasks[w].want.msgType) }

  lemma {:induction false} PlainRunIsCalm(s: State, es: seq<Event>)
    requires AllPlain(s) && Possible(s, es) && PlainRun(s, es)
    ensures CalmRun(s, es) && AllPlain(After(s, es))
  {
    if |es| > 0 {
      PlainRunIsCalm(s, es[..|es| - 1]);
    }
  }

  /**
   * For types other than 0 and the status type, all interleavings are safe in which a wake or timeout and the release and
   * read after it are not interrupted by the reader's tests, and the reader's copy and signal not by a wake or timeout.
   */
  lemma {:induction false} PlainRunIsSafe(tasks: nat, es: seq<Event>)
    requires Possible(Boot(tasks), es) && PlainRun(Boot(tasks), es)
    ensures Kept(After(Boot(tasks), es))
  {
    PlainRunIsCalm(Boot(tasks), es);
    CalmRunIsSafe(tasks, es);
  }

  // ---- Runs from boot outside the schedule ----

  lemma {:induction false} Append(s: State, a: seq<Event>, b: seq<Event>)
    requires Possible(s, a) && Possible(After(s, a), b)
    ensures Possible(s, a + b) && After(s, a + b) == After(After(s, a), b)
  {
    if |b| == 0 {
      assert a + b == a;
    } else {
      hide Next, Enabled;
      Append(s, a, b[..|b| - 1]);
      assert (a + b)[..|a + b| - 1] == a + b[..|b| - 1];
    }
  }

  lemma {:induction false} RunOfThree(s: State, a: Event, b: Event, c: Event)
    requires Enabled(s, a) && Enabled(Next(s, a), b) && Enabled(Next(Next(s, a), b), c)
    ensures Possible(s, [a, b, c]) && After(s, [a, b, c]) == Next(Next(Next(s, a), b), c)
  {
    RunOfTwo(s, a, b);
    hide Next, Enabled;
    assert [a, b, c][..2] == [a, b];
  }

  /** A task begins to wait while slot 0 is free. */
  function Claiming(w: nat, want: Wanted): seq<Event> { [Begin(w, want), Probe(w)] }

  lemma {:induction false} ClaimingRun(s: State, w: nat, want: Wanted)
    requires Enabled(s, Begin(w, want)) && s.slots[0].msgType == 0
    ensures Possible(s, Claiming(w, want))
    ensures After(s, Claiming(w, want)) ==
            s.(slots := s.slots[0 := Claimed(s.slots[0], want.msgType, want.command)],
               tasks := s.tasks[w := Waiting(0, want, |s.delivered|)])
  {
    RunOfTwo(s, Begin(w, want), Probe(w));
  }

  /** It begins to wait, and a message for it arrives and is copied. */
  function Handing(w: nat, want: Wanted, m: Message): seq<Event> { Claiming(w, want) + [Arrive(m), Look] }

  lemma {:induction false} HandingRun(s: State, w: nat, want: Wanted, m: Message)
    requires Enabled(s, Begin(w, want)) && s.reader.Ready? && s.slots[0].msgType == 0 && want.msgType != 0 && Fulfils(m, want)
    ensures Possible(s, Handing(w, want, m))
    ensures After(s, Handing(w, want, m)) ==
            s.(slots := s.slots[0 := Slot(want.msgType, Received(m), s.slots[0].bit)], number := s.number[0 := |s.delivered|],
               tasks := s.tasks[w := Waiting(0, want, |s.delivered|)], reader := Copied(0), delivered := s.delivered + [m])
  {
    ClaimingRun(s, w, want);
    RunOfTwo(After(s, Claiming(w, want)), Arrive(m), Look);
    Append(s, Claiming(w, want), [Arrive(m), Look]);
  }

  lemma {:induction false} CalmAppend(s: State, a: seq<Event>, b: seq<Event>)
    requires Possible(s, a) && Possible(After(s, a), b)
    ensures Possible(s, a + b) && (CalmRun(s, a + b) <==> CalmRun(s, a) && CalmRun(After(s, a), b))
  {
    Append(s, a, b);
    if |b| == 0 {
      assert a + b == a;
    } else {
      hide Next, Enabled, Calm;
      CalmAppend(s, a, b[..|b| - 1]);
      Append(s, a, b[..|b| - 1]);
      assert (a + b)[..|a + b| - 1] == a + b[..|b| - 1];
    }
  }

  lemma {:induction false} CalmTwo(s: State, a: Event, b: Event)
    requires Enabled(s, a) && Enabled(Next(s, a), b) && Calm(s, a) && Calm(Next(s, a), b)
    ensures Possible(s, [a, b]) && CalmRun(s, [a, b])
  {
    RunOfOne(s, a);
    RunOfTwo(s, a, b);
    hide Next, Enabled, Calm;
    assert [a][..0] == [] && After(s, []) == s;
    assert CalmRun(s, [a]);
    assert [a, b][..1] == [a];
  }

  lemma {:induction false} HandingIsCalm(want: Wanted, m: Message)
    requires want.msgType != 0 && Fulfils(m, want)
    ensures Possible(Boot(1), Handing(0, want, m)) && CalmRun(Boot(1), Handing(0, want, m))
  {
    ClaimingRun(Boot(1), 0, want);
    var s := After(Boot(1), Claiming(0, want));
    CalmTwo(Boot(1), Begin(0, want), Probe(0));
    RunOfTwo(s, Arrive(m), Look);
    CalmTwo(s, Arrive(m), Look);
    CalmAppend(Boot(1), Claiming(0, want), [Arrive(m), Look]);
  }

  /** The schedule lets a wait of any type but 0 come to its end, with the message that was sent. */
  lemma {:induction false} CalmWaitIsServed(want: Wanted, m: Message)
    requires want.msgType != 0 && Fulfils(m, want)
    ensures var run := Handing(0, want, m) + [Signal, Wake(0)] + [Release(0), Fetch(0)];
            && Possible(Boot(1), run) && CalmRun(Boot(1), run)
            && After(Boot(1), run).tasks[0] == Done(want, 0, Received(m), 0)
  {
    var a := Handing(0, want, m);
    HandingRun(Boot(1), 0, want, m);
    HandingIsCalm(want, m);
    var s := After(Boot(1), a);
    CalmTwo(s, Signal, Wake(0));
    RunOfTwo(s, Signal, Wake(0));
    var t := Next(Next(s, Signal), Wake(0));
    CalmTwo(t, Release(0), Fetch(0));
    RunOfTwo(t, Release(0), Fetch(0));
    hide Calm, Next, CalmRun, Possible, After, Enabled, Fulfils;
    Append(Boot(1), a, [Signal, Wake(0)]);
    CalmAppend(Boot(1), a, [Signal, Wake(0)]);
    Append(Boot(1), a + [Signal, Wake(0)], [Release(0), Fetch(0)]);
    CalmAppend(Boot(1), a + [Signal, Wake(0)], [Release(0), Fetch(0)]);
  }

  /** It times out before the reader's signal. */
  function LateRun(want: Wanted, m: Message): seq<Event> { Handing(0, want, m) + [Expire(0), Signal, Release(0)] }

  /** A timeout between copy and signal leaves the slot free with its event bit set. */
  lemma {:induction false} TimeoutBeforeSignal(want: Wanted, m: Message)
    requires want.msgType != 0 && Fulfils(m, want)
    ensures Possible(Boot(1), LateRun(want, m))
    ensures var t := After(Boot(1), LateRun(want, m));
            Stale(t, 0) && !Kept(t) && t.tasks[0] == TimedOut && t.reader == Ready && t.number[0] == 0 && t.delivered == [m]
            && t.slots[0].held == Received(m)
  {
    HandingRun(Boot(1), 0, want, m);
    RunOfThree(After(Boot(1), Handing(0, want, m)), Expire(0), Signal, Release(0));
    Append(Boot(1), Handing(0, want, m), [Expire(0), Signal, Release(0)]);
  }

  /** A message of type 0, like the one a line fragment at boot is taken for, does the same without any task. */
  lemma {:induction false} TypeZeroArrives(tasks: nat, payload: seq<u8>)
    ensures var run := [Arrive(Message(0, payload)), Look, Signal];
            && Possible(Boot(tasks), run)
            && var t := After(Boot(tasks), run);
            Stale(t, 0) && !Kept(t) && t.tasks == Boot(tasks).tasks && t.number[0] == 0 && t.delivered == [Message(0, payload)]
            && t.slots[0].held == Received(Message(0, payload))
  {
    RunOfThree(Boot(tasks), Arrive(Message(0, payload)), Look, Signal);
  }

  /** A task that waits for anything. */
  function WaitingRun(w: nat, want: Wanted): seq<Event> { [Begin(w, want)] + [Probe(w), Wake(w), Release(w), Fetch(w)] }

  /** While slot 0 is stale the next task to wait returns what was there before it began; for a status, its own request. */
  lemma {:induction false} NextWaiterIsMisled(s: State, w: nat, want: Wanted)
    requires Enabled(s, Begin(w, want)) && Stale(s, 0) && s.number[0] < |s.delivered|
    ensures Possible(s, WaitingRun(w, want))
    ensures var t := After(s, WaitingRun(w, want));
            && t.delivered == s.delivered && !Kept(t)
            && t.tasks[w] == Done(want, |s.delivered|, if want.msgType == 0x8000 then Request(want.command) else s.slots[0].held,
                                  s.number[0])
  {
    var u := Next(s, Begin(w, want));
    RunOfOne(s, Begin(w, want));
    StaleSlotMisleads(u, w);
    Append(s, [Begin(w, want)], [Probe(w), Wake(w), Release(w), Fetch(w)]);
  }

  /** From boot: a timeout just before the signal, and the next wait, for any type but status, returns the late message. */
  lemma {:induction false} LateMessageIsReturned(want: Wanted, m: Message, next: Wanted)
    requires want.msgType != 0 && Fulfils(m, want)
    ensures var run := LateRun(want, m) + WaitingRun(0, next);
            && Possible(Boot(1), run)
            && var t := After(Boot(1), run);
            && t.tasks[0] == Done(next, 1, if next.msgType == 0x8000 then Request(next.command) else Received(m), 0)
            && t.delivered == [m] && !Kept(t)
  {
    TimeoutBeforeSignal(want, m);
    NextWaiterIsMisled(After(Boot(1), LateRun(want, m)), 0, next);
    Append(Boot(1), LateRun(want, m), WaitingRun(0, next));
  }

  /** From boot: a status for another command than the one waited for, and the next task to wait shares the slot. */
  lemma {:induction false} OtherStatusSharesSlot(command: u16, m: Message, want: Wanted)
    requires m.msgType == E_SL_MSG_STATUS && Answers(m) != command
    ensures var run := Claiming(0, Wanted(E_SL_MSG_STATUS, command)) + [Arrive(m), Look] + Claiming(1, want);
            && Possible(Boot(2), run)
            && var t := After(Boot(2), run);
            t.tasks[0].Owns(0) && t.tasks[1].Owns(0) && !Exclusive(t)
  {
    var a := Claiming(0, Wanted(E_SL_MSG_STATUS, command));
    ClaimingRun(Boot(2), 0, Wanted(E_SL_MSG_STATUS, command));
    RunOfTwo(After(Boot(2), a), Arrive(m), Look);
    Append(Boot(2), a, [Arrive(m), Look]);
    ClaimingRun(After(Boot(2), a + [Arrive(m), Look]), 1, want);
    Append(Boot(2), a + [Arrive(m), Look], Claiming(1, want));
  }

  /** A message signalled and its slot released, but not yet read. */
  function UnreadRun(w: nat, want: Wanted, m: Message): seq<Event> { Handing(w, want, m) + [Signal] + [Wake(w), Release(w)] }

  lemma {:induction false} UnreadRunLeaves(s: State, w: nat, want: Wanted, m: Message)
    requires Enabled(s, Begin(w, want)) && s.reader.Ready? && s.slots[0].msgType == 0 && want.msgType != 0 && Fulfils(m, want)
    ensures Possible(s, UnreadRun(w, want, m))
    ensures After(s, UnreadRun(w, want, m)) ==
            s.(slots := s.slots[0 := Slot(0, Received(m), false)], number := s.number[0 := |s.delivered|],
               tasks := s.tasks[w := Fetching(0, want, |s.delivered|)], delivered := s.delivered + [m])
  {
    HandingRun(s, w, want, m);
    RunOfOne(After(s, Handing(w, want, m)), Signal);
    Append(s, Handing(w, want, m), [Signal]);
    RunOfTwo(After(s, Handing(w, want, m) + [Signal]), Wake(w), Release(w));
    Append(s, Handing(w, want, m) + [Signal], [Wake(w), Release(w)]);
  }

  /** From boot: between a task's release and its read another task waits and is served, and the first reads that message. */
  lemma {:induction false} WrongMessageIsReturned(want: Wanted, m: Message, other: Wanted, n: Message)
    requires want.msgType != 0 && Fulfils(m, want) && other.msgType != 0 && Fulfils(n, other) && !Fulfils(n, want)
    ensures var run := UnreadRun(0, want, m) + Handing(1, other, n) + [Fetch(0)];
            && Possible(Boot(2), run)
            && var t := After(Boot(2), run);
            t.tasks[0] == Done(want, 0, Received(n), 1) && t.delivered == [m, n] && !Kept(t)
  {
    var a := UnreadRun(0, want, m);
    UnreadRunLeaves(Boot(2), 0, want, m);
    HandingRun(After(Boot(2), a), 1, other, n);
    Append(Boot(2), a, Handing(1, other, n));
    RunOfOne(After(Boot(2), a + Handing(1, other, n)), Fetch(0));
    Append(Boot(2), a + Handing(1, other, n), [Fetch(0)]);
    assert [m] + [n] == [m, n];
    var t := After(Boot(2), a + Handing(1, other, n) + [Fetch(0)]);
    assert !Served(t, t.tasks[0]);
  }

  /** From boot: the same while the other task only claims the slot for a status; the first reads its request. */
  lemma {:induction false} RequestIsReturned(want: Wanted, m: Message, command: u16)
    requires want.msgType != 0 && Fulfils(m, want)
    ensures var run := UnreadRun(0, want, m) + Claiming(1, Wanted(E_SL_MSG_STATUS, command)) + [Fetch(0)];
            && Possible(Boot(2), run)
            && var t := After(Boot(2), run);
            t.tasks[0] == Done(want, 0, Request(command), 0) && !Kept(t)
  {
    var a, b := UnreadRun(0, want, m), Claiming(1, Wanted(E_SL_MSG_STATUS, command));
    UnreadRunLeaves(Boot(2), 0, want, m);
    ClaimingRun(After(Boot(2), a), 1, Wanted(E_SL_MSG_STATUS, command));
    Append(Boot(2), a, b);
    RunOfOne(After(Boot(2), a + b), Fetch(0));
    Append(Boot(2), a + b, [Fetch(0)]);
    var t := After(Boot(2), a + b + [Fetch(0)]);
    assert !Served(t, t.tasks[0]);
  }

  /** From boot: a second message between a task's wake and its release leaves the slot free with its event bit set. */
  lemma {:induction false} MessageBeforeRelease(want: Wanted, m: Message)
    requires Plain(want.msgType) && Fulfils(m, want)
    ensures var run := Handing(0, want, m) + [Signal, Wake(0)] + [Arrive(m), Look] + [Signal, Release(0)];
            Possible(Boot(1), run) && Stale(After(Boot(1), run), 0) && !Kept(After(Boot(1), run))
  {
    var s, a := Boot(1), Handing(0, want, m);
    HandingRun(s, 0, want, m);
    RunOfTwo(After(s, a), Signal, Wake(0));
    Append(s, a, [Signal, Wake(0)]);
    var t := After(s, a + [Signal, Wake(0)]);
    RunOfTwo(t, Arrive(m), Look);
    Append(s, a + [Signal, Wake(0)], [Arrive(m), Look]);
    LateSignalLeavesStaleSlot(Next(Next(t, Arrive(m)), Look), 0);
    hide Possible, After;
    Append(s, a + [Signal, Wake(0)] + [Arrive(m), Look], [Signal, Release(0)]);
  }

  function StatusOf(high: u8, low: u8): Message { Message(E_SL_MSG_STATUS, [0, 0, high, low]) }

  /** A second message is copied into the slot of a task that has not woken yet, and is what it returns. */
  function ReplacingRun(n: Message): seq<Event> { [Signal] + [Arrive(n), Look] + [Signal, Wake(0)] + [Release(0), Fetch(0)] }

  lemma {:induction false} ReplacedIsReturned(s: State, n: Message)
    requires Enabled(s, Signal) && s.reader.slot == 0 && 0 < |s.tasks| && s.tasks[0].Waiting? && s.tasks[0].slot == 0
    requires s.slots[0].msgType == n.msgType && !Mismatch(s.slots[0], n)
    ensures Possible(s, ReplacingRun(n)) && After(s, ReplacingRun(n)).delivered == s.delivered + [n]
    ensures After(s, ReplacingRun(n)).tasks[0] == Done(s.tasks[0].want, s.tasks[0].since, Received(n), |s.delivered|)
  {
    RunOfOne(s, Signal);
    var t := Next(s, Signal);
    RunOfTwo(t, Arrive(n), Look);
    Append(s, [Signal], [Arrive(n), Look]);
    var u := Next(Next(t, Arrive(n)), Look);
    RunOfTwo(u, Signal, Wake(0));
    Append(s, [Signal] + [Arrive(n), Look], [Signal, Wake(0)]);
    var v := Next(Next(u, Signal), Wake(0));
    RunOfTwo(v, Release(0), Fetch(0));
    hide Possible, After;
    Append(s, [Signal] + [Arrive(n), Look] + [Signal, Wake(0)], [Release(0), Fetch(0)]);
  }

  /**
   * From boot: before the task wakes a second status comes, for the command with its bytes swapped. It is taken for the
   * one waited for, since the first, in the slot now, is compared without the swap.
   */
  lemma {:induction false} SwappedStatusIsReturned(high: u8, low: u8)
    requires high != low
    ensures var want := Wanted(E_SL_MSG_STATUS, Word(high, low));
            var run := Handing(0, want, StatusOf(high, low)) + ReplacingRun(StatusOf(low, high));
            && Possible(Boot(1), run)
            && var t := After(Boot(1), run);
            t.tasks[0] == Done(want, 0, Received(StatusOf(low, high)), 1) && !Kept(t)
  {
    var want, m, n := Wanted(E_SL_MSG_STATUS, Word(high, low)), StatusOf(high, low), StatusOf(low, high);
    HandingRun(Boot(1), 0, want, m);
    ReplacedIsReturned(After(Boot(1), Handing(0, want, m)), n);
    Append(Boot(1), Handing(0, want, m), ReplacingRun(n));
    hide Possible, After;
    var t := After(Boot(1), Handing(0, want, m) + ReplacingRun(n));
    assert t.delivered == [m] + [n];
    assert !Served(t, t.tasks[0]);
  }

  // ---- A refusal beside a free slot ----

  /** The first `k` tasks wait in the first `k` slots. */
  predicate Filled(s: State, k: nat, want: Wanted) {
    && Sized(s) && k <= SLOTS && k <= |s.tasks| && s.reader.Ready? && s.delivered == []
    && (forall i :: 0 <= i < SLOTS ==> s.slots[i].msgType == (if i < k then want.msgType else 0) && !s.slots[i].bit)
    && forall i :: 0 <= i < |s.tasks| ==> s.tasks[i] == if i < k then Waiting(i, want, 0) else Idle
  }

  /** Task `w` begins to wait and tests the first `k` slots. */
  function Testing(w: nat, want: Wanted, k: nat): seq<Event> {
    if k == 0 then [Begin(w, want)] else Testing(w, want, k - 1) + [Probe(w)]
  }

  lemma {:induction false} TestingRun(s: State, w: nat, want: Wanted, k: nat)
    requires Enabled(s, Begin(w, want)) && k < SLOTS && forall i :: 0 <= i < k ==> s.slots[i].msgType != 0
    ensures Possible(s, Testing(w, want, k)) && After(s, Testing(w, want, k)) == s.(tasks := s.tasks[w := Scanning(k, want)])
  {
    if k == 0 {
      RunOfOne(s, Begin(w, want));
    } else {
      TestingRun(s, w, want, k - 1);
      RunOfOne(After(s, Testing(w, want, k - 1)), Probe(w));
      Append(s, Testing(w, want, k - 1), [Probe(w)]);
    }
  }

  /** Tasks 0 to `k` - 1 begin to wait one after the other. */
  function Filling(k: nat, want: Wanted): seq<Event> {
    if k == 0 then [] else Filling(k - 1, want) + (Testing(k - 1, want, k - 1) + [Probe(k - 1)])
  }

  lemma {:induction false} FillingStep(s: State, k: nat, want: Wanted)
    requires Filled(s, k, want) && k < SLOTS && k < |s.tasks| && want.msgType != 0
    ensures Possible(s, Testing(k, want, k) + [Probe(k)]) && Filled(After(s, Testing(k, want, k) + [Probe(k)]), k + 1, want)
  {
    TestingRun(s, k, want, k);
    RunOfOne(After(s, Testing(k, want, k)), Probe(k));
    Append(s, Testing(k, want, k), [Probe(k)]);
    hide Possible, After;
  }

  lemma {:induction false} FillingRun(tasks: nat, k: nat, want: Wanted)
    requires k <= SLOTS && k <= tasks && want.msgType != 0
    ensures Possible(Boot(tasks), Filling(k, want)) && Filled(After(Boot(tasks), Filling(k, want)), k, want)
  {
    if k > 0 {
      hide Filled, Enabled, Next;
      FillingRun(tasks, k - 1, want);
      FillingStep(After(Boot(tasks), Filling(k - 1, want)), k - 1, want);
      Append(Boot(tasks), Filling(k - 1, want), Testing(k - 1, want, k - 1) + [Probe(k - 1)]);
    } else {
      assert Filling(0, want) == [];
    }
  }

  /** A sixth task tests the first four slots; then the first slot is released; then it tests the fifth. */
  function Overtaking(want: Wanted): seq<Event> { Testing(5, want, 4) + [Expire(0), Release(0), Probe(5)] }

  lemma {:induction false} OvertakingRun(s: State, want: Wanted)
    requires Filled(s, 5, want) && |s.tasks| == 6 && want.msgType != 0
    ensures Possible(s, Overtaking(want))
    ensures var t := After(s, Overtaking(want));
            t.tasks[5] == Refused && Sized(t) && t.slots[0].msgType == 0
  {
    TestingRun(s, 5, want, 4);
    RunOfThree(After(s, Testing(5, want, 4)), Expire(0), Release(0), Probe(5));
    Append(s, Testing(5, want, 4), [Expire(0), Release(0), Probe(5)]);
    hide Possible, After;
  }

  /** From boot: five tasks wait, a sixth tests the first four slots, the first times out, and the sixth is refused. */
  lemma {:induction false} RefusedBesideFreeSlot(want: Wanted)
    requires want.msgType != 0
    ensures Possible(Boot(6), Filling(5, want) + Overtaking(want))
    ensures var t := After(Boot(6), Filling(5, want) + Overtaking(want));
            t.tasks[5] == Refused && Sized(t) && t.slots[0].msgType == 0
  {
    FillingRun(6, 5, want);
    hide Filled, Next, Enabled;
    OvertakingRun(After(Boot(6), Filling(5, want)), want);
    Append(Boot(6), Filling(5, want), Overtaking(want));
  }
}
