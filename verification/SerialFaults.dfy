/**
 * Which damaged frames the decoder accepts: frames cut short anywhere, with the fields and the checksum left by earlier
 * frames, and frames with a changed length byte.
 */
module SerialFaults {
  import opened Bytes
  import opened SerialFrame
  import opened SerialDecoder

  predicate Zeroed(buffer: seq<u8>) { forall i :: 0 <= i < |buffer| ==> buffer[i] == 0 }

  function Zeros(n: nat): seq<u8> { seq(n, _ => 0) }

  // ---- What END judges ----

  /** An announced length that the buffer cannot hold, left from before or just received, is never accepted. */
  lemma LongFrameIsRejected(rx: Rx, bs: seq<u8>, d: seq<u8>)
    requires rx.Valid() && InFrame(bs) && d == Destuff(bs).data
    requires FieldAt(d, 2, rx.length) >= SL_MAX_MESSAGE_LENGTH
    ensures DeliveredFor(rx, bs) == []
  {
    EndDecides(Reader(rx, []), bs);
    hide Run, Crc;
  }

  /** A frame cut before its checksum is judged by the checksum of an earlier frame and what the buffer holds. */
  lemma HeaderIsJudged(rx: Rx, bs: seq<u8>, d: seq<u8>)
    requires rx.Valid() && InFrame(bs) && d == Destuff(bs).data && |d| < 5
    requires FieldAt(d, 2, rx.length) < SL_MAX_MESSAGE_LENGTH
    ensures var t, n := FieldAt(d, 0, rx.msgType), FieldAt(d, 2, rx.length);
            DeliveredFor(rx, bs) == if rx.crc == Crc(t, n, rx.buffer[..n]) then [Message(t, rx.buffer[..n])] else []
  {
    EndDecides(Reader(rx, []), bs);
    hide Run, Crc;
    var at := Reading(rx, Destuff(bs));
    assert at.buffer == [] + rx.buffer[0..] == rx.buffer;
  }

  /** The `m` payload bytes that END takes: those that arrived, and behind them what the buffer held. */
  function Judged(rx: Rx, d: seq<u8>, m: nat): (p: seq<u8>)
    requires rx.Valid() && |d| >= 5 && m <= SL_MAX_MESSAGE_LENGTH
    ensures |p| == m
  {
    if |d| >= 5 + m then d[5..5 + m] else d[5..] + rx.buffer[|d| - 5..m]
  }

  lemma JudgedAt(rx: Rx, d: seq<u8>, m: nat, i: nat)
    requires rx.Valid() && |d| >= 5 && i < m <= SL_MAX_MESSAGE_LENGTH
    ensures Judged(rx, d, m)[i] == if 5 + i < |d| then d[5 + i] else rx.buffer[i]
  {
  }

  lemma FrameIsJudged(rx: Rx, bs: seq<u8>, d: seq<u8>, n: nat)
    requires rx.Valid() && InFrame(bs) && d == Destuff(bs).data
    requires |d| >= 5 && n == Word(d[2], d[3]) < SL_MAX_MESSAGE_LENGTH
    ensures DeliveredFor(rx, bs) ==
            if XorFrom(0, d[..5] + Judged(rx, d, n)) == 0 then [Message(Word(d[0], d[1]), Judged(rx, d, n))] else []
  {
    hide DeliveredFor, XorFrom, Destuff;
    if |d| >= 5 + n {
      CompleteFrame(rx, bs, d, n);
      assert d[..5] + d[5..5 + n] == d[..5 + n];
    } else {
      TruncatedFrame(rx, bs, d, n, Judged(rx, d, n));
    }
  }

  // ---- Cut frames ----

  /** Up to the checksum: the stale checksum must be the XOR of the bytes that arrived, whatever zeros are announced. */
  lemma HeaderCancels(d: seq<u8>, n: u16, crc: u8)
    requires 3 <= |d| <= 4 && n == FieldAt(d, 2, 0)
    ensures crc == Crc(Word(d[0], d[1]), n, Zeros(n)) <==> XorFrom(0, d) == crc
  {
    var four := if |d| == 4 then d else d + [0];
    var h := four + [crc];
    hide XorFrom, Crc;
    CrcIsCancellation(h, Zeros(n));
    XorFromConcat(0, h, Zeros(n));
    XorFromZeros(XorFrom(0, h), Zeros(n));
    XorFromSnoc(0, four, crc);
    if |d| == 3 {
      XorFromSnoc(0, d, 0);
      XorWithZero(XorFrom(0, d));
    }
    XorIsZero(XorFrom(0, d), crc);
  }

  /** What a quiet reader with a cleared buffer makes of the destuffed bytes `d` of one frame, for all of them. */
  function Verdict(crc: u8, d: seq<u8>): seq<Message> {
    if |d| < 3 then []
    else
      var n := FieldAt(d, 2, 0);
      if n >= SL_MAX_MESSAGE_LENGTH then []
      else if |d| < 5 then if XorFrom(0, d) == crc then [Message(Word(d[0], d[1]), Zeros(n))] else []
      else if |d| < 5 + n then if XorFrom(0, d) == 0 then [Message(Word(d[0], d[1]), d[5..] + Zeros(5 + n - |d|))] else []
      else if XorFrom(0, d[..5 + n]) == 0 then [Message(Word(d[0], d[1]), d[5..5 + n])] else []
  }

  /**
   * Acceptance, for every frame: fewer than three destuffed bytes are never accepted; three or four exactly when the
   * announced length is below 256 and the checksum left by an earlier frame is the XOR of the bytes that arrived; five or
   * more exactly when the length is below 256 and the bytes that arrived, up to the announced ones, cancel.
   */
  lemma {:induction false} AcceptedExactlyWhen(rx: Rx, bs: seq<u8>)
    requires Quiet(rx) && Zeroed(rx.buffer) && InFrame(bs)
    ensures DeliveredFor(rx, bs) == Verdict(rx.crc, Destuff(bs).data)
  {
    hide DeliveredFor, XorFrom, Destuff, Crc;
    var d := Destuff(bs).data;
    var n := FieldAt(d, 2, rx.length);
    if n >= SL_MAX_MESSAGE_LENGTH {
      LongFrameIsRejected(rx, bs, d);
    } else if |d| < 5 {
      HeaderIsJudged(rx, bs, d);
      assert rx.buffer[..n] == Zeros(n);
      HeaderCancels(d, n, rx.crc);
    } else {
      FrameIsJudged(rx, bs, d, n);
      PaddedCancels(rx, d, n);
    }
  }

  lemma JudgedIsPadded(rx: Rx, d: seq<u8>, n: nat)
    requires rx.Valid() && Zeroed(rx.buffer) && |d| >= 5 && n < SL_MAX_MESSAGE_LENGTH
    ensures Judged(rx, d, n) == if |d| < 5 + n then d[5..] + Zeros(5 + n - |d|) else d[5..5 + n]
  {
    if |d| < 5 + n {
      assert rx.buffer[|d| - 5..n] == Zeros(5 + n - |d|);
    }
  }

  lemma PaddedCancels(rx: Rx, d: seq<u8>, n: nat)
    requires rx.Valid() && Zeroed(rx.buffer) && |d| >= 5 && n < SL_MAX_MESSAGE_LENGTH
    ensures Judged(rx, d, n) == if |d| < 5 + n then d[5..] + Zeros(5 + n - |d|) else d[5..5 + n]
    ensures XorFrom(0, d[..5] + Judged(rx, d, n)) == if |d| < 5 + n then XorFrom(0, d) else XorFrom(0, d[..5 + n])
  {
    hide XorFrom, Judged;
    JudgedIsPadded(rx, d, n);
    if |d| < 5 + n {
      PaddedSum(d, Zeros(5 + n - |d|));
    } else {
      hide Zeros, Zeroed;
      assert d[..5] + d[5..5 + n] == d[..5 + n];
    }
  }

  lemma PaddedSum(d: seq<u8>, zeros: seq<u8>)
    requires |d| >= 5 && Zeroed(zeros)
    ensures XorFrom(0, d[..5] + (d[5..] + zeros)) == XorFrom(0, d)
  {
    hide XorFrom;
    assert d[..5] + (d[5..] + zeros) == d + zeros;
    XorFromConcat(0, d, zeros);
    XorFromZeros(XorFrom(0, d), zeros);
  }

  /** The checksum that a cut frame is judged by is that of the last frame whose own checksum arrived. */
  lemma {:induction false} StaleChecksum(r: Reader, bs: seq<u8>)
    requires r.rx.Valid() && InFrame(bs)
    ensures var d := Destuff(bs).data;
            Run(r, [SL_START] + bs + [SL_END]).rx.crc == if |d| < 5 || TooLong(d) then r.rx.crc else d[4]
  {
    EndDecides(r, bs);
    hide Run, Crc;
  }

  /** A delivery leaves the reader as `AcceptedExactlyWhen` asks: waiting for START, with nothing of the message left. */
  lemma {:induction false} DeliveryClears(rx: Rx, bs: seq<u8>)
    requires rx.Valid() && InFrame(bs) && DeliveredFor(rx, bs) != []
    ensures var r := Run(Reader(rx, []), [SL_START] + bs + [SL_END]).rx;
            Quiet(r) && Zeroed(r.buffer) && r.msgType == 0 && r.length == 0xFFFF
  {
    EndDecides(Reader(rx, []), bs);
    hide Run, Crc, Reading;
  }

  /** So the frame after a delivered one is judged by its own bytes and, if it is cut in its header, by the checksum before. */
  lemma {:induction false} NextFrameIsJudgedAfresh(rx: Rx, first: seq<u8>, second: seq<u8>)
    requires rx.Valid() && InFrame(first) && DeliveredFor(rx, first) != [] && InFrame(second)
    ensures var r, d := Run(Reader(rx, []), [SL_START] + first + [SL_END]).rx, Destuff(first).data;
            DeliveredFor(r, second) == Verdict(if |d| < 5 || TooLong(d) then rx.crc else d[4], Destuff(second).data)
  {
    DeliveryClears(rx, first);
    StaleChecksum(Reader(rx, []), first);
    hide Run, DeliveredFor, Verdict, Destuff;
    AcceptedExactlyWhen(Run(Reader(rx, []), [SL_START] + first + [SL_END]).rx, second);
  }

  /** At boot three zero bytes are a message of type 0. */
  lemma BootFragmentIsAccepted()
    ensures DeliveredFor(BOOT_RX, Stuff([0, 0, 0])) == [Message(0, [])]
  {
    hide DeliveredFor, Stuff, Destuff, Xor, XorFrom;
    ThreeBytes(0);
    StuffShape([0, 0, 0]);
    StuffRoundTrip([0, 0, 0]);
    AcceptedExactlyWhen(BOOT_RX, Stuff([0, 0, 0]));
    assert Zeros(0) == [];
  }

  /** After a message with checksum 0x10 three bytes that do not cancel are accepted. */
  lemma HeaderMayPass(rx: Rx)
    requires rx == BOOT_RX.(crc := 0x10)
    ensures DeliveredFor(rx, Stuff([0x10, 0, 0])) == [Message(0x1000, [])] && XorFrom(0, [0x10, 0, 0]) != 0
  {
    hide DeliveredFor, Stuff, Destuff, Xor, XorFrom;
    ThreeBytes(0x10);
    StuffShape([0x10, 0, 0]);
    StuffRoundTrip([0x10, 0, 0]);
    AcceptedExactlyWhen(rx, Stuff([0x10, 0, 0]));
    assert Zeros(0) == [];
  }

  lemma ThreeBytes(b: u8)
    ensures XorFrom(0, [b, 0, 0]) == b
  {
    hide XorFrom;
    XorFromConcat(0, [b], [0, 0]);
    XorFromZeros(XorFrom(0, [b]), [0, 0]);
    assert [b] + [0, 0] == [b, 0, 0] && [] + [b] == [b];
    XorFromSnoc(0, [], b);
    XorFromNothing(0);
    XorWithZero(b);
  }

  lemma XorFromNothing(seed: u8)
    ensures XorFrom(seed, []) == seed
  {
  }

  // ---- A changed length byte ----

  /** Changing one byte changes the sum by the difference of the two. */
  lemma XorFromChange(s: seq<u8>, i: nat, v: u8)
    requires i < |s|
    ensures XorFrom(0, s[i := v]) == Xor(XorFrom(0, s), Xor(s[i], v))
  {
    var p, q := s[..i], s[i + 1..];
    assert s == (p + [s[i]]) + q;
    assert s[i := v] == (p + [v]) + q;
    XorFromOneMore(p, s[i], q);
    XorFromOneMore(p, v, q);
    hide XorFrom, Xor;
    var rest := XorFrom(XorFrom(0, p), q);
    XorAssociates(Xor(rest, s[i]), s[i], v);
    XorCancels(rest, s[i]);
  }

  function Less(a: nat, b: nat): nat { if a < b then a else b }

  function More(a: nat, b: nat): nat { if a < b then b else a }

  /** A shorter judged payload is the beginning of a longer one, and the sums differ by the bytes between. */
  lemma JudgedGrows(rx: Rx, d: seq<u8>, a: nat, b: nat)
    requires rx.Valid() && |d| >= 5 && a <= b <= SL_MAX_MESSAGE_LENGTH
    ensures Judged(rx, d, b)[..a] == Judged(rx, d, a)
    ensures XorFrom(0, d[..5] + Judged(rx, d, b)) == Xor(XorFrom(0, d[..5] + Judged(rx, d, a)), XorFrom(0, Judged(rx, d, b)[a..]))
  {
    var short, long := Judged(rx, d, a), Judged(rx, d, b);
    forall i | 0 <= i < a ensures long[i] == short[i] {
      JudgedAt(rx, d, a, i);
      JudgedAt(rx, d, b, i);
    }
    assert long[..a] == short;
    var h, between := d[..5], long[a..];
    hide Judged, XorFrom, Xor;
    assert h + long == (h + short) + between;
    XorFromConcat(0, h + short, between);
    XorFromSeed(0, XorFrom(0, h + short), between);
    XorWithZero(XorFrom(0, h + short));
    XorCommutes(XorFrom(0, h + short), XorFrom(0, between));
  }

  /**
   * For every accepted frame and every change of its low length byte: the changed frame is accepted if and only if the
   * bytes that it judges more, or less, add up to the change of the length byte.
   */
  lemma LengthErrorPassesExactlyWhen(rx: Rx, good: seq<u8>, bad: seq<u8>, d: seq<u8>, v: u8)
    requires rx.Valid() && InFrame(good) && InFrame(bad) && d == Destuff(good).data
    requires |d| >= 5 && DeliveredFor(rx, good) != [] && v != d[3] && Destuff(bad).data == d[3 := v]
    ensures d[2] == 0
    ensures DeliveredFor(rx, bad) ==
            if XorFrom(0, Judged(rx, d, More(d[3], v))[Less(d[3], v)..]) == Xor(d[3], v)
            then [Message(Word(d[0], d[1]), Judged(rx, d, v))] else []
  {
    hide DeliveredFor, XorFrom, Destuff, Xor;
    if Word(d[2], d[3]) >= SL_MAX_MESSAGE_LENGTH {
      LongFrameIsRejected(rx, good, d);
    }
    var n: nat := d[3];
    FrameIsJudged(rx, good, d, n);
    var e := d[3 := v];
    FrameIsJudged(rx, bad, e, v);
    SameJudged(rx, d, v);
    var pn, pv := Judged(rx, d, n), Judged(rx, d, v);
    LengthChanges(d, pv, v);
    SumsMeet(rx, d, n, v);
  }

  lemma SameJudged(rx: Rx, d: seq<u8>, v: u8)
    requires rx.Valid() && |d| >= 5
    ensures Judged(rx, d[3 := v], v) == Judged(rx, d, v)
  {
    var e := d[3 := v];
    assert e[5..] == d[5..];
    if |d| >= 5 + v {
      assert e[5..5 + v] == d[5..5 + v];
    }
  }

  lemma LengthChanges(d: seq<u8>, p: seq<u8>, v: u8)
    requires |d| >= 5
    ensures XorFrom(0, d[3 := v][..5] + p) == Xor(XorFrom(0, d[..5] + p), Xor(d[3], v))
  {
    XorFromChange(d[..5] + p, 3, v);
    assert (d[..5] + p)[3 := v] == d[3 := v][..5] + p;
  }

  /** With the accepted sum zero, the changed sum is zero exactly when the bytes between make up for the change. */
  lemma SumsMeet(rx: Rx, d: seq<u8>, n: nat, v: u8)
    requires rx.Valid() && |d| >= 5 && n == d[3] && XorFrom(0, d[..5] + Judged(rx, d, n)) == 0
    ensures Xor(XorFrom(0, d[..5] + Judged(rx, d, v)), Xor(d[3], v)) == 0
            <==> XorFrom(0, Judged(rx, d, More(n, v))[Less(n, v)..]) == Xor(d[3], v)
  {
    hide XorFrom, Xor, Judged;
    JudgedGrows(rx, d, Less(n, v), More(n, v));
    var sum, between := XorFrom(0, d[..5] + Judged(rx, d, v)), XorFrom(0, Judged(rx, d, More(n, v))[Less(n, v)..]);
    XorIsZero(sum, Xor(d[3], v));
    if n <= v {
      XorWithZero(between);
    } else {
      XorIsZero(sum, between);
    }
  }

  /** A changed high length byte of an accepted frame announces 256 bytes or more: always rejected. */
  lemma LengthHighErrorIsRejected(rx: Rx, good: seq<u8>, bad: seq<u8>, d: seq<u8>, v: u8)
    requires rx.Valid() && InFrame(good) && InFrame(bad) && d == Destuff(good).data
    requires |d| >= 5 && DeliveredFor(rx, good) != [] && v != d[2] && Destuff(bad).data == d[2 := v]
    ensures DeliveredFor(rx, bad) == []
  {
    hide DeliveredFor, Destuff;
    if Word(d[2], d[3]) >= SL_MAX_MESSAGE_LENGTH {
      LongFrameIsRejected(rx, good, d);
    }
    LongFrameIsRejected(rx, bad, d[2 := v]);
  }

  /**
   * For a frame with just its announced bytes: a shorter length is accepted exactly when the bytes cut off add up to the
   * change; a longer one, in a cleared buffer, never.
   */
  lemma LengthErrorOfExactFrame(rx: Rx, good: seq<u8>, bad: seq<u8>, d: seq<u8>, v: u8)
    requires rx.Valid() && InFrame(good) && InFrame(bad) && d == Destuff(good).data
    requires |d| >= 5 && |d| - 5 == d[3] && DeliveredFor(rx, good) != [] && v != d[3] && Destuff(bad).data == d[3 := v]
    ensures v < d[3] ==> (DeliveredFor(rx, bad) != [] <==> XorFrom(0, d[5 + v..]) == Xor(d[3], v))
    ensures v > d[3] && Zeroed(rx.buffer) ==> DeliveredFor(rx, bad) == []
  {
    hide DeliveredFor, XorFrom, Destuff, Xor;
    LengthErrorPassesExactlyWhen(rx, good, bad, d, v);
    if v < d[3] {
      assert Judged(rx, d, d[3])[v..] == d[5 + v..];
    } else if Zeroed(rx.buffer) {
      var between := Judged(rx, d, v)[d[3]..];
      assert Zeroed(between);
      XorFromZeros(0, between);
      XorIsZero(d[3], v);
    }
  }
}
