/**
 * The wire format of the serial link: byte stuffing, the exclusive-or checksum and the
 * frame that `eSL_WriteMessage` puts on the UART.
 */
module SerialFrame {
  import opened Bytes

  const SL_START: u8 := 0x01
  const SL_ESC: u8 := 0x02
  const SL_END: u8 := 0x03
  const SL_MAX_MESSAGE_LENGTH: nat := 256

  /** A message of the serial link. */
  datatype Message = Message(msgType: u16, payload: seq<u8>)

  /** The checksum covers the type, the length and the payload, not itself. */
  function Crc(msgType: u16, length: u16, payload: seq<u8>): u8 {
    XorFrom(Xor(Xor(Xor(Lo(msgType), Hi(msgType)), Lo(length)), Hi(length)), payload)
  }

  /** The five header bytes and the payload, before stuffing. */
  function Body(m: Message): seq<u8>
    requires |m.payload| < 0x1_0000
  {
    var n := |m.payload|;
    [Hi(m.msgType), Lo(m.msgType), Hi(n), Lo(n), Crc(m.msgType, n, m.payload)] + m.payload
  }

  function StuffByte(b: u8): seq<u8> {
    if b < 0x10 then [SL_ESC, Xor(b, 0x10)] else [b]
  }

  function Stuff(d: seq<u8>): seq<u8> {
    if |d| == 0 then [] else Stuff(d[..|d| - 1]) + StuffByte(d[|d| - 1])
  }

  function Frame(m: Message): seq<u8>
    requires |m.payload| < 0x1_0000
  {
    [SL_START] + Stuff(Body(m)) + [SL_END]
  }

  /** Bytes that can stand between START and END of one frame. */
  predicate InFrame(bs: seq<u8>) {
    forall i :: 0 <= i < |bs| ==> bs[i] != SL_START && bs[i] != SL_END
  }

  /** What a receiver that drops escapes reads, and whether an escape is still pending. */
  datatype Destuffed = Destuffed(data: seq<u8>, pending: bool)

  function Destuff(bs: seq<u8>): Destuffed {
    if |bs| == 0 then Destuffed([], false)
    else DestuffNext(Destuff(bs[..|bs| - 1]), bs[|bs| - 1])
  }

  function DestuffNext(d: Destuffed, b: u8): Destuffed {
    if b == SL_ESC then d.(pending := true)
    else Destuffed(d.data + [if d.pending then Xor(b, 0x10) else b], false)
  }

  // ---- Laws of the format ----

  lemma DestuffSnoc(bs: seq<u8>, b: u8)
    ensures Destuff(bs + [b]) == DestuffNext(Destuff(bs), b)
  {
    assert (bs + [b])[..|bs|] == bs;
  }

  /** The checksum byte agrees exactly when all header and payload bytes cancel. */
  lemma CrcIsCancellation(h: seq<u8>, payload: seq<u8>)
    requires |h| == 5
    ensures h[4] == Crc(Word(h[0], h[1]), Word(h[2], h[3]), payload) <==> XorFrom(0, h + payload) == 0
  {
    var crc := Crc(Word(h[0], h[1]), Word(h[2], h[3]), payload);
    var sum := Xor(Xor(Xor(h[1], h[0]), h[3]), h[2]);
    assert Lo(Word(h[0], h[1])) == h[1] && Hi(Word(h[0], h[1])) == h[0];
    assert Lo(Word(h[2], h[3])) == h[3] && Hi(Word(h[2], h[3])) == h[2];
    XorFromConcat(0, h, payload);
    XorFromHeader(h);
    XorFromSeed(sum, h[4], payload);
    XorIsZero(crc, h[4]);
  }

  lemma XorFromHeader(h: seq<u8>)
    requires |h| == 5
    ensures XorFrom(0, h) == Xor(Xor(Xor(Xor(h[1], h[0]), h[3]), h[2]), h[4])
  {
    hide Xor;
    assert XorFrom(0, []) == 0;
    hide XorFrom;
    XorFromSnoc(0, [], h[0]);
    XorFromSnoc(0, [h[0]], h[1]);
    XorFromSnoc(0, [h[0], h[1]], h[2]);
    XorFromSnoc(0, [h[0], h[1], h[2]], h[3]);
    XorFromSnoc(0, [h[0], h[1], h[2], h[3]], h[4]);
    assert [] + [h[0]] == [h[0]] && [h[0]] + [h[1]] == [h[0], h[1]];
    assert [h[0], h[1]] + [h[2]] == [h[0], h[1], h[2]];
    assert [h[0], h[1], h[2]] + [h[3]] == [h[0], h[1], h[2], h[3]];
    assert [h[0], h[1], h[2], h[3]] + [h[4]] == h;
    XorWithZero(h[0]);
    XorCommutes(h[0], h[1]);
    XorSwap(Xor(h[1], h[0]), h[2], h[3]);
  }

  /** Every frame body cancels. */
  lemma BodyCancels(m: Message)
    requires |m.payload| < 0x1_0000
    ensures XorFrom(0, Body(m)) == 0
  {
    hide Xor;
    CrcIsCancellation(Body(m)[..5], m.payload);
    assert Body(m) == Body(m)[..5] + m.payload;
  }

  lemma DestuffStuffed(a: seq<u8>, d: u8)
    requires !Destuff(a).pending
    ensures Destuff(a + StuffByte(d)) == Destuffed(Destuff(a).data + [d], false)
  {
    if d < 0x10 {
      XorEscape(d);
      var s := a + [SL_ESC];
      assert (s + [d + 0x10])[..|s|] == s && s[..|a|] == a;
      assert a + StuffByte(d) == s + [d + 0x10];
    } else {
      assert (a + [d])[..|a|] == a;
    }
  }

  lemma StuffSnoc(d: seq<u8>, b: u8)
    ensures Stuff(d + [b]) == Stuff(d) + StuffByte(b)
  {
    assert (d + [b])[..|d|] == d;
  }

  lemma StuffByteShape(b: u8)
    ensures InFrame(StuffByte(b)) && 1 <= |StuffByte(b)| <= 2
  {
    if b < 0x10 {
      XorEscape(b);
    }
  }

  /** Stuffing keeps START and END out of the frame and at most doubles it. */
  lemma {:induction false} StuffShape(d: seq<u8>)
    ensures InFrame(Stuff(d))
    ensures |d| <= |Stuff(d)| <= 2 * |d|
  {
    if |d| > 0 {
      hide StuffByte;
      StuffShape(d[..|d| - 1]);
      StuffByteShape(d[|d| - 1]);
    }
  }

  /** Stuffing is undone by destuffing and leaves no escape pending. */
  lemma {:induction false} StuffRoundTrip(d: seq<u8>)
    ensures Destuff(Stuff(d)) == Destuffed(d, false)
  {
    if |d| > 0 {
      hide Stuff, StuffByte, Destuff;
      var p, b := d[..|d| - 1], d[|d| - 1];
      assert d == p + [b];
      StuffSnoc(p, b);
      StuffRoundTrip(p);
      DestuffStuffed(Stuff(p), b);
    }
  }

  /** An ESC inside a stuffed run is always an escape: the byte after it is the image of a byte below 0x10. */
  lemma {:induction false} StuffEscapes(d: seq<u8>, i: nat)
    requires i < |Stuff(d)| && Stuff(d)[i] == SL_ESC
    ensures i + 1 < |Stuff(d)| && 0x10 <= Stuff(d)[i + 1] < 0x20
  {
    var p, b := d[..|d| - 1], d[|d| - 1];
    if i < |Stuff(p)| {
      StuffEscapes(p, i);
    } else if b < 0x10 {
      XorEscape(b);
    }
  }

  /**
   * A frame has one START, one END and at most 12 + 2n bytes in all, so for at most 121
   * payload bytes its length fits the 8-bit transmit index.
   */
  lemma FrameBound(m: Message)
    requires |m.payload| < 0x1_0000
    ensures |m.payload| + 7 <= |Frame(m)| <= 12 + 2 * |m.payload|
    ensures |m.payload| <= 121 ==> |Frame(m)| <= 254
    ensures InFrame(Frame(m)[1..|Frame(m)| - 1])
    ensures forall i :: 1 <= i < |Frame(m)| - 1 && Frame(m)[i] == SL_ESC ==>
              i + 1 < |Frame(m)| - 1 && 0x10 <= Frame(m)[i + 1] < 0x20
  {
    hide Xor;
    var s := Stuff(Body(m));
    StuffShape(Body(m));
    assert Frame(m)[1..|Frame(m)| - 1] == s;
    forall i | 1 <= i < |Frame(m)| - 1 && Frame(m)[i] == SL_ESC
      ensures i + 1 < |Frame(m)| - 1 && 0x10 <= Frame(m)[i + 1] < 0x20
    {
      StuffEscapes(Body(m), i - 1);
      assert Frame(m)[i] == s[i - 1] && Frame(m)[i + 1] == s[i];
    }
  }

  // ---- The format without the encoder ----

  /** Bytes below 0x10 stand only as 0x02 in front of a byte from 0x10 to 0x1F. */
  predicate Escaped(bs: seq<u8>) {
    forall i :: 0 <= i < |bs| && bs[i] < 0x10 ==> bs[i] == 0x02 && i + 1 < |bs| && 0x10 <= bs[i + 1] < 0x20
  }

  lemma {:induction false} StuffIsEscaped(d: seq<u8>)
    ensures Escaped(Stuff(d))
  {
    forall i | 0 <= i < |Stuff(d)| && Stuff(d)[i] < 0x10
      ensures Stuff(d)[i] == 0x02
    {
      SmallIsEscape(d, i);
    }
    forall i | 0 <= i < |Stuff(d)| && Stuff(d)[i] < 0x10
      ensures i + 1 < |Stuff(d)| && 0x10 <= Stuff(d)[i + 1] < 0x20
    {
      SmallIsEscape(d, i);
      StuffEscapes(d, i);
    }
  }

  lemma {:induction false} SmallIsEscape(d: seq<u8>, i: nat)
    requires i < |Stuff(d)| && Stuff(d)[i] < 0x10
    ensures Stuff(d)[i] == 0x02
  {
    var p, b := d[..|d| - 1], d[|d| - 1];
    if i < |Stuff(p)| {
      SmallIsEscape(p, i);
    } else if b < 0x10 {
      XorEscape(b);
    }
  }

  lemma EscapedEnds(bs: seq<u8>)
    requires Escaped(bs)
    ensures |bs| > 0 ==> bs[|bs| - 1] >= 0x10 && !Destuff(bs).pending
  {
  }

  /** Stuffing is the one way to escape: the bytes that read back as `d` with every small byte escaped. */
  lemma {:induction false} StuffIsTheEscaping(d: seq<u8>, bs: seq<u8>)
    ensures bs == Stuff(d) <==> Escaped(bs) && Destuff(bs) == Destuffed(d, false)
  {
    if bs == Stuff(d) {
      StuffIsEscaped(d);
      StuffRoundTrip(d);
    }
    if Escaped(bs) && Destuff(bs) == Destuffed(d, false) {
      hide *;
      EscapingIsUnique(d, bs);
    }
  }

  /** How many bytes the last data byte takes. */
  function TailWidth(bs: seq<u8>): nat { if |bs| >= 2 && bs[|bs| - 2] == 0x02 then 2 else 1 }

  lemma {:induction false} EscapedFront(bs: seq<u8>)
    requires Escaped(bs) && |bs| > 0
    ensures bs[|bs| - 1] >= 0x10 && (TailWidth(bs) == 2 ==> bs[|bs| - 1] < 0x20)
    ensures Escaped(bs[..|bs| - TailWidth(bs)])
  {
  }

  lemma {:induction false} TailIsStuffed(bs: seq<u8>)
    requires Escaped(bs) && |bs| > 0
    ensures var front, b := bs[..|bs| - TailWidth(bs)], bs[|bs| - 1];
            var x := if TailWidth(bs) == 2 then b - 0x10 else b;
            && 0 <= x && Destuff(bs).data == Destuff(front).data + [x] && bs == front + StuffByte(x)
  {
    EscapedFront(bs);
    var front, b := bs[..|bs| - TailWidth(bs)], bs[|bs| - 1];
    EscapedEnds(front);
    hide Escaped, Destuff, Xor;
    if TailWidth(bs) == 2 {
      EscapedByte(b - 0x10);
      XorEscape(b - 0x10);
      DestuffSnoc(front, 0x02);
      DestuffSnoc(front + [0x02], b);
      assert bs == front + [0x02] + [b];
      assert bs == front + [0x02, b];
    } else {
      EscapedByte(b);
      DestuffSnoc(front, b);
      assert bs == front + [b];
    }
  }

  lemma {:induction false} EscapingIsUnique(d: seq<u8>, bs: seq<u8>)
    requires Escaped(bs) && Destuff(bs).data == d
    ensures bs == Stuff(d)
    decreases |bs|
  {
    if |bs| > 0 {
      var front, b := bs[..|bs| - TailWidth(bs)], bs[|bs| - 1];
      var x := if TailWidth(bs) == 2 then b - 0x10 else b;
      EscapedFront(bs);
      TailIsStuffed(bs);
      hide *;
      hide TailWidth;
      EscapingIsUnique(Destuff(front).data, front);
      StuffSnoc(Destuff(front).data, x);
    }
  }

  lemma EscapedByte(b: u8)
    ensures StuffByte(b) == if b < 0x10 then [0x02, b + 0x10] else [b]
  {
    if b < 0x10 {
      XorEscape(b);
    }
  }

  /** Where the byte at `k` goes: behind what the bytes before it take, with 0x10 added behind an escape when it is small. */
  lemma {:induction false} StuffedByteStands(d: seq<u8>, k: nat)
    requires k < |d|
    ensures var s, p := Stuff(d), |Stuff(d[..k])|;
            && |Stuff(d[..k + 1])| == (if d[k] < 0x10 then p + 2 else p + 1) <= |s|
            && if d[k] < 0x10 then s[p] == 0x02 && s[p + 1] == d[k] + 0x10 else s[p] == d[k]
  {
    var front := d[..|d| - 1];
    EscapedByte(d[|d| - 1]);
    if k < |d| - 1 {
      assert front[..k] == d[..k] && front[..k + 1] == d[..k + 1];
      StuffedByteStands(front, k);
    } else {
      assert d[..k + 1] == d;
    }
  }

  /** `s` is the message as the serial link carries it: START, the escaped header, checksum and payload, END. */
  predicate OnTheWire(s: seq<u8>, msgType: u16, payload: seq<u8>)
    requires |payload| < 0x1_0000
  {
    && |s| >= 2 && s[0] == 0x01 && s[|s| - 1] == 0x03 && Escaped(s[1..|s| - 1])
    && var d := Destuff(s[1..|s| - 1]).data;
    && |d| == 5 + |payload| && d[5..] == payload && XorFrom(0, d) == 0
    && d[0] == msgType / 0x100 && d[1] == msgType % 0x100 && d[2] == |payload| / 0x100 && d[3] == |payload| % 0x100
  }

  /** The frame of a message is its one form on the wire. */
  lemma {:induction false} FrameIsTheWireForm(m: Message, s: seq<u8>)
    requires |m.payload| < 0x1_0000
    ensures s == Frame(m) <==> OnTheWire(s, m.msgType, m.payload)
  {
    hide Stuff, Destuff, Xor, XorFrom, Crc, Escaped;
    var b := Body(m);
    BodyCancels(m);
    StuffIsTheEscaping(b, Stuff(b));
    assert Frame(m)[1..|Frame(m)| - 1] == Stuff(b);
    assert b[5..] == m.payload;
    if OnTheWire(s, m.msgType, m.payload) {
      var inner := s[1..|s| - 1];
      var d := Destuff(inner).data;
      assert d == d[..5] + m.payload;
      CrcIsCancellation(d[..5], m.payload);
      assert d == b;
      EscapedIsComplete(inner);
      StuffIsTheEscaping(b, inner);
      assert s == [0x01] + inner + [0x03];
    }
  }

  lemma EscapedIsComplete(bs: seq<u8>)
    requires Escaped(bs)
    ensures Destuff(bs) == Destuffed(Destuff(bs).data, false)
  {
    EscapedEnds(bs);
  }

  lemma StuffEmpty()
    ensures Stuff([]) == []
  {
  }

  lemma {:induction false} StuffConcat(c: seq<u8>, d: seq<u8>)
    ensures Stuff(c + d) == Stuff(c) + Stuff(d)
  {
    hide *;
    if d == [] {
      assert c + d == c;
      StuffEmpty();
    } else {
      var p, b := d[..|d| - 1], d[|d| - 1];
      StuffConcat(c, p);
      StuffSnoc(p, b);
      StuffSnoc(c + p, b);
      assert d == p + [b];
      assert c + d == c + p + [b];
    }
  }

  /** The message that selects channel 26. */
  lemma ChannelMaskFrame()
    ensures Frame(Message(0x0021, [0x04, 0x00, 0x00, 0x00])) ==
            [0x01, 0x02, 0x10, 0x21, 0x02, 0x10, 0x02, 0x14, 0x21, 0x02, 0x14, 0x02, 0x10, 0x02, 0x10, 0x02, 0x10, 0x03]
  {
    ChannelMaskSum();
    hide Stuff, Crc;
    var head, payload := [0x00, 0x21, 0x00, 0x04, 0x21], [0x04, 0x00, 0x00, 0x00];
    assert Body(Message(0x0021, payload)) == head + payload;
    StuffConcat(head, payload);
    StuffedHead();
    StuffedMask();
  }

  lemma ChannelMaskSum()
    ensures Crc(0x0021, 0x0004, [0x04, 0x00, 0x00, 0x00]) == 0x21
  {
    hide Xor;
    XorWithZero(0x21);
    XorWithZero(Xor(0x21, 0x04));
    XorCancels(0x21, 0x04);
    var seed := Xor(0x21, 0x04);
    assert XorFrom(seed, []) == seed;
    hide XorFrom;
    XorFromSnoc(seed, [], 0x04);
    XorFromSnoc(seed, [0x04], 0x00);
    XorFromSnoc(seed, [0x04, 0x00], 0x00);
    XorFromSnoc(seed, [0x04, 0x00, 0x00], 0x00);
    assert [] + [0x04] == [0x04] && [0x04] + [0x00] == [0x04, 0x00] && [0x04, 0x00] + [0x00] == [0x04, 0x00, 0x00];
    assert [0x04, 0x00, 0x00] + [0x00] == [0x04, 0x00, 0x00, 0x00];
  }

  lemma StuffedHead()
    ensures Stuff([0x00, 0x21, 0x00, 0x04, 0x21]) == [0x02, 0x10, 0x21, 0x02, 0x10, 0x02, 0x14, 0x21]
  {
    hide *;
    StuffTwo(0x00, 0x21);
    StuffTwo(0x00, 0x04);
    StuffOne(0x21);
    StuffConcat([0x00, 0x21], [0x00, 0x04]);
    assert [0x00, 0x21] + [0x00, 0x04] == [0x00, 0x21, 0x00, 0x04];
    StuffConcat([0x00, 0x21, 0x00, 0x04], [0x21]);
    assert [0x00, 0x21, 0x00, 0x04] + [0x21] == [0x00, 0x21, 0x00, 0x04, 0x21];
  }

  lemma StuffedMask()
    ensures Stuff([0x04, 0x00, 0x00, 0x00]) == [0x02, 0x14, 0x02, 0x10, 0x02, 0x10, 0x02, 0x10]
  {
    StuffTwo(0x04, 0x00);
    StuffTwo(0x00, 0x00);
    hide *;
    StuffConcat([0x04, 0x00], [0x00, 0x00]);
    assert [0x04, 0x00] + [0x00, 0x00] == [0x04, 0x00, 0x00, 0x00];
  }

  lemma StuffOne(b: u8)
    ensures Stuff([b]) == if b < 0x10 then [0x02, b + 0x10] else [b]
  {
    EscapedByte(b);
    hide StuffByte;
    assert [b][..0] == [] && Stuff([]) == [];
  }

  lemma StuffTwo(b: u8, c: u8)
    ensures Stuff([b, c]) == (if b < 0x10 then [0x02, b + 0x10] else [b]) + (if c < 0x10 then [0x02, c + 0x10] else [c])
  {
    StuffOne(b);
    StuffOne(c);
    hide Stuff;
    StuffConcat([b], [c]);
    assert [b] + [c] == [b, c];
  }
}
