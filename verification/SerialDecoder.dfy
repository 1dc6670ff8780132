/**
 * The receive state machine of `eSL_ReadMessage` as a function of one byte, and the reader
 * task as a function of a byte stream, with the laws that say what the stream means.
 */
module SerialDecoder {
  import opened Bytes
  import opened SerialFrame

  datatype RxState =
    | WaitStart
    | WaitTypeMsb
    | WaitTypeLsb
    | WaitLenMsb
    | WaitLenLsb
    | WaitCrc
    | WaitData

  /**
   * The static variables of the decoder and the message buffer of the reader task.
   * The buffer keeps whatever an earlier frame left in it until it is overwritten.
   */
  datatype Rx = Rx(state: RxState, crc: u8, count: nat, inEsc: bool, msgType: u16, length: u16, buffer: seq<u8>) {
    predicate Valid() {
      && |buffer| == SL_MAX_MESSAGE_LENGTH
      && count <= SL_MAX_MESSAGE_LENGTH
      && (state == WaitCrc || state == WaitData ==> length <= SL_MAX_MESSAGE_LENGTH)
    }

    predicate Accepts()
      requires Valid()
    {
      length < SL_MAX_MESSAGE_LENGTH && crc == Crc(msgType, length, buffer[..length])
    }

    function Received(): Message
      requires Valid() && Accepts()
    {
      Message(msgType, buffer[..length])
    }

    /** `memset` of the message and length 0xFFFF at the top of the reader loop. */
    function Cleared(): Rx {
      this.(msgType := 0, length := 0xFFFF, buffer := seq(SL_MAX_MESSAGE_LENGTH, i => 0))
    }
  }

  const BOOT_RX: Rx := Rx(WaitStart, 0, 0, false, 0, 0xFFFF, seq(SL_MAX_MESSAGE_LENGTH, i => 0))

  /** One data byte, after unescaping, in the state it finds. */
  function StoreByte(rx: Rx, b: u8): (r: Rx)
    requires rx.Valid()
    ensures r.Valid()
  {
    match rx.state
    case WaitStart => rx
    case WaitTypeMsb => rx.(msgType := Word(b, 0), state := WaitTypeLsb)
    case WaitTypeLsb => rx.(msgType := (rx.msgType + b) % 0x1_0000, state := WaitLenMsb)
    case WaitLenMsb => rx.(length := Word(b, 0), state := WaitLenLsb)
    case WaitLenLsb =>
      var n := (rx.length + b) % 0x1_0000;
      rx.(length := n, state := if n > SL_MAX_MESSAGE_LENGTH then WaitStart else WaitCrc)
    case WaitCrc => rx.(crc := b, state := WaitData)
    case WaitData =>
      if rx.count < rx.length then rx.(buffer := rx.buffer[rx.count := b], count := rx.count + 1) else rx
  }

  /** One byte of the loop in `eSL_ReadMessage`; END never stores, it only leaves the frame. */
  function StepByte(rx: Rx, b: u8): (r: Rx)
    requires rx.Valid()
    ensures r.Valid()
  {
    if b == SL_START then rx.(count := 0, inEsc := false, state := WaitTypeMsb)
    else if b == SL_ESC then rx.(inEsc := true)
    else if b == SL_END then rx.(state := WaitStart)
    else StoreByte(rx.(inEsc := false), if rx.inEsc then Xor(b, 0x10) else b)
  }

  /** The reader task: its decoder and the messages it has handed on so far. */
  datatype Reader = Reader(rx: Rx, delivered: seq<Message>)

  /** The reader task after one more byte. */
  function Step(r: Reader, b: u8): (s: Reader)
    requires r.rx.Valid()
    ensures s.rx.Valid()
  {
    var next := StepByte(r.rx, b);
    if b == SL_END && r.rx.Accepts() then Reader(next.Cleared(), r.delivered + [r.rx.Received()])
    else Reader(next, r.delivered)
  }

  /** The reader task over a stream. */
  function Run(r: Reader, bs: seq<u8>): (s: Reader)
    requires r.rx.Valid()
    ensures s.rx.Valid()
  {
    if |bs| == 0 then r else Step(Run(r, bs[..|bs| - 1]), bs[|bs| - 1])
  }

  lemma RunSnoc(r: Reader, bs: seq<u8>, b: u8)
    requires r.rx.Valid()
    ensures Run(r, bs + [b]) == Step(Run(r, bs), b)
  {
    assert (bs + [b])[..|bs|] == bs;
  }

  lemma {:induction false} RunConcat(r: Reader, a: seq<u8>, b: seq<u8>)
    requires r.rx.Valid()
    ensures Run(r, a + b) == Run(Run(r, a), b)
  {
    if |b| == 0 {
      assert a + b == a;
    } else {
      hide *;
      var p, l := b[..|b| - 1], b[|b| - 1];
      RunConcat(r, a, p);
      assert a + b == (a + p) + [l] && b == p + [l];
      RunSnoc(r, a + p, l);
      RunSnoc(Run(r, a), p, l);
    }
  }

  // ---- The decoder computes the destuffed bytes since the last START ----

  /** The 16-bit field at `d[i]`, `d[i + 1]` once it has begun to arrive; `old` before that. */
  function FieldAt(d: seq<u8>, i: nat, previous: u16): u16 {
    if |d| <= i then previous
    else if |d| == i + 1 then Word(d[i], 0)
    else Word(d[i], d[i + 1])
  }

  /** The header announces more than the buffer holds: the rest of the frame is dropped. */
  predicate TooLong(d: seq<u8>) {
    |d| >= 4 && Word(d[2], d[3]) > SL_MAX_MESSAGE_LENGTH
  }

  /** Payload bytes among the destuffed bytes; surplus bytes are ignored. */
  function DataOf(d: seq<u8>): seq<u8> {
    if |d| < 5 || TooLong(d) then []
    else
      var n := Word(d[2], d[3]);
      if |d| - 5 <= n then d[5..] else d[5..5 + n]
  }

  function StateAfter(d: seq<u8>): RxState {
    if TooLong(d) then WaitStart
    else if |d| == 0 then WaitTypeMsb
    else if |d| == 1 then WaitTypeLsb
    else if |d| == 2 then WaitLenMsb
    else if |d| == 3 then WaitLenLsb
    else if |d| == 4 then WaitCrc
    else WaitData
  }

  /** The decoder after START and the destuffed bytes `d`, begun in an arbitrary `rx`. */
  function Reading(rx: Rx, d: Destuffed): Rx
    requires rx.Valid()
  {
    Rx(StateAfter(d.data),
       if |d.data| < 5 || TooLong(d.data) then rx.crc else d.data[4],
       |DataOf(d.data)|,
       d.pending,
       FieldAt(d.data, 0, rx.msgType),
       FieldAt(d.data, 2, rx.length),
       if |DataOf(d.data)| <= |rx.buffer| then DataOf(d.data) + rx.buffer[|DataOf(d.data)|..] else [])
  }

  lemma ReadingIsValid(rx: Rx, d: Destuffed)
    requires rx.Valid()
    ensures Reading(rx, d).Valid()
  {
  }

  lemma WordInParts(h: u8, l: u8)
    ensures (Word(h, 0) + l) % 0x1_0000 == Word(h, l)
  {
  }

  lemma ReadingNext(rx: Rx, d: Destuffed, b: u8)
    requires rx.Valid() && Reading(rx, d).Valid()
    requires b != SL_START && b != SL_END
    ensures StepByte(Reading(rx, d), b) == Reading(rx, DestuffNext(d, b))
  {
    var s := d.data;
    if b != SL_ESC {
      var v := if d.pending then Xor(b, 0x10) else b;
      ReadingStores(rx, s, v);
    }
  }

  lemma ReadingStores(rx: Rx, s: seq<u8>, v: u8)
    requires rx.Valid() && Reading(rx, Destuffed(s, false)).Valid()
    ensures StoreByte(Reading(rx, Destuffed(s, false)), v) == Reading(rx, Destuffed(s + [v], false))
  {
    if |s| < 5 {
      ReadingStoresHeader(rx, s, v);
    } else if TooLong(s) {
      assert TooLong(s + [v]);
    } else {
      ReadingStoresData(rx, s, v);
    }
  }

  lemma ReadingStoresHeader(rx: Rx, s: seq<u8>, v: u8)
    requires rx.Valid() && Reading(rx, Destuffed(s, false)).Valid()
    requires |s| < 5
    ensures StoreByte(Reading(rx, Destuffed(s, false)), v) == Reading(rx, Destuffed(s + [v], false))
  {
    var t := s + [v];
    assert DataOf(s) == DataOf(t) == [] by {
      assert |t| == 5 ==> t[5..] == [];
    }
    if |s| == 1 {
      WordInParts(s[0], v);
    } else if |s| == 3 {
      WordInParts(s[2], v);
    }
  }

  lemma ReadingStoresData(rx: Rx, s: seq<u8>, v: u8)
    requires rx.Valid() && Reading(rx, Destuffed(s, false)).Valid()
    requires |s| >= 5 && !TooLong(s)
    ensures StoreByte(Reading(rx, Destuffed(s, false)), v) == Reading(rx, Destuffed(s + [v], false))
  {
    var t := s + [v];
    var n := Word(s[2], s[3]);
    assert t[2] == s[2] && t[3] == s[3] && t[0] == s[0] && t[1] == s[1] && t[4] == s[4];
    if |s| - 5 < n {
      var d := DataOf(s);
      assert DataOf(t) == d + [v];
      assert (d + rx.buffer[|d|..])[|d| := v] == (d + [v]) + rx.buffer[|d| + 1..];
    } else {
      assert DataOf(t) == DataOf(s);
    }
  }

  lemma AtStart(r: Reader)
    requires r.rx.Valid()
    ensures Run(r, [SL_START]) == Reader(Reading(r.rx, Destuff([])), r.delivered)
  {
    RunSnoc(r, [], SL_START);
    assert [SL_START] == [] + [SL_START];
    assert [] + r.rx.buffer[0..] == r.rx.buffer;
  }

  /**
   * Decoder refinement: whatever state it was in, after START and any bytes without START and END the
   * decoder holds exactly the destuffed bytes, has delivered nothing, and keeps old
   * contents only in the fields that have not arrived.
   */
  lemma {:induction false} DecoderRefinement(r: Reader, bs: seq<u8>)
    requires r.rx.Valid() && InFrame(bs)
    ensures Run(r, [SL_START] + bs) == Reader(Reading(r.rx, Destuff(bs)), r.delivered)
  {
    if |bs| == 0 {
      AtStart(r);
      assert [SL_START] + bs == [SL_START];
    } else {
      hide *;
      var p, b := bs[..|bs| - 1], bs[|bs| - 1];
      DecoderRefinement(r, p);
      RefinementStep(r, [SL_START] + p, p, b);
      assert bs == p + [b] && [SL_START] + bs == ([SL_START] + p) + [b];
    }
  }

  lemma RefinementStep(r: Reader, all: seq<u8>, p: seq<u8>, b: u8)
    requires r.rx.Valid() && b != SL_START && b != SL_END
    requires Run(r, all) == Reader(Reading(r.rx, Destuff(p)), r.delivered)
    ensures Run(r, all + [b]) == Reader(Reading(r.rx, Destuff(p + [b])), r.delivered)
  {
    hide *;
    RunSnoc(r, all, b);
    ReadingIsValid(r.rx, Destuff(p));
    StepInFrame(Run(r, all), b);
    ReadingNext(r.rx, Destuff(p), b);
    DestuffSnoc(p, b);
  }

  lemma StepInFrame(r: Reader, b: u8)
    requires r.rx.Valid() && b != SL_END
    ensures Step(r, b) == Reader(StepByte(r.rx, b), r.delivered)
  {
  }

  // ---- What END decides ----

  /** END hands on the message exactly when the fields held at that moment agree with the checksum. */
  lemma {:induction false} EndDecides(r: Reader, bs: seq<u8>)
    requires r.rx.Valid() && InFrame(bs)
    ensures var at := Reading(r.rx, Destuff(bs));
            at.Valid() && Run(r, [SL_START] + bs + [SL_END]) == Step(Reader(at, r.delivered), SL_END)
  {
    hide Run, Reading, Step;
    DecoderRefinement(r, bs);
    ReadingIsValid(r.rx, Destuff(bs));
    RunSnoc(r, [SL_START] + bs, SL_END);
  }

  /** The messages handed on for one frame `START bs END`. */
  function DeliveredFor(rx: Rx, bs: seq<u8>): seq<Message>
    requires rx.Valid()
  {
    Run(Reader(rx, []), [SL_START] + bs + [SL_END]).delivered
  }

  /** What END decides does not depend on what was delivered before. */
  lemma EndAppends(r: Reader, bs: seq<u8>)
    requires r.rx.Valid() && InFrame(bs)
    ensures Run(r, [SL_START] + bs + [SL_END]).delivered == r.delivered + DeliveredFor(r.rx, bs)
    ensures Run(r, [SL_START] + bs + [SL_END]).rx == Run(Reader(r.rx, []), [SL_START] + bs + [SL_END]).rx
  {
    hide Run, Reading, Crc;
    EndDecides(r, bs);
    EndDecides(Reader(r.rx, []), bs);
  }

  /**
   * A frame with at least the announced number of payload bytes is handed on exactly when the length
   * is below 256 and type, length, checksum and payload cancel; bytes after the announced ones play no part.
   */
  lemma CompleteFrame(rx: Rx, bs: seq<u8>, d: seq<u8>, n: nat)
    requires rx.Valid() && InFrame(bs) && d == Destuff(bs).data
    requires |d| >= 5 && n == Word(d[2], d[3]) && |d| >= 5 + n
    ensures DeliveredFor(rx, bs) ==
            if n < SL_MAX_MESSAGE_LENGTH && XorFrom(0, d[..5 + n]) == 0
            then [Message(Word(d[0], d[1]), d[5..5 + n])] else []
  {
    EndDecides(Reader(rx, []), bs);
    hide Run, XorFrom;
    var at := Reading(rx, Destuff(bs));
    if n < SL_MAX_MESSAGE_LENGTH {
      assert DataOf(d) == d[5..5 + n];
      assert at.buffer[..n] == d[5..5 + n];
      CrcIsCancellation(d[..5], d[5..5 + n]);
      assert d[..5] + d[5..5 + n] == d[..5 + n];
    }
  }

  /**
   * END does not wait for all payload bytes. A frame cut short after its checksum is judged, and handed on,
   * with what the buffer held before it in place of the bytes that never came.
   */
  lemma TruncatedFrame(rx: Rx, bs: seq<u8>, d: seq<u8>, n: nat, filled: seq<u8>)
    requires rx.Valid() && InFrame(bs) && d == Destuff(bs).data
    requires |d| >= 5 && n == Word(d[2], d[3]) && |d| < 5 + n && n < SL_MAX_MESSAGE_LENGTH
    requires filled == d[5..] + rx.buffer[|d| - 5..n]
    ensures DeliveredFor(rx, bs) ==
            if XorFrom(0, d[..5] + filled) == 0 then [Message(Word(d[0], d[1]), filled)] else []
  {
    EndDecides(Reader(rx, []), bs);
    hide Run, XorFrom;
    var at := Reading(rx, Destuff(bs));
    assert DataOf(d) == d[5..];
    assert at.buffer[..n] == filled;
    CrcIsCancellation(d[..5], filled);
  }

  lemma {:induction false} XorFromZeros(seed: u8, s: seq<u8>)
    requires forall i :: 0 <= i < |s| ==> s[i] == 0
    ensures XorFrom(seed, s) == seed
  {
    if |s| > 0 {
      XorFromZeros(seed, s[..|s| - 1]);
      XorWithZero(seed);
    }
  }

  /** In a cleared buffer the missing bytes read as zero: a cut frame passes exactly when what did arrive cancels. */
  lemma TruncatedFrameInClearedBuffer(rx: Rx, bs: seq<u8>, d: seq<u8>, n: nat)
    requires rx.Valid() && InFrame(bs) && d == Destuff(bs).data
    requires |d| >= 5 && n == Word(d[2], d[3]) && |d| < 5 + n && n < SL_MAX_MESSAGE_LENGTH
    requires forall i :: 0 <= i < |rx.buffer| ==> rx.buffer[i] == 0
    ensures DeliveredFor(rx, bs) != [] <==> XorFrom(0, d) == 0
  {
    hide DeliveredFor, XorFrom, Destuff;
    var missing := rx.buffer[|d| - 5..n];
    TruncatedFrame(rx, bs, d, n, d[5..] + missing);
    assert d[..5] + (d[5..] + missing) == d + missing;
    XorFromConcat(0, d, missing);
    XorFromZeros(XorFrom(0, d), missing);
  }

  /** Changing one type, checksum or payload byte of a complete valid frame makes the decoder reject it. */
  lemma SingleByteErrorIsRejected(rx: Rx, good: seq<u8>, bad: seq<u8>, d: seq<u8>, n: nat, i: nat, v: u8)
    requires rx.Valid() && InFrame(good) && InFrame(bad)
    requires d == Destuff(good).data && |d| >= 5 && n == Word(d[2], d[3]) && |d| >= 5 + n
    requires DeliveredFor(rx, good) != []
    requires i < 5 + n && i != 2 && i != 3 && v != d[i]
    requires Destuff(bad).data == d[i := v]
    ensures DeliveredFor(rx, bad) == []
  {
    hide DeliveredFor, XorFrom, Destuff;
    CompleteFrame(rx, good, d, n);
    CompleteFrame(rx, bad, d[i := v], n);
    XorFromUpdate(d[..5 + n], i, v);
    assert d[i := v][..5 + n] == d[..5 + n][i := v];
  }

  lemma StuffedFrame(rx: Rx, d: seq<u8>, n: nat)
    requires rx.Valid() && |d| >= 5 && n == Word(d[2], d[3]) && |d| >= 5 + n
    ensures DeliveredFor(rx, Stuff(d)) ==
            if n < SL_MAX_MESSAGE_LENGTH && XorFrom(0, d[..5 + n]) == 0 then [Message(Word(d[0], d[1]), d[5..5 + n])] else []
  {
    hide DeliveredFor, Stuff, Destuff, XorFrom, InFrame;
    StuffShape(d);
    StuffRoundTrip(d);
    CompleteFrame(rx, Stuff(d), d, n);
  }

  /**
   * The checksum does not guard the length byte: a one-byte message whose payload byte equals the change
   * made to the length is accepted as an empty message.
   */
  lemma LengthByteErrorMayPass(rx: Rx, good: seq<u8>, bad: seq<u8>)
    requires rx.Valid()
    requires good == [0x10, 0x00, 0x00, 0x01, 0x10, 0x01] && bad == good[3 := 0x00]
    ensures DeliveredFor(rx, Stuff(good)) == [Message(0x1000, [0x01])]
    ensures DeliveredFor(rx, Stuff(bad)) == [Message(0x1000, [])]
  {
    hide DeliveredFor, Stuff, XorFrom;
    ExampleChecksums();
    assert good[..6] == good && good[5..6] == [0x01];
    StuffedFrame(rx, good, 1);
    assert bad[..5] == [0x10, 0x00, 0x00, 0x00, 0x10] && bad[5..5] == [];
    StuffedFrame(rx, bad, 0);
  }

  lemma ExampleChecksums()
    ensures XorFrom(0, [0x10, 0x00, 0x00, 0x00, 0x10]) == 0
    ensures XorFrom(0, [0x10, 0x00, 0x00, 0x01, 0x10, 0x01]) == 0
    ensures XorFrom(0, [0x10, 0x00, 0x00, 0x01, 0x11]) == 0
  {
    hide XorFrom, Xor;
    ExampleXors();
    XorFromHeader([0x10, 0x00, 0x00, 0x00, 0x10]);
    XorFromHeader([0x10, 0x00, 0x00, 0x01, 0x10]);
    XorFromHeader([0x10, 0x00, 0x00, 0x01, 0x11]);
    XorFromSnoc(0, [0x10, 0x00, 0x00, 0x01, 0x10], 0x01);
    assert [0x10, 0x00, 0x00, 0x01, 0x10] + [0x01] == [0x10, 0x00, 0x00, 0x01, 0x10, 0x01];
  }

  lemma ExampleXors()
    ensures Xor(0x00, 0x10) == 0x10 == Xor(0x10, 0x00) && Xor(0x10, 0x01) == 0x11 == Xor(0x11, 0x00)
    ensures Xor(0x10, 0x10) == 0 == Xor(0x11, 0x11) && Xor(0x11, 0x10) == 0x01 && Xor(0x01, 0x01) == 0
  {
    hide Xor;
    XorWithZero(0x10);
    XorWithZero(0x11);
    XorEscape(0x01);
    XorCommutes(0x01, 0x10);
    XorIsZero(0x10, 0x10);
    XorIsZero(0x11, 0x11);
    XorIsZero(0x01, 0x01);
  }

  /** A message that announces one payload byte is accepted although that byte never came. */
  lemma MissingPayloadMayPass(bs: seq<u8>)
    requires bs == Stuff([0x10, 0x00, 0x00, 0x01, 0x11])
    ensures DeliveredFor(BOOT_RX, bs) == [Message(0x1000, [0x00])]
  {
    hide DeliveredFor, Stuff, Destuff;
    var d: seq<u8> := [0x10, 0x00, 0x00, 0x01, 0x11];
    StuffShape(d);
    StuffRoundTrip(d);
    assert d[5..] + BOOT_RX.buffer[0..1] == [0x00];
    TruncatedFrame(BOOT_RX, bs, d, 1, [0x00]);
    ExampleChecksums();
    XorFromSnoc(0, d, 0x00);
    XorWithZero(0);
    assert d[..5] == d;
  }

  // ---- Streams ----

  /** Outside a frame, with a length no END accepts: the state at boot and after every delivery. */
  predicate Quiet(rx: Rx) {
    rx.Valid() && rx.state == WaitStart && rx.length >= SL_MAX_MESSAGE_LENGTH
  }

  /** No END comes after a START. */
  predicate Harmless(noise: seq<u8>) {
    forall i, j :: 0 <= i < j < |noise| && noise[i] == SL_START ==> noise[j] != SL_END
  }

  /** Line noise with no START, or with no END, or with all its ENDs before its first START. */
  lemma HarmlessNoise(noise: seq<u8>, cut: nat)
    requires cut <= |noise| && SL_START !in noise[..cut] && SL_END !in noise[cut..]
    ensures Harmless(noise)
  {
    forall i, j | 0 <= i < j < |noise| && noise[i] == SL_START
      ensures noise[j] != SL_END
    {
      if j >= cut {
        assert noise[j] == noise[cut..][j - cut];
      }
    }
  }

  lemma {:induction false} QuietStaysQuiet(r: Reader, bs: seq<u8>)
    requires Quiet(r.rx) && SL_START !in bs
    ensures Quiet(Run(r, bs).rx) && Run(r, bs).delivered == r.delivered
  {
    if |bs| > 0 {
      QuietStaysQuiet(r, bs[..|bs| - 1]);
    }
  }

  lemma {:induction false} NoEndNoMessage(r: Reader, bs: seq<u8>)
    requires r.rx.Valid() && SL_END !in bs
    ensures Run(r, bs).delivered == r.delivered
  {
    if |bs| > 0 {
      hide StepByte;
      NoEndNoMessage(r, bs[..|bs| - 1]);
    }
  }

  function FirstStart(bs: seq<u8>): (k: nat)
    ensures k <= |bs| && SL_START !in bs[..k]
    ensures k < |bs| ==> bs[k] == SL_START
  {
    if |bs| == 0 || bs[0] == SL_START then 0 else 1 + FirstStart(bs[1..])
  }

  lemma NoEndAfterStart(noise: seq<u8>, k: nat)
    requires Harmless(noise) && k == FirstStart(noise)
    ensures SL_END !in noise[k..]
  {
    forall j | k <= j < |noise|
      ensures noise[j] != SL_END
    {
      assert j > k ==> noise[k] == SL_START;
    }
  }

  lemma {:induction false} HarmlessNoiseIsSilent(r: Reader, noise: seq<u8>)
    requires Quiet(r.rx) && Harmless(noise)
    ensures Run(r, noise).delivered == r.delivered
  {
    var k := FirstStart(noise);
    NoEndAfterStart(noise, k);
    assert r.rx.Valid();
    hide *;
    var a, b := noise[..k], noise[k..];
    assert noise == a + b;
    RunConcat(r, a, b);
    QuietStaysQuiet(r, a);
    QuietIsValid(Run(r, a).rx);
    NoEndNoMessage(Run(r, a), b);
  }

  lemma QuietIsValid(rx: Rx)
    requires Quiet(rx)
    ensures rx.Valid()
  {
  }

  lemma {:induction false} DeliveryIsQuiet(rx: Rx, bs: seq<u8>)
    requires rx.Valid() && InFrame(bs)
    requires DeliveredFor(rx, bs) != []
    ensures Quiet(Run(Reader(rx, []), [SL_START] + bs + [SL_END]).rx)
  {
    hide Run, Reading;
    EndDecides(Reader(rx, []), bs);
  }

  /** Whatever came before, a frame is received as the message it encodes. */
  lemma FrameIsReceived(r: Reader, m: Message)
    requires r.rx.Valid() && |m.payload| < SL_MAX_MESSAGE_LENGTH
    ensures Run(r, Frame(m)).delivered == r.delivered + [m]
    ensures Quiet(Run(r, Frame(m)).rx)
  {
    hide Run, Stuff, XorFrom, Crc, Quiet, Body, DeliveredFor;
    StuffShape(Body(m));
    StuffRoundTrip(Body(m));
    BodyCancels(m);
    BodyFields(m);
    EndAppends(r, Stuff(Body(m)));
    StuffedBodyIsReceived(r.rx, m, Body(m), Stuff(Body(m)));
  }

  lemma StuffedBodyIsReceived(rx: Rx, m: Message, d: seq<u8>, bs: seq<u8>)
    requires rx.Valid() && |m.payload| < SL_MAX_MESSAGE_LENGTH
    requires InFrame(bs) && Destuff(bs).data == d && XorFrom(0, d) == 0
    requires |d| == 5 + |m.payload| && Word(d[0], d[1]) == m.msgType && Word(d[2], d[3]) == |m.payload|
    requires d[5..] == m.payload
    ensures DeliveredFor(rx, bs) == [m]
    ensures Quiet(Run(Reader(rx, []), [SL_START] + bs + [SL_END]).rx)
  {
    hide DeliveredFor, Run, XorFrom, Quiet, Destuff;
    CompleteFrame(rx, bs, d, |m.payload|);
    assert d[..5 + |m.payload|] == d && d[5..5 + |m.payload|] == m.payload;
    DeliveryIsQuiet(rx, bs);
  }

  lemma BodyFields(m: Message)
    requires |m.payload| < SL_MAX_MESSAGE_LENGTH
    ensures var d, n := Body(m), |m.payload|;
            |d| == 5 + n && Word(d[0], d[1]) == m.msgType && Word(d[2], d[3]) == n && d[5..] == m.payload
  {
  }

  /** A frame and the line noise that came before it. */
  datatype Arrival = Arrival(noise: seq<u8>, message: Message)

  predicate Sendable(arrivals: seq<Arrival>) {
    forall k :: 0 <= k < |arrivals| ==>
      Harmless(arrivals[k].noise) && |arrivals[k].message.payload| < SL_MAX_MESSAGE_LENGTH
  }

  function Stream(arrivals: seq<Arrival>): seq<u8>
    requires Sendable(arrivals)
  {
    if |arrivals| == 0 then []
    else
      var a := arrivals[|arrivals| - 1];
      Stream(arrivals[..|arrivals| - 1]) + (a.noise + Frame(a.message))
  }

  function MessagesOf(arrivals: seq<Arrival>): seq<Message> {
    seq(|arrivals|, k requires 0 <= k < |arrivals| => arrivals[k].message)
  }

  /**
   * Stream round trip: the reader delivers exactly the messages sent, in order and nothing else,
   * with harmless noise before each frame and after the last one.
   */
  lemma {:induction false} StreamRoundTrip(rx: Rx, arrivals: seq<Arrival>, tail: seq<u8>)
    requires Quiet(rx) && Sendable(arrivals) && Harmless(tail)
    ensures Run(Reader(rx, []), Stream(arrivals) + tail).delivered == MessagesOf(arrivals)
  {
    hide Run, Stream;
    FramesAreReceived(rx, arrivals);
    RunConcat(Reader(rx, []), Stream(arrivals), tail);
    HarmlessNoiseIsSilent(Run(Reader(rx, []), Stream(arrivals)), tail);
  }

  lemma {:induction false} FramesAreReceived(rx: Rx, arrivals: seq<Arrival>)
    requires Quiet(rx) && Sendable(arrivals)
    ensures Quiet(Run(Reader(rx, []), Stream(arrivals)).rx)
    ensures Run(Reader(rx, []), Stream(arrivals)).delivered == MessagesOf(arrivals)
  {
    if |arrivals| > 0 {
      hide Run, Frame, Quiet, MessagesOf;
      var front, a := arrivals[..|arrivals| - 1], arrivals[|arrivals| - 1];
      FramesAreReceived(rx, front);
      OneMoreFrame(Reader(rx, []), Stream(front), a);
      MessagesOfSnoc(arrivals);
    }
  }

  lemma MessagesOfSnoc(arrivals: seq<Arrival>)
    requires |arrivals| > 0
    ensures MessagesOf(arrivals) == MessagesOf(arrivals[..|arrivals| - 1]) + [arrivals[|arrivals| - 1].message]
  {
  }

  lemma OneMoreFrame(r: Reader, sofar: seq<u8>, a: Arrival)
    requires r.rx.Valid() && Quiet(Run(r, sofar).rx)
    requires Harmless(a.noise) && |a.message.payload| < SL_MAX_MESSAGE_LENGTH
    ensures Run(r, sofar + (a.noise + Frame(a.message))).delivered == Run(r, sofar).delivered + [a.message]
    ensures Quiet(Run(r, sofar + (a.noise + Frame(a.message))).rx)
  {
    hide Run, Frame;
    RunConcat(r, sofar, a.noise + Frame(a.message));
    NoisyFrameIsReceived(Run(r, sofar), a);
  }

  lemma {:induction false} NoisyFrameIsReceived(r: Reader, a: Arrival)
    requires Quiet(r.rx) && Harmless(a.noise) && |a.message.payload| < SL_MAX_MESSAGE_LENGTH
    ensures Run(r, a.noise + Frame(a.message)).delivered == r.delivered + [a.message]
    ensures Quiet(Run(r, a.noise + Frame(a.message)).rx)
  {
    hide Run, Frame;
    HarmlessNoiseIsSilent(r, a.noise);
    FrameIsReceived(Run(r, a.noise), a.message);
    RunConcat(r, a.noise, Frame(a.message));
  }
}
