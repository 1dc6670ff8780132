/**
 * The transmit and receive paths of `SerialLink.c` on their own buffers and variables,
 * proved against the frame format and the decoder function.
 */
module SerialPort {
  import opened Bytes
  import opened SerialFrame
  import opened SerialDecoder

  /** `uint8_t` increment. */
  function Next8(n: u8): u8 { (n + 1) % 0x100 }

  /** The checksum loop counts in 8 bits, so it ends only for lengths below 256. */
  method CalculateCRC(msgType: u16, length: u16, data: array<u8>) returns (crc: u8)
    requires length < 0x100 && length <= data.Length
    ensures crc == Crc(msgType, length, data[..length])
  {
    crc := Lo(msgType);
    crc := Xor(crc, Hi(msgType));
    crc := Xor(crc, Lo(length));
    crc := Xor(crc, Hi(length));
    crc := AddPayload(crc, length, data);
  }

  /** The loop over the payload. */
  method AddPayload(seed: u8, length: nat, data: array<u8>) returns (crc: u8)
    requires length < 0x100 && length <= data.Length
    ensures crc == XorFrom(seed, data[..length])
  {
    hide Xor;
    crc := seed;
    var n: u8 := 0;
    assert data[..0] == [];
    while n < length
      invariant n <= length
      invariant crc == XorFrom(seed, data[..n])
    {
      XorFromSnoc(seed, data[..n], data[n]);
      assert data[..n + 1] == data[..n] + [data[n]];
      crc := Xor(crc, data[n]);
      n := Next8(n);
    }
  }

  class Transmitter {
    const buffer: array<u8>

    constructor ()
      ensures fresh(buffer) && buffer.Length == SL_MAX_MESSAGE_LENGTH
    {
      buffer := new u8[SL_MAX_MESSAGE_LENGTH];
    }

    /** The bytes written since the index last was zero are the last ones of `written`. */
    ghost predicate Holds(written: seq<u8>, index: u8)
      reads buffer
    {
      && buffer.Length == SL_MAX_MESSAGE_LENGTH
      && index == |written| % 0x100
      && forall i :: 0 <= i < index ==> buffer[i] == written[|written| - index + i]
    }

    /** `buffer[index++] = b` with an 8-bit index. */
    method Put(b: u8, index: u8, ghost written: seq<u8>) returns (next: u8)
      requires Holds(written, index)
      modifies buffer
      ensures Holds(written + [b], next)
    {
      buffer[index] := b;
      next := Next8(index);
    }

    method LoadByteToTxBuffer(special: bool, b: u8, index: u8, ghost written: seq<u8>) returns (next: u8)
      requires Holds(written, index)
      modifies buffer
      ensures Holds(written + (if special then [b] else StuffByte(b)), next)
    {
      hide Holds, Xor;
      if !special && b < 0x10 {
        next := Put(SL_ESC, index, written);
        next := Put(Xor(b, 0x10), next, written + [SL_ESC]);
        assert (written + [SL_ESC]) + [Xor(b, 0x10)] == written + StuffByte(b);
      } else {
        next := Put(b, index, written);
      }
    }

    /** The transmitted bytes are what the index reached after its last wrap-around. */
    method WriteMessage(msgType: u16, length: u16, data: array<u8>) returns (sent: seq<u8>)
      requires length < 0x100 && length <= data.Length
      requires buffer.Length == SL_MAX_MESSAGE_LENGTH && data != buffer
      modifies buffer
      ensures var f := Frame(Message(msgType, data[..length]));
              && sent == f[|f| - |f| % 0x100..]
              && (|f| < 0x100 ==> sent == f && OnTheWire(sent, msgType, data[..length]))
    {
      hide Holds, Stuff, StuffByte, Crc, OnTheWire;
      var crc := CalculateCRC(msgType, length, data);
      ghost var m := Message(msgType, data[..length]);
      ghost var written: seq<u8> := [];
      var index: u8 := 0;
      assert Holds(written, index) by { NothingWritten(); }
      index := LoadByteToTxBuffer(true, SL_START, index, written);
      written := written + [SL_START];
      ghost var body: seq<u8> := [];
      assert Stuff(body) == [] by { StuffEmpty(); }
      assert written == [SL_START] + Stuff(body);
      index, written, body := LoadStuffed(Hi(msgType), index, written, body);
      index, written, body := LoadStuffed(Lo(msgType), index, written, body);
      index, written, body := LoadStuffed(Hi(length), index, written, body);
      index, written, body := LoadStuffed(Lo(length), index, written, body);
      index, written, body := LoadStuffed(crc, index, written, body);
      ghost var header := body;
      assert header == Body(m)[..5];
      var n: u8 := 0;
      while n < length
        invariant n <= length
        invariant Holds(written, index)
        invariant body == header + data[..n]
        invariant written == [SL_START] + Stuff(body)
        invariant data[..length] == old(data[..length])
      {
        index, written, body := LoadStuffed(data[n], index, written, body);
        assert data[..n + 1] == data[..n] + [data[n]];
        n := Next8(n);
      }
      assert body == Body(m);
      index := LoadByteToTxBuffer(true, SL_END, index, written);
      written := written + [SL_END];
      assert written == Frame(m);
      sent := buffer[..index];
      HeldBytes(written, index);
      FrameIsTheWireForm(m, Frame(m));
    }

    /** One data byte of the frame, stuffed. */
    method LoadStuffed(b: u8, index: u8, ghost written: seq<u8>, ghost body: seq<u8>)
      returns (next: u8, ghost written': seq<u8>, ghost body': seq<u8>)
      requires Holds(written, index) && written == [SL_START] + Stuff(body)
      modifies buffer
      ensures body' == body + [b] && written' == [SL_START] + Stuff(body')
      ensures Holds(written', next)
    {
      hide Holds, StuffByte;
      next := LoadByteToTxBuffer(false, b, index, written);
      body' := body + [b];
      written' := written + StuffByte(b);
      StuffSnoc(body, b);
    }

    lemma NothingWritten()
      requires buffer.Length == SL_MAX_MESSAGE_LENGTH
      ensures Holds([], 0)
    {
    }

    lemma HeldBytes(written: seq<u8>, index: u8)
      requires Holds(written, index)
      ensures buffer[..index] == written[|written| - |written| % 0x100..]
    {
    }
  }

  class SerialReader {
    // Static variables of the decoder
    var eRxState: RxState
    var u8CRC: u8
    var u16Bytes: u16
    var bInEsc: bool
    // The message of the reader task
    var u16Type: u16
    var u16Length: u16
    const au8Message: array<u8>

    ghost predicate Valid()
      reads this, au8Message
    {
      Abs().Valid()
    }

    ghost function Abs(): Rx
      reads this, au8Message
    {
      Rx(eRxState, u8CRC, u16Bytes, bInEsc, u16Type, u16Length, au8Message[..])
    }

    constructor ()
      ensures Valid() && fresh(au8Message) && Abs() == BOOT_RX
    {
      eRxState, u8CRC, u16Bytes, bInEsc := WaitStart, 0, 0, false;
      u16Type, u16Length := 0, 0xFFFF;
      au8Message := new u8[SL_MAX_MESSAGE_LENGTH](i => 0);
      new;
      assert au8Message[..] == BOOT_RX.buffer;
    }

    method ClearMessage()
      requires Valid() && eRxState == WaitStart
      modifies this, au8Message
      ensures Valid() && eRxState == WaitStart && Abs() == old(Abs()).Cleared()
    {
      forall i | 0 <= i < au8Message.Length {
        au8Message[i] := 0;
      }
      u16Type := 0;
      u16Length := 0xFFFF;
    }

    /** The inner switch on the receive state. */
    method StoreData(b: u8)
      requires Valid()
      modifies this, au8Message
      ensures Valid() && Abs() == StoreByte(old(Abs()), b)
    {
      match eRxState
      case WaitStart =>
      case WaitTypeMsb =>
        u16Type, eRxState := Word(b, 0), WaitTypeLsb;
      case WaitTypeLsb =>
        u16Type, eRxState := (u16Type + b) % 0x1_0000, WaitLenMsb;
      case WaitLenMsb =>
        u16Length, eRxState := Word(b, 0), WaitLenLsb;
      case WaitLenLsb =>
        u16Length := (u16Length + b) % 0x1_0000;
        eRxState := if u16Length > SL_MAX_MESSAGE_LENGTH then WaitStart else WaitCrc;
      case WaitCrc =>
        u8CRC, eRxState := b, WaitData;
      case WaitData =>
        if u16Bytes < u16Length {
          au8Message[u16Bytes] := b;
          u16Bytes := (u16Bytes + 1) % 0x1_0000;
        }
    }

    /** One turn of the loop; `accepted` is the early return with E_SL_OK. */
    method RxByte(b: u8) returns (accepted: bool)
      requires Valid()
      modifies this, au8Message
      ensures Valid() && Abs() == StepByte(old(Abs()), b)
      ensures accepted <==> b == SL_END && old(Abs()).Accepts()
    {
      hide Crc;
      accepted := false;
      if b == SL_START {
        u16Bytes, bInEsc, eRxState := 0, false, WaitTypeMsb;
      } else if b == SL_ESC {
        bInEsc := true;
      } else if b == SL_END {
        eRxState := WaitStart;
        if u16Length < SL_MAX_MESSAGE_LENGTH {
          var crc := CalculateCRC(u16Type, u16Length, au8Message);
          accepted := u8CRC == crc;
        }
      } else {
        var data := b;
        if bInEsc {
          data := Xor(b, 0x10);
          bInEsc := false;
        }
        StoreData(data);
      }
    }

    /** Reads until a valid frame has ended or the bytes are used up. */
    method ReadMessage(input: seq<u8>, start: nat, ghost got: seq<Message>) returns (ok: bool, next: nat)
      requires Valid() && start <= |input|
      modifies this, au8Message
      ensures Valid() && start <= next <= |input|
      ensures ok ==> start < next && eRxState == WaitStart && Abs().Accepts()
      ensures ok ==> Run(Reader(old(Abs()), got), input[start..next]) == Reader(Abs().Cleared(), got + [Abs().Received()])
      ensures !ok ==> next == |input| && Run(Reader(old(Abs()), got), input[start..]) == Reader(Abs(), got)
    {
      hide Run, StepByte, Crc;
      next := start;
      ghost var boot := Reader(Abs(), got);
      assert input[start..start] == [];
      RunEmpty(boot);
      while next < |input|
        invariant start <= next <= |input| && Valid()
        invariant Run(boot, input[start..next]) == Reader(Abs(), got)
      {
        ghost var before := Abs();
        ok := RxByte(input[next]);
        RunSnoc(boot, input[start..next], input[next]);
        assert input[start..next + 1] == input[start..next] + [input[next]];
        next := next + 1;
        if ok {
          AcceptedFields(before);
          return;
        }
      }
      ok := false;
      assert input[start..next] == input[start..];
    }

    /** The reader task on the bytes that have arrived: it clears its message, reads, and hands on. */
    method ReadTask(input: seq<u8>) returns (delivered: seq<Message>)
      requires Valid() && eRxState == WaitStart
      modifies this, au8Message
      ensures Valid() && Reader(Abs(), delivered) == Run(Reader(old(Abs()).Cleared(), []), input)
    {
      hide Run, StepByte, Crc;
      ClearMessage();
      delivered := [];
      var pos := 0;
      ghost var boot := Reader(Abs(), []);
      assert input[..0] == [];
      RunEmpty(boot);
      while true
        invariant Valid() && pos <= |input|
        invariant Run(boot, input[..pos]) == Reader(Abs(), delivered)
        decreases |input| - pos
      {
        var ok, next := ReadMessage(input, pos, delivered);
        assert input[..next] == input[..pos] + input[pos..next];
        RunConcat(boot, input[..pos], input[pos..next]);
        if !ok {
          assert input[pos..next] == input[pos..] && input[..next] == input;
          break;
        }
        delivered := delivered + [Message(u16Type, au8Message[..u16Length])];
        ClearMessage();
        pos := next;
      }
    }
  }

  lemma RunEmpty(r: Reader)
    requires r.rx.Valid()
    ensures Run(r, []) == r
  {
  }

  /** END leaves the message fields alone. */
  lemma AcceptedFields(rx: Rx)
    requires rx.Valid() && rx.Accepts()
    ensures StepByte(rx, SL_END).state == WaitStart && StepByte(rx, SL_END).Accepts() && StepByte(rx, SL_END).Received() == rx.Received()
  {
  }

  /** The frame leaves the port whole exactly when it is at most 255 bytes long, and so for every payload up to 121 bytes. */
  lemma FrameIsSentWhole(m: Message)
    requires |m.payload| < 0x100
    ensures var f := Frame(m);
            (f[|f| - |f| % 0x100..] == f <==> |f| <= 0xFF)
    ensures |m.payload| <= 121 ==> |Frame(m)| <= 0xFF
  {
    FrameBound(m);
  }
}
