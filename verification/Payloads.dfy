/** The payloads of `cmd.c`: those whose length depends on the call, the largest fixed one, and the lengths of all. */
module Payloads {
  import opened Bytes
  import opened Options
  import opened SerialFrame

  const MAX_NB_READ_ATTRIBUTES: nat := 10

  /** Sums of sizes are taken in 32 unsigned bits, and the length is passed in 16. */
  function Size(x: int): nat { x % 0x1_0000_0000 }

  function ReadRequestLength(count: nat): nat {
    Size(32 + Size(2 * Size(count - MAX_NB_READ_ATTRIBUTES))) % 0x10000
  }

  function BlockLength(size: u8): nat { Size(84 + Size(size - 64)) % 0x10000 }

  lemma SizeOfNegative(x: int)
    requires -0x1_0000_0000 <= x < 0
    ensures Size(x) == 0x1_0000_0000 + x
  {
  }

  lemma SizeOverflows(x: nat)
    requires 0x1_0000_0000 <= x < 0x2_0000_0000
    ensures Size(x) == x - 0x1_0000_0000
  {
  }

  /** The subtraction goes below zero and wraps, the sums wrap back: the lengths are exact. */
  lemma ReadRequestLengthIsExact(count: nat)
    requires count <= MAX_NB_READ_ATTRIBUTES
    ensures ReadRequestLength(count) == 12 + 2 * count <= 32
  {
    if count < MAX_NB_READ_ATTRIBUTES {
      var short := count - MAX_NB_READ_ATTRIBUTES;
      SizeOfNegative(short);
      SizeOverflows(2 * Size(short));
      SizeOverflows(32 + Size(2 * Size(short)));
      hide Size;
    }
  }

  lemma BlockLengthIsExact(size: u8)
    ensures BlockLength(size) == 20 + size && (size <= 64 ==> BlockLength(size) <= 84)
  {
    if size < 64 {
      SizeOfNegative(size - 64);
      SizeOverflows(84 + Size(size - 64));
      hide Size;
    }
  }

  function Counted(n: u8): (c: nat)
    ensures c <= MAX_NB_READ_ATTRIBUTES
  {
    if n > MAX_NB_READ_ATTRIBUTES then MAX_NB_READ_ATTRIBUTES else n
  }

  function BigEndian(ws: seq<u16>): (bs: seq<u8>)
    ensures |bs| == 2 * |ws|
  {
    if |ws| == 0 then [] else BigEndian(ws[..|ws| - 1]) + [Hi(ws[|ws| - 1]), Lo(ws[|ws| - 1])]
  }

  /** The words that a receiver reads from the bytes. */
  function Words(bs: seq<u8>): seq<u16> {
    if |bs| < 2 then [] else [Word(bs[0], bs[1])] + Words(bs[2..])
  }

  lemma {:induction false} WordsAppend(bs: seq<u8>, h: u8, l: u8)
    requires |bs| % 2 == 0
    ensures Words(bs + [h, l]) == Words(bs) + [Word(h, l)]
  {
    if |bs| == 0 {
      assert bs + [h, l] == [h, l];
      assert Words([h, l][2..]) == [];
    } else {
      assert (bs + [h, l])[2..] == bs[2..] + [h, l];
      WordsAppend(bs[2..], h, l);
    }
  }

  /** A receiver reads back the attribute ids, in order. */
  lemma {:induction false} WordsRoundTrip(ws: seq<u16>)
    ensures Words(BigEndian(ws)) == ws
  {
    if |ws| > 0 {
      WordsRoundTrip(ws[..|ws| - 1]);
      WordsAppend(BigEndian(ws[..|ws| - 1]), Hi(ws[|ws| - 1]), Lo(ws[|ws| - 1]));
    }
  }

  /** `eReadAttributeRequest` up to the call that sends it; at most ten ids are taken. */
  method ReadAttributeRequest(addrMode: u8, addr: u16, srcEp: u8, dstEp: u8, cluster: u16, manu: u16, n: u8, list: array<u16>)
    returns (payload: seq<u8>)
    requires Counted(n) <= list.Length
    ensures |payload| == 12 + 2 * Counted(n) && Counted(n) == if n < 10 then n else 10
    ensures payload[..12] == [addrMode, Hi(addr), Lo(addr), srcEp, dstEp, Hi(cluster), Lo(cluster), 0, 0, Hi(manu), Lo(manu), Counted(n)]
    ensures Words(payload[12..]) == list[..Counted(n)]
  {
    var count := if n > MAX_NB_READ_ATTRIBUTES then MAX_NB_READ_ATTRIBUTES else n;
    var header := [addrMode, Hi(addr), Lo(addr), srcEp, dstEp, Hi(cluster), Lo(cluster), 0, 0, Hi(manu), Lo(manu), count];
    var req := new u8[32](i requires 0 <= i < 32 => if i < 12 then header[i] else 0);
    assert req[..12] == header;
    hide BigEndian;
    hide Words;
    hide ReadRequestLength;
    PutIds(req, list, count);
    ReadRequestLengthIsExact(count);
    payload := req[..ReadRequestLength(count)];
    assert payload[12..] == req[12..12 + 2 * count] && payload[..12] == req[..12];
    WordsRoundTrip(list[..count]);
  }

  /** The loop over the ids. */
  method PutIds(req: array<u8>, list: array<u16>, count: nat)
    requires req.Length == 32 && count <= list.Length && count <= MAX_NB_READ_ATTRIBUTES
    modifies req
    ensures req[..12] == old(req[..12]) && req[12..12 + 2 * count] == BigEndian(list[..count])
  {
    assert list[..0] == [];
    var i := 0;
    while i < count
      invariant i <= count
      invariant req[..12] == old(req[..12]) && req[12..12 + 2 * i] == BigEndian(list[..i])
    {
      assert list[..i + 1][..i] == list[..i];
      req[12 + 2 * i], req[13 + 2 * i] := Hi(list[i]), Lo(list[i]);
      assert req[12..14 + 2 * i] == req[12..12 + 2 * i] + [req[12 + 2 * i], req[13 + 2 * i]];
      i := i + 1;
    }
  }

  type u32 = x: nat | x < 0x1_0000_0000

  /** A number as `pri_ntohl` puts it into a payload. */
  function BigEndian32(x: u32): (bs: seq<u8>)
    ensures |bs| == 4
  {
    BigEndian([x / 0x1_0000, x % 0x1_0000])
  }

  /** The number that a receiver reads from four bytes. */
  function Long(bs: seq<u8>): nat
    requires |bs| == 4
  {
    Word(bs[0], bs[1]) * 0x1_0000 + Word(bs[2], bs[3])
  }

  lemma LongRoundTrip(x: u32)
    ensures Long(BigEndian32(x)) == x
  {
    var ws: seq<u16> := [x / 0x1_0000, x % 0x1_0000];
    assert ws[..1] == [ws[0]] && ws[..1][..0] == [];
    assert BigEndian(ws[..1]) == [Hi(ws[0]), Lo(ws[0])];
    assert BigEndian(ws) == [Hi(ws[0]), Lo(ws[0]), Hi(ws[1]), Lo(ws[1])];
  }

  /** The fields of an image block before its data. */
  datatype BlockHead = BlockHead(addrMode: u8, addr: u16, srcEp: u8, dstEp: u8, sequenceNumber: u8, status: u8,
                                 fileOffset: u32, fileVersion: u32, imageType: u16, manu: u16)

  /** The fields that a receiver reads from a block. */
  function ReadHead(p: seq<u8>): (r: (u8, u16, u8, u8, u8, u8, nat, nat, u16, u16))
    requires |p| >= 20
  {
    (p[0], Word(p[1], p[2]), p[3], p[4], p[5], p[6], Long(p[7..11]), Long(p[11..15]), Word(p[15], p[16]), Word(p[17], p[18]))
  }

  function HeadBytes(h: BlockHead, size: u8): (bs: seq<u8>)
    ensures |bs| == 20
  {
    [h.addrMode, Hi(h.addr), Lo(h.addr), h.srcEp, h.dstEp, h.sequenceNumber, h.status] + BigEndian32(h.fileOffset)
    + BigEndian32(h.fileVersion) + [Hi(h.imageType), Lo(h.imageType), Hi(h.manu), Lo(h.manu), size]
  }

  /** A receiver reads back every field, the size and the data. */
  lemma HeadRoundTrip(h: BlockHead, size: u8, rest: seq<u8>)
    ensures var p := HeadBytes(h, size) + rest;
            && ReadHead(p) == (h.addrMode, h.addr, h.srcEp, h.dstEp, h.sequenceNumber, h.status, h.fileOffset, h.fileVersion,
                               h.imageType, h.manu)
            && p[19] == size && p[20..] == rest
  {
    var p := HeadBytes(h, size) + rest;
    LongRoundTrip(h.fileOffset);
    LongRoundTrip(h.fileVersion);
    hide BigEndian32, Long;
    assert p[7..11] == BigEndian32(h.fileOffset);
    assert p[11..15] == BigEndian32(h.fileVersion);
  }

  /**
   * `eOtaImageBlockSend` up to the call that sends it: more than 64 bytes are refused; otherwise a receiver reads back the
   * fields, the size and the data.
   */
  method OtaImageBlock(h: BlockHead, data: array<u8>, size: u8) returns (payload: Option<seq<u8>>)
    requires size <= 64 ==> size <= data.Length
    ensures size > 64 <==> payload.None?
    ensures payload.Some? ==>
              && |payload.value| == 20 + size
              && ReadHead(payload.value) == (h.addrMode, h.addr, h.srcEp, h.dstEp, h.sequenceNumber, h.status, h.fileOffset,
                                             h.fileVersion, h.imageType, h.manu)
              && payload.value[19] == size && payload.value[20..] == data[..size]
  {
    if size > 64 {
      return None;
    }
    var head := HeadBytes(h, size);
    hide HeadBytes, ReadHead;
    var block := new u8[84](i requires 0 <= i < 84 => if i < 20 then head[i] else 0);
    assert block[..20] == head;
    var i := 0;
    while i < size
      invariant i <= size && block[..20 + i] == head + data[..i]
    {
      block[20 + i] := data[i];
      assert block[..21 + i] == block[..20 + i] + [data[i]];
      i := i + 1;
    }
    BlockLengthIsExact(size);
    payload := Some(block[..BlockLength(size)]);
    HeadRoundTrip(h, size, data[..size]);
  }

  // ---- The header of a new image ----

  const HEADER: nat := 69
  const FILE_ID: seq<u8> := [0x1E, 0xF1, 0xEE, 0x0B]

  datatype LoadStatus = Loaded | Error | InvalidValue

  /** Where the byte at `i` of the header comes from: number fields are byte-swapped, the name and the security byte are not. */
  function Mirror(i: nat): (j: nat)
    requires i < HEADER
    ensures j < HEADER
  {
    if i < 4 then 3 - i
    else if i < 14 then (if i % 2 == 0 then i + 1 else i - 1)
    else if i < 18 then 31 - i
    else if i < 20 then 37 - i
    else if i < 52 then i
    else if i < 56 then 107 - i
    else if i == 56 then i
    else if i < 65 then 121 - i
    else if i < 67 then 131 - i
    else 135 - i
  }

  lemma MirrorTwice(i: nat)
    requires i < HEADER
    ensures Mirror(Mirror(i)) == i
  {
  }

  function Mirrored(s: seq<u8>): (t: seq<u8>)
    requires |s| == HEADER
    ensures |t| == HEADER && forall i :: 0 <= i < HEADER ==> t[i] == s[Mirror(i)]
  {
    seq(HEADER, i requires 0 <= i < HEADER => s[Mirror(i)])
  }

  /** Swapping the sent header again gives the header of the file: no field is lost, moved or mixed with another. */
  lemma MirroredTwice(s: seq<u8>)
    requires |s| == HEADER
    ensures Mirrored(Mirrored(s)) == s
  {
    forall i | 0 <= i < HEADER ensures Mirrored(Mirrored(s))[i] == s[i] {
      MirrorTwice(i);
    }
  }

  /** The `width` bytes at `p` stand in reverse, or as they are. */
  predicate Reversed(t: seq<u8>, s: seq<u8>, p: nat, width: nat) {
    p + width <= |t| == |s| && forall i :: p <= i < p + width ==> t[i] == s[2 * p + width - 1 - i]
  }

  predicate Same(t: seq<u8>, s: seq<u8>, p: nat, width: nat) { p + width <= |t| == |s| && t[p..p + width] == s[p..p + width] }

  /**
   * The fields of the header: the numbers, little-endian in the file, are sent big-endian at the same places; the 32 bytes
   * of the name and the security byte are sent as they are.
   */
  lemma HeaderFieldsAreSwapped(s: seq<u8>)
    requires |s| == 69
    ensures var t := Mirrored(s);
            && Reversed(t, s, 0, 4) && Reversed(t, s, 4, 2) && Reversed(t, s, 6, 2) && Reversed(t, s, 8, 2)
            && Reversed(t, s, 10, 2) && Reversed(t, s, 12, 2) && Reversed(t, s, 14, 4) && Reversed(t, s, 18, 2)
            && Same(t, s, 20, 32) && Reversed(t, s, 52, 4) && Same(t, s, 56, 1) && Reversed(t, s, 57, 8)
            && Reversed(t, s, 65, 2) && Reversed(t, s, 67, 2)
  {
  }

  /** The payload holds its address and the first `p` bytes of the header. */
  ghost predicate Copied(load: array<u8>, image: array<u8>, p: nat)
    requires load.Length == 72 && HEADER <= image.Length && p <= HEADER
    reads load, image
  {
    load[0] == 0x02 && load[1] == 0 && load[2] == 0 && forall i :: 0 <= i < p ==> load[3 + i] == image[Mirror(i)]
  }

  predicate SwappedField(p: nat, width: nat) {
    p + width <= HEADER && forall i :: p <= i < p + width ==> Mirror(i) == p + width - 1 - (i - p)
  }

  predicate PlainField(p: nat, width: nat) {
    p + width <= HEADER && forall i :: p <= i < p + width ==> Mirror(i) == i
  }

  /** `memcpy` of a number from the image, its bytes swapped, and the pointer moved on. */
  method PutNumber(load: array<u8>, image: array<u8>, p: nat, width: nat) returns (next: nat)
    requires load != image && load.Length == 72 && HEADER <= image.Length && SwappedField(p, width) && Copied(load, image, p)
    modifies load
    ensures next == p + width && Copied(load, image, next)
  {
    forall i | p <= i < p + width {
      load[3 + i] := image[p + width - 1 - (i - p)];
    }
    next := p + width;
  }

  method PutBytes(load: array<u8>, image: array<u8>, p: nat, width: nat) returns (next: nat)
    requires load != image && load.Length == 72 && HEADER <= image.Length && PlainField(p, width) && Copied(load, image, p)
    modifies load
    ensures next == p + width && Copied(load, image, next)
  {
    forall i | p <= i < p + width {
      load[3 + i] := image[i];
    }
    next := p + width;
  }

  /** The fields before the name, in order. */
  method PutNumbers(load: array<u8>, image: array<u8>) returns (p: nat)
    requires load != image && load.Length == 72 && HEADER <= image.Length && Copied(load, image, 0)
    modifies load
    ensures p == 20 && Copied(load, image, p)
  {
    hide Copied;
    p := PutNumber(load, image, 0, 4);
    p := PutNumber(load, image, p, 2);
    p := PutNumber(load, image, p, 2);
    p := PutNumber(load, image, p, 2);
    p := PutNumber(load, image, p, 2);
    p := PutNumber(load, image, p, 2);
    p := PutNumber(load, image, p, 4);
    p := PutNumber(load, image, p, 2);
  }

  /** All fields. */
  method PutHeader(load: array<u8>, image: array<u8>)
    requires load != image && load.Length == 72 && HEADER <= image.Length && Copied(load, image, 0)
    modifies load
    ensures Copied(load, image, HEADER)
  {
    hide Copied;
    var p := PutNumbers(load, image);
    p := PutBytes(load, image, p, 32);
    p := PutNumber(load, image, p, 4);
    p := PutBytes(load, image, p, 1);
    p := PutNumber(load, image, p, 8);
    p := PutNumber(load, image, p, 2);
    p := PutNumber(load, image, p, 2);
  }

  /** `eOtaLoadNewImage`: the pointer walk over the header of the file. */
  method OtaLoadNewImage(image: array?<u8>) returns (status: LoadStatus, payload: seq<u8>)
    requires image != null ==> HEADER <= image.Length
    ensures status == if image == null then Error else if image[..4] != FILE_ID then InvalidValue else Loaded
    ensures status == Loaded ==> payload == [0x02, 0x00, 0x00] + Mirrored(image[..HEADER]) && |payload| == 72
  {
    payload := [];
    if image == null {
      return Error, payload;
    }
    assert image[..4] == [image[0], image[1], image[2], image[3]];
    if image[0] != 0x1E || image[1] != 0xF1 || image[2] != 0xEE || image[3] != 0x0B {
      return InvalidValue, payload;
    }
    hide Mirror;
    var load := new u8[72](i => if i == 0 then 0x02 else 0);
    PutHeader(load, image);
    payload := load[..];
    assert payload[3..] == Mirrored(image[..HEADER]);
    status := Loaded;
  }

  // ---- All senders ----

  /** The senders of `cmd.c` and `zcb.c`. */
  datatype Command =
    | GetPermitJoining | PermitJoining | SetChannelMask | SetDeviceType | StartNetwork | ErasePersistentData | ResetDevice
    | ManagementLeave | SetExtendedPanId | ActiveEndpoint | NodeDescriptor | SimpleDescriptor | MatchDescriptor
    | NetworkAddress | IeeeAddress | ReadAttribute(n: u8) | Bind | Unbind | ConfigureReporting
    | LoadNewImage | ImageBlock(size: u8) | UpgradeEnd | ImageNotify | WaitForData | GetVersion
    | OnOff | MoveLevel | MoveToLevel | MoveStep | MoveToColor | MoveToTemperature | MoveToHue | MoveToSaturation | ZoneEnroll

  /**
   * The length that is passed: the field widths of the packed structure added up, or what the call computes; an image block
   * can be refused. Enums are taken to have four bytes, the most that a compiler gives them.
   */
  function PayloadLength(c: Command): Option<nat> {
    match c
    case GetPermitJoining | StartNetwork | ErasePersistentData | ResetDevice | GetVersion => Some(0)
    case PermitJoining => Some(2 + 1 + 1)
    case SetChannelMask => Some(4)
    case SetDeviceType => Some(1)
    case ManagementLeave | NetworkAddress => Some(2 + 8 + 1 + 1)
    case SetExtendedPanId => Some(8)
    case ActiveEndpoint | NodeDescriptor => Some(2)
    case SimpleDescriptor => Some(2 + 1)
    case MatchDescriptor => Some(2 + 2 + 1 + 2 + 1 + 2)
    case IeeeAddress => Some(2 + 2 + 1 + 1)
    case ReadAttribute(n) => Some(ReadRequestLength(Counted(n)))
    case Bind | Unbind => Some(8 + 1 + 2 + 1 + (8 + 1))
    case ConfigureReporting => Some(1 + 2 + 1 + 1 + 2 + 1 + 1 + 2 + 1 + 1 + 1 + 2 + 2 + 2 + 2 + 1)
    case LoadNewImage => Some(3 + HEADER)
    case ImageBlock(size) => if size > 64 then None else Some(BlockLength(size))
    case UpgradeEnd => Some(1 + 2 + 1 + 1 + 1 + 4 + 4 + 4 + 2 + 2)
    case ImageNotify => Some(1 + 2 + 1 + 1 + 4 + 4 + 2 + 2 + 1)
    case WaitForData => Some(1 + 2 + 1 + 1 + 1 + 1 + 4 + 4 + 2)
    case OnOff => Some(1 + 2 + 1 + 1 + 1)
    case MoveLevel => Some(1 + 2 + 1 + 1 + 1 + 1 + 1)
    case MoveToLevel | MoveToHue => Some(1 + 2 + 1 + 1 + 1 + 1 + 2)
    case MoveStep => Some(1 + 2 + 1 + 1 + 1 + 1 + 1 + 2)
    case MoveToColor => Some(1 + 2 + 1 + 1 + 2 + 2 + 2)
    case MoveToTemperature => Some(1 + 2 + 1 + 1 + 2 + 2)
    case MoveToSaturation | ZoneEnroll => Some(1 + 2 + 1 + 1 + 1 + 2)
  }

  lemma PayloadLengthFits(c: Command)
    ensures PayloadLength(c).Some? ==> PayloadLength(c).value <= 84
  {
    hide ReadRequestLength, BlockLength;
    match c
    case ReadAttribute(n) => ReadRequestLengthIsExact(Counted(n));
    case ImageBlock(size) => BlockLengthIsExact(size);
    case _ =>
  }

  /** No sender passes more than 84 bytes, so every payload leaves the port in one whole frame. */
  lemma PayloadsAreSentWhole(c: Command, m: Message)
    requires PayloadLength(c) == Some(|m.payload|)
    ensures |m.payload| <= 84 && |Frame(m)| <= 180
    ensures Frame(m)[|Frame(m)| - |Frame(m)| % 0x100..] == Frame(m)
  {
    hide *;
    PayloadLengthFits(c);
    FrameBound(m);
  }
}
