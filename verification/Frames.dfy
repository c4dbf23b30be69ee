/** The frame header of `core/frames.ts` and the wire assembly of the codec. The tier codecs
    are abstract: a frame here is its type, its tier, its finality and its encoded payload. */
module Frames {
  import opened Common
  import opened ByteStrings

  const DEFAULT_HEADER_SIZE := 4
  const EXTENDED_HEADER_SIZE := 8
  const DEFAULT_MAX_PAYLOAD := 0xFFFF
  const EXTENDED_MAX_PAYLOAD := 0xFFFF_FFFF

  const EXT: byte := 0x80
  const FINAL: byte := 0x04

  datatype Header = Header(frameType: byte, flags: byte, payloadLength: nat)

  /** Bit 7. */
  predicate IsExtended(flags: byte) {
    flags >= EXT
  }

  function HeaderSize(flags: byte): nat {
    if IsExtended(flags) then EXTENDED_HEADER_SIZE else DEFAULT_HEADER_SIZE
  }

  /** Bits 0 and 1. */
  function EncodingTier(flags: byte): byte {
    flags % 4
  }

  /** Bit 2. */
  predicate IsFinal(flags: byte) {
    flags / 4 % 2 == 1
  }

  /** `FrameHeader.parse`; the reserved bytes of an extended header are not looked at. */
  function Parse(buf: Bytes): Option<Header> {
    if |buf| < 2 then None
    else if IsExtended(buf[1]) then
      if |buf| < EXTENDED_HEADER_SIZE then None else Some(Header(buf[0], buf[1], U32(buf[4..8])))
    else
      if |buf| < DEFAULT_HEADER_SIZE then None else Some(Header(buf[0], buf[1], U16(buf[2..4])))
  }

  /** A header read to its own size parses as the bytes it begins. */
  lemma ParsePrefix(b: Bytes, n: nat)
    requires 2 <= n <= |b| && n >= HeaderSize(b[1])
    ensures Parse(b).Some? && Parse(b[..n]) == Parse(b) && Parse(b).value.flags == b[1]
  {
    if IsExtended(b[1]) {
      assert b[..n][4..8] == b[4..8];
    } else {
      assert b[..n][2..4] == b[2..4];
    }
  }

  lemma LengthBytes(flags: byte, frameType: byte, n: nat)
    ensures ([frameType, flags] + Put16(n))[2..4] == Put16(n) && U16(Put16(n)) == n % 0x1_0000
    ensures ([frameType, flags] + Put16(0) + Put32(n))[4..8] == Put32(n)
    ensures U32(Put32(n)) == n % 0x1_0000_0000
  {
    U16Put16(n);
    U32Put32(n);
  }

  /** `FrameHeader.toBytes`: a length too large for its field keeps its low bits. */
  function ToBytes(h: Header): (b: Bytes)
    ensures |b| == HeaderSize(h.flags) && b[0] == h.frameType && b[1] == h.flags
    ensures |b| == DEFAULT_HEADER_SIZE ==> U16(b[2..4]) == h.payloadLength % 0x1_0000
    ensures |b| == EXTENDED_HEADER_SIZE ==>
              b[2] == b[3] == 0 && U32(b[4..8]) == h.payloadLength % 0x1_0000_0000
  {
    LengthBytes(h.flags, h.frameType, h.payloadLength);
    if IsExtended(h.flags) then [h.frameType, h.flags] + Put16(0) + Put32(h.payloadLength)
    else [h.frameType, h.flags] + Put16(h.payloadLength)
  }

  predicate Fits(h: Header) {
    h.payloadLength <= if IsExtended(h.flags) then EXTENDED_MAX_PAYLOAD else DEFAULT_MAX_PAYLOAD
  }

  /** A header survives the wire exactly when its length fits its format. */
  lemma HeaderRoundTrip(h: Header, rest: Bytes)
    ensures Parse(ToBytes(h) + rest).Some?
    ensures Parse(ToBytes(h) + rest) == Some(h) <==> Fits(h)
  {
    var buf := ToBytes(h) + rest;
    if IsExtended(h.flags) {
      assert buf[4..8] == Put32(h.payloadLength);
      if Fits(h) {
        U32Put32(h.payloadLength);
      }
    } else {
      assert buf[2..4] == Put16(h.payloadLength);
      U16Put16(h.payloadLength);
    }
  }

  // ---- the codec ----

  type Tier = t: byte | t <= 2

  datatype Frame = Frame(frameType: byte, tier: Tier, final: bool, payload: Bytes)

  function Flags(f: Frame): byte {
    f.tier + (if f.final then FINAL else 0) + (if |f.payload| > DEFAULT_MAX_PAYLOAD then EXT else 0)
  }

  function HeaderOf(f: Frame): Header {
    Header(f.frameType, Flags(f), |f.payload|)
  }

  function Wire(f: Frame): Bytes {
    ToBytes(HeaderOf(f)) + f.payload
  }

  /** `encode`: `None` is a codec error (an unknown tier or an oversized payload). */
  method Encode(frameType: byte, tier: byte, final: bool, payload: Bytes, maxPayload: nat)
    returns (r: Option<Bytes>)
    ensures r.Some? <==> tier <= 2 && |payload| <= maxPayload
    ensures r.Some? ==> r.value == Wire(Frame(frameType, tier, final, payload))
  {
    if tier > 2 {
      return None;
    }
    if |payload| > maxPayload {
      return None;
    }
    var useExt := |payload| > DEFAULT_MAX_PAYLOAD;
    var flags := tier;
    if final {
      flags := flags + FINAL;
    }
    if useExt {
      flags := flags + EXT;
    }
    var header := Header(frameType, flags, |payload|);
    return Some(ToBytes(header) + payload);
  }

  /** `decode`, up to the tier codec: header fields and the payload slice, which is shorter than
      announced when the wire is. */
  function Decode(wire: Bytes): Option<Frame> {
    var h := Parse(wire);
    if h.None? || EncodingTier(h.value.flags) > 2 then None
    else
      var from := HeaderSize(h.value.flags);
      var to := from + h.value.payloadLength;
      Some(Frame(h.value.frameType, EncodingTier(h.value.flags), IsFinal(h.value.flags),
                 wire[from..if to < |wire| then to else |wire|]))
  }

  /** The payload length fits the extended header; a codec may be configured to allow more. */
  predicate Encodable(f: Frame) {
    |f.payload| <= EXTENDED_MAX_PAYLOAD
  }

  lemma FlagsMeaning(f: Frame)
    ensures IsExtended(Flags(f)) <==> |f.payload| > DEFAULT_MAX_PAYLOAD
    ensures EncodingTier(Flags(f)) == f.tier && (IsFinal(Flags(f)) <==> f.final)
  {
  }

  /** Decoding what was encoded gives the frame back, whatever follows it on the wire, exactly
      when its length fits. */
  lemma FrameRoundTrip(f: Frame, rest: Bytes)
    ensures Decode(Wire(f) + rest) == Some(f) <==> Encodable(f)
  {
    FlagsMeaning(f);
    var h := HeaderOf(f);
    var all := Wire(f) + rest;
    assert all == ToBytes(h) + (f.payload + rest);
    HeaderRoundTrip(h, f.payload + rest);
    var from := HeaderSize(h.flags);
    if Encodable(f) {
      assert all[from..from + |f.payload|] == f.payload;
    } else {
      assert Parse(all).value.payloadLength <= EXTENDED_MAX_PAYLOAD;
    }
  }

  // ---- frames in a byte stream ----

  datatype Split = Split(header: Header, wire: Bytes, rest: Bytes)

  /** The first whole frame of a byte string, if it has one. */
  function FirstFrame(b: Bytes): (r: Option<Split>)
    ensures r.Some? ==> b == r.value.wire + r.value.rest && |r.value.wire| >= DEFAULT_HEADER_SIZE
  {
    var h := Parse(b);
    if h.None? then None
    else
      var total := HeaderSize(h.value.flags) + h.value.payloadLength;
      if |b| < total then None else Some(Split(h.value, b[..total], b[total..]))
  }

  lemma FirstFrameOfWire(f: Frame, rest: Bytes)
    requires Encodable(f)
    ensures FirstFrame(Wire(f) + rest) == Some(Split(HeaderOf(f), Wire(f), rest))
  {
    FlagsMeaning(f);
    var h := HeaderOf(f);
    var all := Wire(f) + rest;
    assert all == ToBytes(h) + (f.payload + rest);
    HeaderRoundTrip(h, f.payload + rest);
    assert all[..|Wire(f)|] == Wire(f) && all[|Wire(f)|..] == rest;
  }

  lemma WiresHead(fs: seq<Frame>)
    requires fs != []
    ensures Wires(fs)[1..] == Wires(fs[1..])
    ensures Concat(Wires(fs)) == Wire(fs[0]) + Concat(Wires(fs[1..]))
  {
  }

  lemma WiresFrom(fs: seq<Frame>, k: nat)
    requires k <= |fs|
    ensures Wires(fs)[..k] == Wires(fs[..k]) && Wires(fs)[k..] == Wires(fs[k..])
  {
  }

  function Wires(fs: seq<Frame>): (r: seq<Bytes>)
    ensures |r| == |fs| && forall i :: 0 <= i < |r| ==> r[i] == Wire(fs[i])
  {
    seq(|fs|, i requires 0 <= i < |fs| => Wire(fs[i]))
  }
}
