/** `serve` of the native server: the buffering loop over incoming chunks. */
module NativeServer {
  import opened Common
  import opened ByteStrings
  import opened Frames

  datatype Served = Served(wires: seq<Bytes>, threw: bool)

  /** What the inner loop takes out of the buffer: whole frames, what is left, and whether a
      header parse threw. */
  datatype Drained = Drained(wires: seq<Bytes>, rest: Bytes, threw: bool)

  function Drain(b: Bytes): Drained
    decreases |b|
  {
    if |b| < 4 then Drained([], b, false)
    else
      var h := Parse(b);
      if h.None? then Drained([], b, true)
      else
        var total := HeaderSize(h.value.flags) + h.value.payloadLength;
        if |b| < total then Drained([], b, false)
        else
          var more := Drain(b[total..]);
          Drained([b[..total]] + more.wires, more.rest, more.threw)
  }

  /** The inner loop over one buffer. */
  method DrainBuffer(b: Bytes) returns (d: Drained)
    ensures d == Drain(b)
  {
    var buffer := b;
    var wires: seq<Bytes> := [];
    while |buffer| >= 4
      invariant Drain(b) == Drained(wires + Drain(buffer).wires, Drain(buffer).rest, Drain(buffer).threw)
      decreases |buffer|
    {
      var header := Parse(buffer);
      if header.None? {
        return Drained(wires, buffer, true);
      }
      var total := HeaderSize(header.value.flags) + header.value.payloadLength;
      if |buffer| < total {
        break;
      }
      wires := wires + [buffer[..total]];
      buffer := buffer[total..];
    }
    return Drained(wires, buffer, false);
  }

  /** The wires handed to the dispatcher, in order. Bytes left at the end throw as well. */
  method Serve(source: seq<Bytes>) returns (r: Served)
    ensures r == ServeFrom([], source)
  {
    var buffer: Bytes := [];
    var wires: seq<Bytes> := [];
    for i := 0 to |source|
      invariant ServeFrom([], source) == After(wires, ServeFrom(buffer, source[i..]))
    {
      assert source[i..][0] == source[i] && source[i..][1..] == source[i + 1..];
      var d := DrainBuffer(buffer + source[i]);
      AfterTwice(wires, d.wires, ServeFrom(d.rest, source[i + 1..]));
      wires := wires + d.wires;
      if d.threw {
        return Served(wires, true);
      }
      buffer := d.rest;
    }
    return Served(wires, |buffer| != 0);
  }

  function After(wires: seq<Bytes>, s: Served): Served {
    Served(wires + s.wires, s.threw)
  }

  lemma AfterTwice(first: seq<Bytes>, second: seq<Bytes>, s: Served)
    ensures After(first, After(second, s)) == After(first + second, s)
  {
    assert first + (second + s.wires) == first + second + s.wires;
  }

  function ServeFrom(buffer: Bytes, source: seq<Bytes>): Served
    decreases |source|
  {
    if source == [] then Served([], buffer != [])
    else
      var d := Drain(buffer + source[0]);
      if d.threw then Served(d.wires, true)
      else
        After(d.wires, ServeFrom(d.rest, source[1..]))
  }

  // ---- where a cut is harmful ----

  /** A cut after `p` bytes falls four to seven bytes into an extended header. */
  predicate BadCut(fs: seq<Frame>, p: nat)
  {
    fs != [] &&
    if p >= |Wire(fs[0])| then BadCut(fs[1..], p - |Wire(fs[0])|)
    else 4 <= p < 8 && |fs[0].payload| > DEFAULT_MAX_PAYLOAD
  }

  /** Draining any prefix of encoded frames takes out the whole frames in it and keeps the
      rest, and throws exactly at a bad cut. */
  lemma {:induction false} DrainPrefix(fs: seq<Frame>, b: Bytes, tail: Bytes) returns (k: nat)
    requires forall f :: f in fs ==> Encodable(f)
    requires b + tail == Concat(Wires(fs))
    ensures k <= |fs| && Drain(b).wires == Wires(fs)[..k]
    ensures Drain(b).rest + tail == Concat(Wires(fs)[k..])
    ensures |b| == Offset(fs, k) + |Drain(b).rest|
    ensures Drain(b).threw <==> BadCut(fs, |b|)
    decreases |fs|
  {
    if fs == [] {
      k := 0;
    } else {
      var w, more := Wire(fs[0]), Concat(Wires(fs[1..]));
      WiresHead(fs);
      assert fs[0] in fs;
      if |b| >= |w| {
        TakePart(b, tail, w, more);
        var k' := DrainPrefix(fs[1..], b[|w|..], tail);
        k := k' + 1;
        WiresNext(fs, k);
        DrainWire(fs[0], b, b[|w|..]);
        BadCutSkips(fs, |b| - |w|);
      } else {
        k := 0;
        BeginsWire(b, tail, w, more);
        DrainPartial(fs[0], b);
      }
    }
  }

  lemma WiresNext(fs: seq<Frame>, k: nat)
    requires 0 < k <= |fs|
    ensures Wires(fs)[..k] == [Wire(fs[0])] + Wires(fs[1..])[..k - 1] && Wires(fs)[k..] == Wires(fs[1..])[k - 1..]
  {
  }

  lemma BeginsWire(b: Bytes, tail: Bytes, w: Bytes, more: Bytes)
    requires b + tail == w + more && |b| < |w|
    ensures b <= w
  {
    assert w[..|b|] == (b + tail)[..|b|] == b;
  }

  lemma TakePart(b: Bytes, tail: Bytes, w: Bytes, more: Bytes)
    requires b + tail == w + more && |b| >= |w|
    ensures b == w + b[|w|..] && b[|w|..] + tail == more
  {
    assert b == (b + tail)[..|b|];
    assert b[|w|..] + tail == (b + tail)[|w|..];
    assert w == (w + more)[..|w|];
  }

  lemma DrainWire(f: Frame, b: Bytes, rest: Bytes)
    requires Encodable(f) && b == Wire(f) + rest
    ensures Drain(b) == Drained([Wire(f)] + Drain(rest).wires, Drain(rest).rest, Drain(rest).threw)
  {
    FirstFrameOfWire(f, rest);
  }

  /** Less than a frame: nothing is taken, and the parse throws on a cut extended header. */
  lemma DrainPartial(f: Frame, b: Bytes)
    requires Encodable(f)
    requires b <= Wire(f) && |b| < |Wire(f)|
    ensures Drain(b) == Drained([], b, 4 <= |b| < 8 && |f.payload| > DEFAULT_MAX_PAYLOAD)
  {
    PartialParse(f, b);
  }

  lemma PartialParse(f: Frame, b: Bytes)
    requires Encodable(f)
    requires b <= Wire(f) && |b| < |Wire(f)|
    ensures |b| >= 4 ==>
              if |f.payload| > DEFAULT_MAX_PAYLOAD && |b| < 8 then Parse(b).None? else Parse(b) == Some(HeaderOf(f))
  {
    FlagsMeaning(f);
    HeaderRoundTrip(HeaderOf(f), f.payload);
    if |b| >= 2 {
      assert b[1] == Wire(f)[1] == Flags(f);
      if |b| >= HeaderSize(Flags(f)) {
        ParsePrefix(Wire(f), |b|);
        assert b == Wire(f)[..|b|];
      }
    }
  }

  lemma {:induction false} DrainAgain(b: Bytes)
    requires !Drain(b).threw
    ensures Drain(Drain(b).rest) == Drained([], Drain(b).rest, false)
    decreases |b|
  {
    if |b| >= 4 {
      var h := Parse(b).value;
      var total := HeaderSize(h.flags) + h.payloadLength;
      if |b| >= total {
        DrainAgain(b[total..]);
      }
    }
  }

  /** How many bytes the first `k` frames take. */
  function Offset(fs: seq<Frame>, k: nat): nat
    requires k <= |fs|
  {
    if k == 0 then 0 else |Wire(fs[0])| + Offset(fs[1..], k - 1)
  }

  lemma {:induction false} BadCutShift(fs: seq<Frame>, k: nat, q: nat)
    requires k <= |fs|
    ensures BadCut(fs, Offset(fs, k) + q) == BadCut(fs[k..], q)
  {
    if k == 0 {
      assert fs[0..] == fs;
    } else {
      BadCutShift(fs[1..], k - 1, q);
      OffsetSkips(fs, k, q);
    }
  }

  lemma OffsetSkips(fs: seq<Frame>, k: nat, q: nat)
    requires 0 < k <= |fs|
    ensures fs[1..][k - 1..] == fs[k..]
    ensures BadCut(fs, Offset(fs, k) + q) == BadCut(fs[1..], Offset(fs[1..], k - 1) + q)
  {
    BadCutSkips(fs, Offset(fs[1..], k - 1) + q);
  }

  lemma BadCutSkips(fs: seq<Frame>, p: nat)
    requires fs != []
    ensures BadCut(fs, |Wire(fs[0])| + p) == BadCut(fs[1..], p)
  {
  }

  /** Some chunk ends at a bad cut; `p` bytes came before the first chunk. */
  predicate CutBadly(fs: seq<Frame>, p: nat, source: seq<Bytes>)
    decreases |source|
  {
    source != [] &&
    (BadCut(fs, p + |source[0]|) || CutBadly(fs, p + |source[0]|, source[1..]))
  }

  lemma {:induction false} CutBadlyShift(fs: seq<Frame>, k: nat, q: nat, source: seq<Bytes>)
    requires k <= |fs|
    ensures CutBadly(fs, Offset(fs, k) + q, source) == CutBadly(fs[k..], q, source)
    decreases |source|
  {
    if source != [] {
      BadCutShift(fs, k, q + |source[0]|);
      CutBadlyShift(fs, k, q + |source[0]|, source[1..]);
    }
  }

  predicate NothingWhole(buffer: Bytes) {
    Drain(buffer) == Drained([], buffer, false)
  }

  /** The frames are handed over in order, all of them unless some cut is bad. */
  predicate Exact(fs: seq<Frame>, buffer: Bytes, source: seq<Bytes>) {
    var s := ServeFrom(buffer, source);
    && (s.threw <==> CutBadly(fs, |buffer|, source))
    && s.wires <= Wires(fs)
    && (!s.threw ==> s.wires == Wires(fs))
  }

  lemma TakenThen(all: seq<Bytes>, k: nat, more: seq<Bytes>)
    requires k <= |all|
    ensures more <= all[k..] ==> all[..k] + more <= all
    ensures more == all[k..] ==> all[..k] + more == all
  {
  }

  lemma ExactStep(fs: seq<Frame>, k: nat, buffer: Bytes, source: seq<Bytes>)
    requires source != [] && k <= |fs|
    requires var d := Drain(buffer + source[0]);
             && d.wires == Wires(fs)[..k]
             && |buffer| + |source[0]| == Offset(fs, k) + |d.rest|
             && (d.threw <==> BadCut(fs, |buffer| + |source[0]|))
             && (!d.threw ==> Exact(fs[k..], d.rest, source[1..]))
    ensures Exact(fs, buffer, source)
  {
    var d := Drain(buffer + source[0]);
    WiresFrom(fs, k);
    TakenThen(Wires(fs), k, ServeFrom(d.rest, source[1..]).wires);
    if !d.threw {
      CutBadlyShift(fs, k, |d.rest|, source[1..]);
    }
  }

  lemma {:induction false} ServeFromExact(fs: seq<Frame>, buffer: Bytes, source: seq<Bytes>)
    requires forall f :: f in fs ==> Encodable(f)
    requires buffer + Concat(source) == Concat(Wires(fs)) && NothingWhole(buffer)
    ensures Exact(fs, buffer, source)
    decreases |source|
  {
    if source == [] {
      if fs != [] {
        WiresHead(fs);
        assert buffer == Concat(Wires(fs)) && fs[0] in fs;
        DrainWire(fs[0], buffer, Concat(Wires(fs[1..])));
        assert false;
      }
    } else {
      var b, tail := buffer + source[0], Concat(source[1..]);
      assert buffer + Concat(source) == b + tail;
      var k := DrainPrefix(fs, b, tail);
      WiresFrom(fs, k);
      if !Drain(b).threw {
        DrainAgain(b);
        ServeFromExact(fs[k..], Drain(b).rest, source[1..]);
      }
      ExactStep(fs, k, buffer, source);
    }
  }

  lemma {:induction false} CutBadlyIsSomeCut(fs: seq<Frame>, p: nat, source: seq<Bytes>)
    ensures CutBadly(fs, p, source)
       <==> exists j :: 0 < j <= |source| && CutAt(fs, p, source, j)
    decreases |source|
  {
    if source != [] {
      var q := p + |source[0]|;
      CutBadlyIsSomeCut(fs, q, source[1..]);
      forall j | 0 < j <= |source| ensures CutAt(fs, p, source, j) <==> CutAt(fs, q, source[1..], j - 1) {
        CutShifts(fs, p, source, j);
      }
      if CutBadly(fs, q, source[1..]) {
        var j :| 0 < j <= |source| - 1 && CutAt(fs, q, source[1..], j);
        assert CutAt(fs, p, source, j + 1);
      }
      if j :| 0 < j <= |source| && CutAt(fs, p, source, j) {
        assert CutAt(fs, q, source[1..], j - 1);
      }
      assert CutAt(fs, p, source, 1) <==> BadCut(fs, q);
    }
  }

  /** The cut after the first `j` chunks is bad. */
  predicate CutAt(fs: seq<Frame>, p: nat, source: seq<Bytes>, j: nat)
    requires j <= |source|
  {
    BadCut(fs, p + |Concat(source[..j])|)
  }

  lemma CutShifts(fs: seq<Frame>, p: nat, source: seq<Bytes>, j: nat)
    requires 0 < j <= |source|
    ensures CutAt(fs, p, source, j) <==> CutAt(fs, p + |source[0]|, source[1..], j - 1)
    ensures CutAt(fs, p + |source[0]|, source[1..], 0) <==> BadCut(fs, p + |source[0]|)
  {
    assert source[..j][1..] == source[1..][..j - 1];
    assert source[1..][..0] == [];
  }

  /** `serve` hands over exactly the encoded frames if and only if no chunk ends four to seven
      bytes into an extended header; otherwise it throws after a prefix of them. */
  lemma ServesAllIffNoBadCut(fs: seq<Frame>, chunks: seq<Bytes>)
    requires forall f :: f in fs ==> Encodable(f)
    requires Concat(chunks) == Concat(Wires(fs))
    ensures ServeFrom([], chunks) == Served(Wires(fs), false)
       <==> forall j :: 0 < j <= |chunks| ==> !BadCut(fs, |Concat(chunks[..j])|)
    ensures ServeFrom([], chunks).wires <= Wires(fs)
  {
    assert [] + Concat(chunks) == Concat(chunks);
    ServeFromExact(fs, [], chunks);
    CutBadlyIsSomeCut(fs, 0, chunks);
    assert forall j :: 0 < j <= |chunks| ==> (CutAt(fs, 0, chunks, j) <==> BadCut(fs, |Concat(chunks[..j])|));
  }

  lemma {:induction false} ShortFramesHaveNoBadCut(fs: seq<Frame>, p: nat)
    requires forall f :: f in fs ==> |f.payload| <= DEFAULT_MAX_PAYLOAD
    ensures !BadCut(fs, p)
  {
    if fs != [] && p >= |Wire(fs[0])| {
      ShortFramesHaveNoBadCut(fs[1..], p - |Wire(fs[0])|);
    }
  }

  /** When no frame is extended, every split is served whole. */
  lemma ShortFramesAreServed(fs: seq<Frame>, chunks: seq<Bytes>)
    requires forall f :: f in fs ==> Encodable(f) && |f.payload| <= DEFAULT_MAX_PAYLOAD
    requires Concat(chunks) == Concat(Wires(fs))
    ensures ServeFrom([], chunks) == Served(Wires(fs), false)
  {
    forall j | 0 < j <= |chunks|
      ensures !BadCut(fs, |Concat(chunks[..j])|)
    {
      ShortFramesHaveNoBadCut(fs, |Concat(chunks[..j])|);
    }
    ServesAllIffNoBadCut(fs, chunks);
  }
}
