/** `SocketFrameReader`: frames out of a socket that delivers bytes in arbitrary chunks. */
module FrameReader {
  import opened Common
  import opened ByteStrings
  import opened Frames

  datatype SocketEvent = Data(chunk: Bytes) | Ended | Broken

  /** The bytes still to come before the socket ends or breaks. */
  function DataOf(events: seq<SocketEvent>): Bytes {
    if events == [] || !events[0].Data? then [] else events[0].chunk + DataOf(events[1..])
  }

  /** Reads that cannot complete: the peer closed, the socket failed, or nothing more comes. */
  datatype ReadResult = Got(bytes: Bytes) | Closed | SocketError | Starved

  datatype FrameResult = Read(header: Header, wire: Bytes) | NoFrame

  class SocketFrameReader {
    /** What the socket will deliver, in order. */
    var incoming: seq<SocketEvent>
    var buffer: Bytes
    var ended: bool
    var broken: bool

    constructor (incoming: seq<SocketEvent>)
      ensures this.incoming == incoming && buffer == [] && !ended && !broken
    {
      this.incoming, buffer, ended, broken := incoming, [], false, false;
    }

    /** Everything this reader can still hand out. */
    function Available(): Bytes
      reads this
    {
      buffer + (if ended || broken then [] else DataOf(incoming))
    }

    method Append(chunk: Bytes)
      modifies this`buffer
      ensures buffer == old(buffer) + chunk
    {
      if |chunk| == 0 {
        return;
      }
      buffer := buffer + chunk;
    }

    /** Let the socket deliver its next event. */
    method Await() returns (delivered: bool)
      requires !ended && !broken
      modifies this
      ensures Available() == old(Available())
      ensures delivered <==> old(incoming) != []
      ensures delivered ==> |incoming| < |old(incoming)|
      ensures !delivered ==> !ended && !broken && buffer == old(buffer) && incoming == old(incoming)
    {
      if incoming == [] {
        return false;
      }
      var event := incoming[0];
      incoming := incoming[1..];
      match event {
        case Data(chunk) => Append(chunk);
        case Ended => ended := true;
        case Broken => broken := true;
      }
      return true;
    }

    /** Exactly `n` bytes: it succeeds if and only if that many are still to be had. A read that
        fails takes nothing, and all that came is in the buffer. */
    method ReadExactly(n: nat) returns (r: ReadResult)
      modifies this
      ensures r.Got? <==> |old(Available())| >= n
      ensures r.Got? ==> r.bytes == old(Available())[..n] && Available() == old(Available())[n..]
      ensures !r.Got? ==> Available() == old(Available()) && buffer == Available()
      ensures r.SocketError? ==> broken
      ensures r.Closed? ==> ended && !broken
      ensures r.Starved? ==> !ended && !broken && incoming == []
    {
      while |buffer| < n
        invariant Available() == old(Available())
        decreases |incoming|
      {
        if broken {
          return SocketError;
        }
        if ended {
          return Closed;
        }
        var delivered := Await();
        if !delivered {
          return Starved;
        }
      }
      var out := buffer[..n];
      buffer := buffer[n..];
      return Got(out);
    }

    /** A whole frame, header and payload: the first frame of everything still to be had. A read
        that fails has taken the parts of the header it could read, and they are lost. */
    method ReadFrame() returns (r: FrameResult)
      modifies this
      ensures r.Read? <==> FirstFrame(old(Available())).Some?
      ensures r.Read? ==>
                var s := FirstFrame(old(Available())).value;
                r.header == s.header && r.wire == s.wire && Available() == s.rest
      ensures !r.Read? ==> Available() == old(Available())[HeaderTaken(old(Available()))..]
    {
      ghost var all := Available();
      var peek := ReadExactly(2);
      if !peek.Got? {
        return NoFrame;
      }
      var remaining := HeaderSize(peek.bytes[1]) - 2;
      var rest := ReadExactly(remaining);
      if !rest.Got? {
        return NoFrame;
      }
      var raw := peek.bytes + rest.bytes;
      TakeTwice(all, 2, remaining);
      ParsePrefix(all, remaining + 2);
      var header := Parse(raw);
      var payload := ReadExactly(header.value.payloadLength);
      if !payload.Got? {
        return NoFrame;
      }
      var wire := raw + payload.bytes;
      TakeTwice(all, remaining + 2, header.value.payloadLength);
      return Read(header.value, wire);
    }
  }

  /** How much of a header is read from bytes that hold no whole frame. */
  function HeaderTaken(b: Bytes): (n: nat)
    ensures n <= |b|
  {
    if |b| < 2 then 0 else if |b| < HeaderSize(b[1]) then 2 else HeaderSize(b[1])
  }

  /** However the bytes of a list of encoded frames are cut into chunks, repeated reads return
      exactly those frames, in order, and leave nothing behind. */
  method ReadAll(chunks: seq<Bytes>, fs: seq<Frame>) returns (wires: seq<Bytes>, ghost left: Bytes)
    requires forall f :: f in fs ==> Encodable(f)
    requires Concat(chunks) == Concat(Wires(fs))
    ensures wires == Wires(fs) && left == []
  {
    var events := seq(|chunks|, i requires 0 <= i < |chunks| => Data(chunks[i]));
    AllData(chunks, events);
    assert fs[0..] == fs;
    var reader := new SocketFrameReader(events);
    wires := [];
    for i := 0 to |fs|
      invariant reader.Available() == Concat(Wires(fs[i..]))
      invariant wires == Wires(fs)[..i]
    {
      NextFrame(fs, i);
      var r := reader.ReadFrame();
      wires := wires + [r.wire];
    }
    assert fs[|fs|..] == [];
    left := reader.Available();
  }

  lemma NextFrame(fs: seq<Frame>, i: nat)
    requires i < |fs| && forall f :: f in fs ==> Encodable(f)
    ensures FirstFrame(Concat(Wires(fs[i..]))) == Some(Split(HeaderOf(fs[i]), Wire(fs[i]), Concat(Wires(fs[i + 1..]))))
    ensures Wires(fs)[..i + 1] == Wires(fs)[..i] + [Wire(fs[i])]
  {
    assert fs[i..][0] == fs[i] && fs[i..][1..] == fs[i + 1..] && fs[i] in fs;
    WiresHead(fs[i..]);
    FirstFrameOfWire(fs[i], Concat(Wires(fs[i + 1..])));
  }

  lemma {:induction false} AllData(chunks: seq<Bytes>, events: seq<SocketEvent>)
    requires |events| == |chunks| && forall i :: 0 <= i < |events| ==> events[i] == Data(chunks[i])
    ensures DataOf(events) == Concat(chunks)
  {
    if chunks != [] {
      AllData(chunks[1..], events[1..]);
    }
  }
}
