/** Length-prefixed frames: the blocking reader as specification, the resumable reader as implementation. */
module Framing {
  import opened Wrappers
  import opened Digests

  const MAX_FRAME_BYTES := 32 * 1024 * 1024

  // ---- Frame layout ----

  /** `u32::to_be_bytes`. */
  function BigEndian(n: nat): (r: Bytes)
    requires n < 0x1_0000_0000
    ensures |r| == 4 && FromBigEndian(r) == n
  {
    var high, low := n / 0x1_0000, n % 0x1_0000;
    assert n == 0x1_0000 * high + low;
    assert high == 256 * (high / 256) + high % 256;
    assert low == 256 * (low / 256) + low % 256;
    [high / 256, high % 256, low / 256, low % 256]
  }

  function FromBigEndian(s: Bytes): (n: nat)
    requires |s| == 4
  {
    var a: int, b: int, c: int, d: int := s[0], s[1], s[2], s[3];
    0x100_0000 * a + 0x1_0000 * b + 0x100 * c + d
  }

  datatype Fault = UnexpectedEof | InvalidData | Broken

  /** Serialisation and compression, as one abstract pair. */
  datatype Codec<!M> = Codec(encode: M -> Bytes, decode: Bytes -> Option<M>)

  ghost predicate Lossless<M(!new)>(codec: Codec<M>) {
    forall m :: codec.decode(codec.encode(m)) == Some(m)
  }

  method SerialiseMessage<M>(codec: Codec<M>, msg: M) returns (frame: Option<Bytes>)
    ensures frame.Some? <==> Fits(codec, msg)
    ensures frame.Some? ==> frame.value == FrameOf(codec, msg)
  {
    var compressed := codec.encode(msg);
    if |compressed| > MAX_FRAME_BYTES {
      return None;
    }
    frame := Some(BigEndian(|compressed|) + compressed);
  }

  predicate Fits<M>(codec: Codec<M>, msg: M) {
    |codec.encode(msg)| <= MAX_FRAME_BYTES
  }

  /** The frame of a message that fits; a larger one has none. */
  function FrameOf<M>(codec: Codec<M>, msg: M): Bytes {
    if Fits(codec, msg) then BigEndian(|codec.encode(msg)|) + codec.encode(msg) else []
  }

  // ---- The blocking reader ----

  datatype Outcome<M> = Got(msg: M, rest: Bytes) | Failed(fault: Fault)

  /** One `read_message` on a stream that holds `data` and then ends. */
  function ReadMessage<M>(codec: Codec<M>, data: Bytes): (r: Outcome<M>)
    ensures r.Got? ==> |r.rest| + 4 <= |data|
  {
    if |data| < 4 then Failed(UnexpectedEof)
    else
      var len := FromBigEndian(data[..4]);
      if len > MAX_FRAME_BYTES then Failed(InvalidData)
      else if |data| < 4 + len then Failed(UnexpectedEof)
      else
        match codec.decode(data[4..4 + len])
        case None => Failed(InvalidData)
        case Some(m) => Got(m, data[4 + len..])
  }

  datatype Transcript<M> = Transcript(msgs: seq<M>, fault: Fault)

  /** Repeated reading up to the first failure. */
  function Repeat<M>(read: Bytes -> Outcome<M>, data: Bytes): Transcript<M>
    requires forall d :: Shrinks(d, read(d))
    decreases |data|
  {
    assert Shrinks(data, read(data));
    match read(data)
    case Failed(e) => Transcript([], e)
    case Got(m, rest) =>
      var tail := Repeat(read, rest);
      Transcript([m] + tail.msgs, tail.fault)
  }

  predicate Shrinks<M>(data: Bytes, r: Outcome<M>) {
    r.Got? ==> |r.rest| < |data|
  }

  function ReadAll<M>(codec: Codec<M>, data: Bytes): Transcript<M> {
    Repeat(d => ReadMessage(codec, d), data)
  }

  function Concat<M>(frame: M -> Bytes, msgs: seq<M>): Bytes {
    if msgs == [] then [] else frame(msgs[0]) + Concat(frame, msgs[1..])
  }

  function Frames<M>(codec: Codec<M>, msgs: seq<M>): Bytes {
    Concat(m => FrameOf(codec, m), msgs)
  }

  lemma {:induction false} ConcatReadBack<M(!new)>(read: Bytes -> Outcome<M>, frame: M -> Bytes, msgs: seq<M>, tail: Bytes)
    requires forall d :: Shrinks(d, read(d))
    requires forall m, rest :: m in msgs ==> read(frame(m) + rest) == Got(m, rest)
    ensures Repeat(read, Concat(frame, msgs) + tail) ==
            Transcript(msgs + Repeat(read, tail).msgs, Repeat(read, tail).fault)
  {
    if msgs == [] {
      assert Concat(frame, msgs) + tail == tail;
    } else {
      var rest := Concat(frame, msgs[1..]) + tail;
      ConcatReadBack(read, frame, msgs[1..], tail);
      assert Concat(frame, msgs) + tail == frame(msgs[0]) + rest;
      assert read(frame(msgs[0]) + rest) == Got(msgs[0], rest);
      assert [msgs[0]] + (msgs[1..] + Repeat(read, tail).msgs) == msgs + Repeat(read, tail).msgs;
    }
  }

  /** Serialised messages are read back unchanged, whatever follows them. */
  lemma FramesReadBack<M(!new)>(codec: Codec<M>, msgs: seq<M>, tail: Bytes)
    requires Lossless(codec) && forall m :: m in msgs ==> Fits(codec, m)
    ensures ReadAll(codec, Frames(codec, msgs) + tail) ==
            Transcript(msgs + ReadAll(codec, tail).msgs, ReadAll(codec, tail).fault)
  {
    forall m, rest | m in msgs
      ensures ReadMessage(codec, FrameOf(codec, m) + rest) == Got(m, rest)
    {
      FrameReadBack(codec, m, rest);
    }
    ConcatReadBack(d => ReadMessage(codec, d), m => FrameOf(codec, m), msgs, tail);
  }

  lemma FrameReadBack<M(!new)>(codec: Codec<M>, msg: M, rest: Bytes)
    requires Lossless(codec) && Fits(codec, msg)
    ensures ReadMessage(codec, FrameOf(codec, msg) + rest) == Got(msg, rest)
  {
    var body := codec.encode(msg);
    WholeFrame(codec, BigEndian(|body|), body, rest);
    assert codec.decode(codec.encode(msg)) == Some(msg);
  }

  // ---- The stream, delivered in pieces ----

  /** What the next read does: at most `n + 1` bytes, a timeout, or a broken connection. */
  datatype Delivery = Upto(n: nat) | Timeout | Break

  datatype ReadResult = Read(n: nat) | TimedOut | IoError

  /** `data` still to come before the peer closes; `plan` splits it. An exhausted plan delivers all that fits. */
  class Stream {
    var data: Bytes
    var plan: seq<Delivery>

    constructor (data: Bytes, plan: seq<Delivery>)
      ensures this.data == data && this.plan == plan
    {
      this.data, this.plan := data, plan;
    }

    /** `Read::read` into `buf[from..]`: no bytes exactly at the end of the stream. */
    method ReadInto(buf: array<Byte>, from: nat) returns (r: ReadResult)
      requires from < buf.Length
      modifies this, buf
      ensures buf[..from] == old(buf[..from])
      ensures |plan| <= |old(plan)| && (r.TimedOut? ==> |plan| < |old(plan)|)
      ensures r.Read? ==> from + r.n <= buf.Length && old(data) == buf[from..from + r.n] + data
      ensures r.Read? ==> (r.n == 0 <==> old(data) == [])
      ensures !r.Read? ==> data == old(data)
      ensures r.IoError? ==> Break in old(plan)
      ensures Break in plan ==> Break in old(plan)
    {
      var room := buf.Length - from;
      if plan != [] {
        var next := plan[0];
        plan := plan[1..];
        match next {
          case Timeout => return TimedOut;
          case Break => return IoError;
          case Upto(n) => room := if n + 1 < room then n + 1 else room;
        }
      }
      var n := if |data| < room then |data| else room;
      var piece := data[..n];
      forall i | 0 <= i < n {
        buf[from + i] := piece[i];
      }
      assert buf[from..from + n] == piece && data == piece + data[n..];
      data := data[n..];
      r := Read(n);
    }
  }

  // ---- The resumable reader ----

  datatype Polled<M> = Message(msg: M) | NotYet | Error(fault: Fault)

  class FrameReader<M> {
    var hdr: array<Byte>
    var hdrPos: nat
    var body: array<Byte>
    var bodyPos: nat
    var bodyLen: nat

    ghost predicate Valid()
      reads this, hdr, body
    {
      && hdr != body && hdr.Length == 4 && hdrPos <= 4
      && bodyPos <= bodyLen == body.Length
      && (body.Length > 0 ==> hdrPos == 4 && bodyLen == FromBigEndian(hdr[..]) <= MAX_FRAME_BYTES)
    }

    /** The bytes of the current frame taken so far. */
    ghost function Pending(): Bytes
      requires Valid()
      reads this, hdr, body
    {
      hdr[..hdrPos] + body[..bodyPos]
    }

    constructor ()
      ensures Valid() && Pending() == [] && fresh(hdr) && fresh(body)
    {
      hdr := new Byte[4](_ => 0);
      body := new Byte[0];
      hdrPos, bodyPos, bodyLen := 0, 0, 0;
    }

    /** Fill the header. `stop` is a result that ends the poll. */
    method FillHeader(r: Stream) returns (stop: Option<Polled<M>>)
      requires Valid()
      modifies this`hdrPos, hdr, r
      ensures Valid() && Pending() + r.data == old(Pending() + r.data)
      ensures |r.plan| <= |old(r.plan)| && (Break in r.plan ==> Break in old(r.plan))
      ensures stop.None? <==> hdrPos == 4
      ensures stop.Some? ==> Stops(stop.value, r, old(r.plan))
    {
      while hdrPos < 4
        invariant Valid() && Pending() + r.data == old(Pending() + r.data)
        invariant |r.plan| <= |old(r.plan)| && (Break in r.plan ==> Break in old(r.plan))
        decreases 4 - hdrPos
      {
        ghost var taken, before := Pending(), r.data;
        var got := r.ReadInto(hdr, hdrPos);
        assert body.Length == 0 && taken == hdr[..hdrPos];
        match got {
          case TimedOut => return Some(NotYet);
          case IoError => return Some(Error(Broken));
          case Read(n) =>
            if n == 0 {
              return Some(Error(UnexpectedEof));
            }
            assert hdr[..hdrPos + n] == taken + hdr[hdrPos..hdrPos + n];
            hdrPos := hdrPos + n;
            assert Pending() + r.data == taken + before;
        }
      }
      stop := None;
    }

    /** Fill the body, once the header has told its length. */
    method FillBody(r: Stream) returns (stop: Option<Polled<M>>)
      requires Valid() && hdrPos == 4
      modifies this`bodyPos, body, r
      ensures Valid() && Pending() + r.data == old(Pending() + r.data)
      ensures |r.plan| <= |old(r.plan)| && (Break in r.plan ==> Break in old(r.plan))
      ensures stop.None? <==> bodyPos == bodyLen
      ensures stop.Some? ==> Stops(stop.value, r, old(r.plan))
    {
      while bodyPos < bodyLen
        invariant Valid() && Pending() + r.data == old(Pending() + r.data)
        invariant |r.plan| <= |old(r.plan)| && (Break in r.plan ==> Break in old(r.plan))
        decreases bodyLen - bodyPos
      {
        ghost var taken, before := Pending(), r.data;
        ghost var part := body[..bodyPos];
        var got := r.ReadInto(body, bodyPos);
        match got {
          case TimedOut => return Some(NotYet);
          case IoError => return Some(Error(Broken));
          case Read(n) =>
            if n == 0 {
              return Some(Error(UnexpectedEof));
            }
            assert body[..bodyPos + n] == part + body[bodyPos..bodyPos + n];
            bodyPos := bodyPos + n;
            assert Pending() + r.data == taken + before;
        }
      }
      stop := None;
    }

    /**
     Take what the stream has to offer. A timeout keeps every byte taken so far; a message or an
     error is what the blocking reader gives for the same bytes in one piece.
     */
    method Poll(codec: Codec<M>, r: Stream) returns (p: Polled<M>)
      requires Valid()
      modifies this, hdr, body, r
      ensures Valid() && hdr == old(hdr) && (body == old(body) || fresh(body))
      ensures |r.plan| <= |old(r.plan)| && (Break in r.plan ==> Break in old(r.plan))
      ensures p.NotYet? ==> Pending() + r.data == old(Pending() + r.data) && |r.plan| < |old(r.plan)|
      ensures p.Message? ==> Pending() == [] && ReadMessage(codec, old(Pending() + r.data)) == Got(p.msg, r.data)
      ensures p.Error? && p.fault != Broken ==> ReadMessage(codec, old(Pending() + r.data)) == Failed(p.fault)
      ensures p.Error? && p.fault == Broken ==> Break in old(r.plan)
    {
      ghost var all := Pending() + r.data;
      var stop := FillHeader(r);
      if stop.Some? {
        assert body.Length == 0;
        return stop.value;
      }
      assert all[..4] == hdr[..];
      if body.Length == 0 {
        var len := FromBigEndian(hdr[..]);
        if len > MAX_FRAME_BYTES {
          return Error(InvalidData);
        }
        OpenBody(len);
      }
      stop := FillBody(r);
      if stop.Some? {
        ShortFrame(codec, hdr[..], body[..bodyPos]);
        return stop.value;
      }
      p := Finish(codec, r.data);
    }

    method OpenBody(len: nat)
      requires Valid() && hdrPos == 4 && body.Length == 0 && len == FromBigEndian(hdr[..]) <= MAX_FRAME_BYTES
      modifies this`bodyLen, this`body, this`bodyPos
      ensures Valid() && bodyLen == len && bodyPos == 0 && fresh(body) && Pending() == old(Pending())
    {
      bodyLen := len;
      body := new Byte[len](_ => 0);
      bodyPos := 0;
    }

    /** Decode a complete frame; only a success makes room for the next one. */
    method Finish(codec: Codec<M>, ghost rest: Bytes) returns (p: Polled<M>)
      requires Valid() && hdrPos == 4 && bodyPos == bodyLen == FromBigEndian(hdr[..]) <= MAX_FRAME_BYTES
      modifies this
      ensures Valid() && hdr == old(hdr) && (body == old(body) || fresh(body))
      ensures !p.NotYet?
      ensures p.Message? ==> Pending() == [] && ReadMessage(codec, old(Pending()) + rest) == Got(p.msg, rest)
      ensures p.Error? ==> p.fault == InvalidData && ReadMessage(codec, old(Pending()) + rest) == Failed(InvalidData)
    {
      WholeFrame(codec, hdr[..], body[..], rest);
      assert body[..bodyPos] == body[..] && hdr[..hdrPos] == hdr[..];
      var decoded := codec.decode(body[..]);
      if decoded.None? {
        return Error(InvalidData);
      }
      hdrPos := 0;
      body := new Byte[0];
      bodyPos, bodyLen := 0, 0;
      p := Message(decoded.value);
    }
  }

  lemma WholeFrame<M>(codec: Codec<M>, hdr: Bytes, body: Bytes, rest: Bytes)
    requires |hdr| == 4 && |body| == FromBigEndian(hdr) <= MAX_FRAME_BYTES
    ensures ReadMessage(codec, hdr + body + rest) ==
            match codec.decode(body) case None => Failed(InvalidData) case Some(m) => Got(m, rest)
  {
    var all := hdr + body + rest;
    assert all[..4] == hdr && all[4..4 + |body|] == body && all[4 + |body|..] == rest;
  }

  lemma ShortFrame<M>(codec: Codec<M>, hdr: Bytes, part: Bytes)
    requires |hdr| == 4 && |part| < FromBigEndian(hdr) <= MAX_FRAME_BYTES
    ensures ReadMessage(codec, hdr + part) == Failed(UnexpectedEof)
  {
    assert (hdr + part)[..4] == hdr;
  }

  /** Why a read loop may stop early: a timeout, the end of the stream, or a broken connection. */
  ghost predicate Stops<M>(p: Polled<M>, r: Stream, planBefore: seq<Delivery>)
    reads r
  {
    match p
    case Message(_) => false
    case NotYet => |r.plan| < |planBefore|
    case Error(e) => if e == UnexpectedEof then r.data == [] else e == Broken && Break in planBefore
  }

  /** Poll until something fails. However the stream is split, the transcript is that of the unsplit one. */
  method Pump<M(!new)>(codec: Codec<M>, data: Bytes, plan: seq<Delivery>) returns (t: Transcript<M>)
    ensures Break !in plan ==> t == ReadAll(codec, data)
    ensures t.fault == Broken ==> Break in plan && t.msgs <= ReadAll(codec, data).msgs
    ensures t.fault != Broken ==> t == ReadAll(codec, data)
  {
    var r := new Stream(data, plan);
    var reader := new FrameReader<M>();
    var msgs: seq<M> := [];
    assert reader.Pending() + r.data == data;
    while true
      invariant reader.Valid() && fresh(reader) && fresh(reader.hdr) && fresh(reader.body) && fresh(r)
      invariant ReadAll(codec, data) == ContinuedBy(msgs, ReadAll(codec, reader.Pending() + r.data))
      invariant Break in r.plan ==> Break in plan
      decreases |reader.Pending()| + |r.data| + |r.plan|
    {
      ghost var before := reader.Pending() + r.data;
      var p := reader.Poll(codec, r);
      match p {
        case NotYet =>
        case Error(e) => return Transcript(msgs, e);
        case Message(m) =>
          assert reader.Pending() + r.data == r.data;
          assert msgs + ([m] + ReadAll(codec, r.data).msgs) == msgs + [m] + ReadAll(codec, r.data).msgs;
          msgs := msgs + [m];
      }
    }
  }

  ghost function ContinuedBy<M>(msgs: seq<M>, t: Transcript<M>): Transcript<M> {
    Transcript(msgs + t.msgs, t.fault)
  }

  /** Every sequence of serialised messages arrives unchanged through any splitting of the stream. */
  method Deliver<M(!new)>(codec: Codec<M>, msgs: seq<M>, plan: seq<Delivery>) returns (t: Transcript<M>)
    requires Lossless(codec) && Break !in plan && forall m :: m in msgs ==> Fits(codec, m)
    ensures t == Transcript(msgs, UnexpectedEof)
  {
    var data: Bytes := [];
    for i := 0 to |msgs|
      invariant data + Frames(codec, msgs[i..]) == Frames(codec, msgs)
    {
      var frame := SerialiseMessage(codec, msgs[i]);
      data := data + frame.value;
    }
    FramesReadBack(codec, msgs, []);
    assert Frames(codec, msgs) + [] == data;
    assert ReadAll(codec, []) == Transcript([], UnexpectedEof);
    t := Pump(codec, data, plan);
  }
}
