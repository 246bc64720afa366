/** The length-prefixed framing of CppNetEngine/PacketSession.cpp and its inverse, the
    frame printer MakeSendBuffer of GameServer/Generated/LoginPacketHandler.h.

    A frame is a 16-bit size (of the whole frame) and a 32-bit id, both little-endian
    and packed, followed by the payload. */
module PacketSession {
  import opened NetReceiveBuffer

  const HEADER_SIZE := 6
  const DEFAULT_BUFFER_SIZE := 65535
  const MAX_PAYLOAD := 65529

  /** The 16-bit size field at the front of `b`. */
  function SizeField(b: seq<Byte>): (s: int)
    requires |b| >= HEADER_SIZE
    ensures 0 <= s < 65536
  {
    b[0] as int + 256 * (b[1] as int)
  }

  /** A 32-bit packet id. */
  type Id = x: int | 0 <= x < 0x1_0000_0000

  function IdField(b: seq<Byte>): (id: Id)
    requires |b| >= HEADER_SIZE
  {
    b[2] as int + 256 * (b[3] as int + 256 * (b[4] as int + 256 * (b[5] as int)))
  }

  /** What stands at the front of `b`: less than a whole frame, a header whose size field
      is impossible, or a whole frame. */
  datatype Front = Partial | Impossible | Whole(size: int)

  function FrontOf(b: seq<Byte>): (f: Front)
    ensures f.Whole? ==> HEADER_SIZE <= f.size <= |b| && f.size == SizeField(b)
  {
    if |b| < HEADER_SIZE then Partial
    else if SizeField(b) < HEADER_SIZE || DEFAULT_BUFFER_SIZE < SizeField(b) then Impossible
    else if |b| < SizeField(b) then Partial
    else Whole(SizeField(b))
  }

  /** What one call of OnReceive on a byte string does: the frames it dispatches in
      order, the bytes it consumes, and whether it accepts (or answers -1). */
  datatype Parsed = Parsed(frames: seq<seq<Byte>>, consumed: nat, ok: bool)

  function Parse(b: seq<Byte>): (r: Parsed)
    ensures r.consumed <= |b|
    ensures r.consumed >= HEADER_SIZE * |r.frames|
    decreases |b|
  {
    match FrontOf(b)
    case Partial => Parsed([], 0, true)
    case Impossible => Parsed([], 0, false)
    case Whole(size) => After(b[..size], Parse(b[size..]))
  }

  function After(frame: seq<Byte>, rest: Parsed): Parsed
  {
    Parsed([frame] + rest.frames, |frame| + rest.consumed, rest.ok)
  }

  class PacketSession {
    /** The frames handed to OnRecvPacket, in order. */
    var received: seq<seq<Byte>>

    constructor ()
      ensures received == []
    {
      received := [];
    }

    method OnRecvPacket(frame: seq<Byte>)
      modifies this`received
      ensures received == old(received) + [frame]
    {
      received := received + [frame];
    }

    /** Dispatches every whole frame in `buffer[..len]` and answers how many bytes that
        took, or -1 at a frame whose size field is impossible; the frames before it
        have been dispatched by then. */
    method OnReceive(buffer: array<Byte>, len: int) returns (r: int)
      requires 0 <= len <= buffer.Length
      modifies this`received
      ensures var p := Parse(buffer[..len]);
        received == old(received) + p.frames && r == if p.ok then p.consumed else -1
    {
      ghost var bytes := buffer[..len];
      ghost var done: seq<seq<Byte>> := [];
      var processLen := 0;
      while true
        invariant 0 <= processLen <= len == |bytes| && bytes == buffer[..len]
        invariant received == old(received) + done
        invariant Chopped(bytes, processLen, done)
        decreases len - processLen
      {
        FrontAt(bytes, processLen);
        var dataSize := len - processLen;
        if dataSize < HEADER_SIZE {
          Stop(bytes, processLen, done, Partial);
          break;
        }
        var size := ReadSize(buffer, processLen);
        if size < HEADER_SIZE || DEFAULT_BUFFER_SIZE < size {
          Stop(bytes, processLen, done, Impossible);
          return -1;
        }
        if dataSize < size {
          Stop(bytes, processLen, done, Partial);
          break;
        }
        ChopNext(bytes, processLen, size, done);
        Slice(buffer, len, processLen, processLen + size);
        OnRecvPacket(buffer[processLen..processLen + size]);
        done := done + [bytes[processLen..processLen + size]];
        processLen := processLen + size;
      }
      return processLen;
    }
  }

  /** The size field of the header at `k`. */
  method ReadSize(buffer: array<Byte>, k: nat) returns (size: int)
    requires k + HEADER_SIZE <= buffer.Length
    ensures size == buffer[k] as int + 256 * (buffer[k + 1] as int)
  {
    size := buffer[k] as int + 256 * (buffer[k + 1] as int);
  }

  lemma Slice(buffer: array<Byte>, len: int, from: int, to: int)
    requires 0 <= from <= to <= len <= buffer.Length
    ensures buffer[from..to] == buffer[..len][from..to]
  {
  }

  /** What the loop finds at `k`, in terms of the two bytes it reads there. */
  lemma FrontAt(bytes: seq<Byte>, k: nat)
    requires k <= |bytes|
    ensures FrontOf(bytes[k..]) ==
      if |bytes| - k < HEADER_SIZE then Partial
      else
        var size := bytes[k] as int + 256 * (bytes[k + 1] as int);
        if size < HEADER_SIZE || DEFAULT_BUFFER_SIZE < size then Impossible
        else if |bytes| - k < size then Partial
        else Whole(size)
  {
  }

  /** `done` are whole frames that fill the first `k` bytes. */
  ghost predicate Chopped(bytes: seq<Byte>, k: nat, done: seq<seq<Byte>>)
    decreases |done|
  {
    if done == [] then k == 0
    else
      var f := done[|done| - 1];
      && |f| <= k <= |bytes|
      && FrontOf(bytes[k - |f|..]) == Whole(|f|) && f == bytes[k - |f|..k]
      && Chopped(bytes, k - |f|, done[..|done| - 1])
  }

  lemma ChopNext(bytes: seq<Byte>, k: nat, size: nat, done: seq<seq<Byte>>)
    requires k <= |bytes| && Chopped(bytes, k, done) && FrontOf(bytes[k..]) == Whole(size)
    ensures k + size <= |bytes| && Chopped(bytes, k + size, done + [bytes[k..k + size]])
  {
    assert (done + [bytes[k..k + size]])[..|done|] == done;
  }

  lemma Nothing(bytes: seq<Byte>)
    ensures Parse(bytes) == Then(Parsed([], 0, true), Parse(bytes[0..]))
  {
    NothingThen(Parse(bytes));
    assert bytes[0..] == bytes;
  }

  lemma ParseFront(b: seq<Byte>, f: seq<Byte>, rest: seq<Byte>)
    requires b == f + rest && FrontOf(b) == Whole(|f|)
    ensures Parse(b) == After(f, Parse(rest))
  {
    assert b[..|f|] == f && b[|f|..] == rest;
  }

  /** What stands in front goes over from what is parsed to what is done. */
  lemma Shift(all: Parsed, before: seq<seq<Byte>>, j: nat, f: seq<Byte>, done: seq<seq<Byte>>, k: nat,
              p: Parsed, q: Parsed)
    requires done == before + [f] && k == j + |f|
    requires all == Then(Parsed(before, j, true), p) && p == After(f, q)
    ensures all == Then(Parsed(done, k, true), q)
  {
    assert before + ([f] + q.frames) == done + q.frames;
  }

  lemma Advance(all: Parsed, b: seq<Byte>, f: seq<Byte>, rest: seq<Byte>, before: seq<seq<Byte>>, j: nat,
                done: seq<seq<Byte>>, k: nat)
    requires all == Then(Parsed(before, j, true), Parse(b))
    requires b == f + rest && FrontOf(b) == Whole(|f|)
    requires |done| > 0 && before == done[..|done| - 1] && f == done[|done| - 1] && k == j + |f|
    ensures all == Then(Parsed(done, k, true), Parse(rest))
  {
    assert done == before + [f];
    ParseFront(b, f, rest);
    Shift(all, before, j, f, done, k, Parse(b), Parse(rest));
  }

  /** Parsing goes over the frames chopped off, then on behind them. */
  lemma {:induction false} ParseChopped(bytes: seq<Byte>, k: nat, done: seq<seq<Byte>>)
    requires k <= |bytes| && Chopped(bytes, k, done)
    ensures Parse(bytes) == Then(Parsed(done, k, true), Parse(bytes[k..]))
    decreases |done|
  {
    if done == [] {
      Nothing(bytes);
    } else {
      var f, before := done[|done| - 1], done[..|done| - 1];
      ParseChopped(bytes, k - |f|, before);
      assert bytes[k - |f|..] == f + bytes[k..];
      Advance(Parse(bytes), bytes[k - |f|..], f, bytes[k..], before, k - |f|, done, k);
    }
  }

  lemma Stop(bytes: seq<Byte>, k: nat, done: seq<seq<Byte>>, f: Front)
    requires k <= |bytes| && Chopped(bytes, k, done) && FrontOf(bytes[k..]) == f && !f.Whole?
    ensures Parse(bytes) == Parsed(done, k, f.Partial?)
  {
    ParseChopped(bytes, k, done);
  }

  // ------------------------------------------------------------------- framing

  lemma FrontAppend(b: seq<Byte>, c: seq<Byte>)
    ensures !FrontOf(b).Partial? ==> FrontOf(b + c) == FrontOf(b)
  {
    if |b| >= HEADER_SIZE { assert SizeField(b + c) == SizeField(b); }
  }

  /** First `p`, then what comes of the bytes it left over together with new ones. */
  function Then(p: Parsed, q: Parsed): Parsed
  {
    if !p.ok then p else Parsed(p.frames + q.frames, p.consumed + q.consumed, q.ok)
  }

  lemma AfterThen(frame: seq<Byte>, p: Parsed, q: Parsed)
    ensures After(frame, Then(p, q)) == Then(After(frame, p), q)
  {
    assert [frame] + (p.frames + q.frames) == ([frame] + p.frames) + q.frames;
  }

  /** The bytes an accepting or refusing call leaves over. */
  function Leftover(b: seq<Byte>): seq<Byte>
  {
    b[Parse(b).consumed..]
  }

  lemma LeftoverWhole(b: seq<Byte>)
    requires FrontOf(b).Whole?
    ensures Leftover(b) == Leftover(b[FrontOf(b).size..])
  {
  }

  lemma ParseWhole(b: seq<Byte>, c: seq<Byte>)
    requires FrontOf(b).Whole?
    ensures var s := FrontOf(b).size; Parse(b + c) == After(b[..s], Parse(b[s..] + c))
  {
    var s := FrontOf(b).size;
    FrontAppend(b, c);
    assert (b + c)[s..] == b[s..] + c && (b + c)[..s] == b[..s];
  }

  /** Bytes appended behind `b` are parsed as if `b` had been consumed first; a refusal
      stays a refusal. */
  lemma {:induction false} ParseAppend(b: seq<Byte>, c: seq<Byte>)
    ensures Parse(b + c) == Then(Parse(b), Parse(Leftover(b) + c))
    decreases |b|
  {
    var f := FrontOf(b);
    if f.Whole? {
      ParseAppend(b[f.size..], c);
      ParseWhole(b, c);
      LeftoverWhole(b);
      AfterThen(b[..f.size], Parse(b[f.size..]), Parse(Leftover(b) + c));
    } else if f.Partial? {
      assert Leftover(b) == b;
      NothingThen(Parse(b + c));
    } else {
      FrontAppend(b, c);
    }
  }

  lemma NothingThen(q: Parsed)
    ensures Then(Parsed([], 0, true), q) == q
  {
  }

  /** What an accepting call leaves over is less than one frame. */
  lemma {:induction false} LeftoverIsPartial(b: seq<Byte>)
    requires Parse(b).ok
    ensures FrontOf(Leftover(b)) == Partial
    decreases |b|
  {
    var f := FrontOf(b);
    if !f.Whole? {
    } else {
      LeftoverWhole(b);
      LeftoverIsPartial(b[f.size..]);
    }
  }

  ghost function Joined(frames: seq<seq<Byte>>): seq<Byte>
  {
    if frames == [] then [] else frames[0] + Joined(frames[1..])
  }

  /** A frame as its own header describes it. */
  ghost predicate WellSized(frame: seq<Byte>)
  {
    HEADER_SIZE <= |frame| && SizeField(frame) == |frame|
  }

  /** What a call of OnReceive does, said of the bytes alone: the frames dispatched and the
      bytes left over are, one after the other, the bytes; each frame is as long as its
      header says; the call is refused exactly if a whole header is left over whose size is
      less than a header; and if not, less than a whole header or than a whole frame is. */
  ghost predicate Greedy(b: seq<Byte>, frames: seq<seq<Byte>>, rest: seq<Byte>, ok: bool)
  {
    && Joined(frames) + rest == b
    && (forall i :: 0 <= i < |frames| ==> WellSized(frames[i]))
    && (!ok <==> |rest| >= HEADER_SIZE && SizeField(rest) < HEADER_SIZE)
    && (ok ==> |rest| < HEADER_SIZE || |rest| < SizeField(rest))
  }

  lemma GreedyStop(b: seq<Byte>)
    requires !FrontOf(b).Whole?
    ensures Greedy(b, [], b, FrontOf(b).Partial?)
  {
  }

  lemma GreedyNext(f: seq<Byte>, b: seq<Byte>, frames: seq<seq<Byte>>, rest: seq<Byte>, ok: bool)
    requires WellSized(f) && Greedy(b, frames, rest, ok)
    ensures Greedy(f + b, [f] + frames, rest, ok)
  {
    assert ([f] + frames)[1..] == frames;
    assert Joined([f] + frames) + rest == f + (Joined(frames) + rest);
  }

  lemma FrontIsWellSized(b: seq<Byte>, size: nat)
    requires FrontOf(b) == Whole(size)
    ensures WellSized(b[..size]) && b == b[..size] + b[size..]
  {
  }

  lemma {:induction false} ParseIsGreedy(b: seq<Byte>)
    ensures Greedy(b, Parse(b).frames, Leftover(b), Parse(b).ok)
    decreases |b|
  {
    var f := FrontOf(b);
    if !f.Whole? {
      GreedyStop(b);
      assert b[0..] == b;
    } else {
      FrontIsWellSized(b, f.size);
      ParseIsGreedy(b[f.size..]);
      LeftoverWhole(b);
      GreedyNext(b[..f.size], b[f.size..], Parse(b[f.size..]).frames, Leftover(b), Parse(b).ok);
    }
  }

  /** A receiver that calls OnReceive on the whole unconsumed region each time: the
      unconsumed bytes, the frames dispatched so far, and whether it was refused. */
  datatype Stream = Stream(unconsumed: seq<Byte>, frames: seq<seq<Byte>>, refused: bool)

  function Feed(s: Stream, chunk: seq<Byte>): Stream
  {
    if s.refused then s
    else
      var b := s.unconsumed + chunk;
      var p := Parse(b);
      if p.ok then Stream(Leftover(b), s.frames + p.frames, false)
      else Stream(b, s.frames + p.frames, true)
  }

  ghost function FeedAll(chunks: seq<seq<Byte>>): Stream
  {
    if chunks == [] then Stream([], [], false)
    else Feed(FeedAll(chunks[..|chunks| - 1]), chunks[|chunks| - 1])
  }

  ghost function Concat(chunks: seq<seq<Byte>>): seq<Byte>
  {
    if chunks == [] then [] else Concat(chunks[..|chunks| - 1]) + chunks[|chunks| - 1]
  }

  /** Framing does not depend on how the stream is cut: any chunks dispatch the frames
      that one call on the whole stream dispatches, and are refused if it is; if not,
      they leave over the same bytes. */
  lemma {:induction false} FramingIgnoresCuts(chunks: seq<seq<Byte>>)
    ensures var s, p := FeedAll(chunks), Parse(Concat(chunks));
      && s.frames == p.frames
      && s.refused == !p.ok
      && (p.ok ==> s.unconsumed == Leftover(Concat(chunks)))
  {
    if chunks == [] {
    } else {
      var front, chunk := chunks[..|chunks| - 1], chunks[|chunks| - 1];
      FramingIgnoresCuts(front);
      ParseAppend(Concat(front), chunk);
      if Parse(Concat(front)).ok { LeftoverAppend(Concat(front), chunk); }
    }
  }

  lemma LeftoverAppend(b: seq<Byte>, c: seq<Byte>)
    requires Parse(b + c) == Then(Parse(b), Parse(Leftover(b) + c)) && Parse(b).ok
    ensures Leftover(b + c) == Leftover(Leftover(b) + c)
  {
    var k := Parse(b).consumed;
    assert (b + c)[k..] == b[k..] + c;
  }

  // ------------------------------------------------------------------- printing

  /** A message before printing: its id and its serialized payload. */
  datatype Message = Message(id: Id, payload: seq<Byte>)

  ghost predicate Printable(m: Message)
  {
    |m.payload| <= MAX_PAYLOAD
  }

  /** The size that MakeSendBuffer writes, in 16-bit arithmetic. */
  function PacketSize(payloadSize: nat): (s: int)
    ensures 0 <= s < 65536
  {
    (payloadSize % 65536 + HEADER_SIZE) % 65536
  }

  /** The size field is the length of the frame if and only if the payload has at most
      65529 bytes. */
  lemma SizeFieldExactlyWhen(payloadSize: nat)
    ensures PacketSize(payloadSize) == payloadSize + HEADER_SIZE <==> payloadSize <= MAX_PAYLOAD
  {
  }

  function Frame(m: Message): (f: seq<Byte>)
    requires Printable(m)
    ensures |f| == |m.payload| + HEADER_SIZE
  {
    var s := PacketSize(|m.payload|);
    [s % 256, s / 256, m.id % 256, m.id / 256 % 256, m.id / 65536 % 256, m.id / 0x100_0000] + m.payload
  }

  lemma FrameAt(m: Message, b: seq<Byte>)
    requires Printable(m) && |b| == |m.payload| + HEADER_SIZE
    requires forall k :: 0 <= k < HEADER_SIZE ==> b[k] == Frame(m)[k]
    requires forall k :: 0 <= k < |m.payload| ==> b[HEADER_SIZE + k] == m.payload[k]
    ensures b == Frame(m)
  {
    forall k | 0 <= k < |b|
      ensures b[k] == Frame(m)[k]
    {
      if k >= HEADER_SIZE { assert b[HEADER_SIZE + (k - HEADER_SIZE)] == m.payload[k - HEADER_SIZE]; }
    }
  }

  /** What MakeSendBuffer writes fits the bytes it reserved, the header alone as well as
      the header and the payload's size in 16 bits, if and only if that size is at most
      65529; otherwise it reserved less than a header. */
  lemma WritesFitExactlyWhen(payloadSize: nat)
    ensures HEADER_SIZE + payloadSize % 65536 <= PacketSize(payloadSize) <==> payloadSize % 65536 <= MAX_PAYLOAD
    ensures HEADER_SIZE <= PacketSize(payloadSize) <==> payloadSize % 65536 <= MAX_PAYLOAD
    ensures payloadSize % 65536 > MAX_PAYLOAD ==> PacketSize(payloadSize) == payloadSize % 65536 - 65530
  {
  }

  /** What becomes of a call of MakeSendBuffer: a frame; or the serializer refuses and the
      program stops; or it writes past the bytes it reserved. */
  datatype Outcome = Sent(buffer: array<Byte>) | Stopped | Overrun

  /** Writes the header and the payload into a buffer of the size field's length.  The
      serializer is given the payload's size in 16 bits, and refuses a payload that is
      longer.  The source does not ask whether the header fits what was reserved; the
      model stops where it would write past it. */
  method MakeSendBuffer(m: Message) returns (r: Outcome)
    ensures r.Sent? <==> |m.payload| <= MAX_PAYLOAD
    ensures r.Sent? ==> fresh(r.buffer) && r.buffer[..] == Frame(m)
    ensures r.Overrun? <==> |m.payload| % 65536 > MAX_PAYLOAD
  {
    var dataSize := |m.payload| % 65536;
    var packetSize := (dataSize + HEADER_SIZE) % 65536;
    var buffer := new Byte[packetSize];
    WritesFitExactlyWhen(|m.payload|);
    if buffer.Length < HEADER_SIZE {
      return Overrun;
    }
    buffer[0], buffer[1] := packetSize % 256, packetSize / 256;
    buffer[2], buffer[3] := m.id % 256, m.id / 256 % 256;
    buffer[4], buffer[5] := m.id / 65536 % 256, m.id / 0x100_0000;
    if dataSize < |m.payload| {
      return Stopped;
    }
    var i := 0;
    while i < |m.payload|
      invariant 0 <= i <= |m.payload|
      invariant forall k :: 0 <= k < HEADER_SIZE ==> buffer[k] == Frame(m)[k]
      invariant forall k :: 0 <= k < i ==> buffer[HEADER_SIZE + k] == m.payload[k]
    {
      buffer[HEADER_SIZE + i] := m.payload[i];
      i := i + 1;
    }
    FrameAt(m, buffer[..]);
    return Sent(buffer);
  }

  /** The shortest payload that overruns: of 65530 bytes, for which nothing is reserved and
      the header and all of the payload are written past it. */
  lemma OverrunExample()
    ensures PacketSize(65530) == 0 && 65530 % 65536 > MAX_PAYLOAD
    ensures forall n: nat :: n < 65530 ==> HEADER_SIZE + n % 65536 <= PacketSize(n)
  {
    forall n: nat | n < 65530
      ensures HEADER_SIZE + n % 65536 <= PacketSize(n)
    {
      WritesFitExactlyWhen(n);
    }
  }

  /** What a handler reads back from a dispatched frame. */
  function Decode(frame: seq<Byte>): Message
    requires |frame| >= HEADER_SIZE
  {
    Message(IdField(frame), frame[HEADER_SIZE..])
  }

  lemma FrameFields(m: Message)
    requires Printable(m)
    ensures SizeField(Frame(m)) == |Frame(m)| && Decode(Frame(m)) == m
  {
    SizeFieldExactlyWhen(|m.payload|);
    var id := m.id;
    assert id / 256 == id / 256 % 256 + 256 * (id / 65536);
    assert id / 65536 == id / 65536 % 256 + 256 * (id / 0x100_0000);
  }

  /** Byte for byte: size 7, id 0x01020304, one byte of payload, low bytes first. */
  lemma FrameExample()
    ensures Frame(Message(0x01020304, [9])) == [7, 0, 4, 3, 2, 1, 9]
  {
  }

  ghost function Print(messages: seq<Message>): seq<Byte>
    requires forall m :: m in messages ==> Printable(m)
  {
    if messages == [] then [] else Frame(messages[0]) + Print(messages[1..])
  }

  /** Round trip: parsing the printed frames of any messages consumes every byte and
      dispatches frames that decode to exactly those messages, in order. */
  lemma {:induction false} ParseUndoesPrint(messages: seq<Message>)
    requires forall m :: m in messages ==> Printable(m)
    ensures var p := Parse(Print(messages));
      && p.ok
      && p.consumed == |Print(messages)|
      && |p.frames| == |messages|
      && forall i :: 0 <= i < |messages| ==> |p.frames[i]| >= HEADER_SIZE && Decode(p.frames[i]) == messages[i]
  {
    if messages == [] {
    } else {
      var f, rest := Frame(messages[0]), Print(messages[1..]);
      FrameFields(messages[0]);
      ParseUndoesPrint(messages[1..]);
      assert SizeField(f + rest) == SizeField(f) == |f|;
      assert (f + rest)[|f|..] == rest && (f + rest)[..|f|] == f;
      assert FrontOf(f + rest) == Whole(|f|);
    }
  }

  // -------------------------------------------------------- the frame and the ring

  /** No prefix of a stream that is shorter than its first frame is dispatched. */
  lemma ShortPrefixIsPartial(m: Message, rest: seq<Byte>, k: nat)
    requires Printable(m) && k < |Frame(m)|
    ensures Parse((Frame(m) + rest)[..k]) == Parsed([], 0, true)
  {
    var f := Frame(m);
    var b := (f + rest)[..k];
    FrameFields(m);
    assert b == f[..k];
    if k >= HEADER_SIZE {
      assert SizeField(b) == SizeField(f) == |f|;
    }
  }

  lemma WholePrefixIsDispatched(m: Message, rest: seq<Byte>)
    requires Printable(m)
    ensures Parse((Frame(m) + rest)[..|Frame(m)|]).frames == [Frame(m)]
  {
    var f := Frame(m);
    FrameFields(m);
    assert (f + rest)[..|f|] == f && f[..|f|] == f && f[|f|..] == [];
  }

  /** What OnReceive can be shown of a stream that nothing has been consumed of yet: a ring
      of DEFAULT_BUFFER_SIZE cells holds one byte less (Used in module NetReceiveBuffer). */
  ghost predicate Dispatched(stream: seq<Byte>, k: nat)
  {
    k <= |stream| && k <= DEFAULT_BUFFER_SIZE - 1 && Parse(stream[..k]).frames != []
  }

  /** Printed frames that the ring can deliver: whatever follows, some prefix that fits the
      ring dispatches the frame if and only if the payload has at most 65528 bytes.  The
      largest frame that is printed and accepted, of 65529, never arrives. */
  lemma FrameFitsRingExactlyWhen(m: Message, rest: seq<Byte>)
    requires Printable(m)
    ensures (exists k: nat :: Dispatched(Frame(m) + rest, k)) <==> |m.payload| <= MAX_PAYLOAD - 1
  {
    if |m.payload| <= MAX_PAYLOAD - 1 {
      WholePrefixIsDispatched(m, rest);
      assert Dispatched(Frame(m) + rest, |Frame(m)|);
    } else {
      forall k: nat | k <= DEFAULT_BUFFER_SIZE - 1
        ensures !Dispatched(Frame(m) + rest, k)
      {
        if k <= |Frame(m) + rest| { ShortPrefixIsPartial(m, rest, k); }
      }
    }
  }
}
