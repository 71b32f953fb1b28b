/** Length-prefixed frames over pipes that read and write as many bytes as they please
    (adapters/colmap/colmap_worker.cpp). */
module WorkerFraming {
  import opened Wrappers
  import opened LittleEndian

  const MAX_FRAME := 0x400_0000

  /** The message codec, a parameter. */
  datatype Codec<!M> = Codec(serialize: M -> seq<byte>, parse: seq<byte> -> Option<M>)

  // ---------------------------------------------------------------------- specification

  function Frame(body: seq<byte>): seq<byte> {
    Bytes(|body|, 4) + body
  }

  /** The frames of several messages, one after the other. */
  function Stream<M>(c: Codec<M>, ms: seq<M>): seq<byte> {
    if ms == [] then [] else Frame(c.serialize(ms[0])) + Stream(c, ms[1..])
  }

  ghost predicate Fits<M>(c: Codec<M>, m: M) {
    |c.serialize(m)| <= MAX_FRAME
  }

  /** The message fits a frame and the codec gives it back. */
  ghost predicate Travels<M>(c: Codec<M>, m: M) {
    Fits(c, m) && c.parse(c.serialize(m)) == Some(m)
  }

  /** What receiving one frame comes to: a message and the bytes left, or the end of input,
      or a protocol error. Only the last is reported with eof unset. */
  datatype Received<M> = Message(m: M, rest: seq<byte>) | EndOfInput | ProtocolError

  function Receive<M>(c: Codec<M>, s: seq<byte>): Received<M> {
    if |s| < 4 then EndOfInput
    else
      var n := Number(s[..4]);
      if n > MAX_FRAME then ProtocolError
      else if |s| < 4 + n then EndOfInput
      else
        match c.parse(s[4..4 + n])
        case Some(m) => Message(m, s[4 + n..])
        case None => ProtocolError
  }

  /** Receiving until it fails: the messages, and whether the end of input was reached. */
  function ReceiveAll<M>(c: Codec<M>, s: seq<byte>): (seq<M>, bool)
    decreases |s|
  {
    match Receive(c, s)
    case Message(m, rest) =>
      var (ms, eof) := ReceiveAll(c, rest);
      ([m] + ms, eof)
    case EndOfInput => ([], true)
    case ProtocolError => ([], false)
  }

  // ----------------------------------------------------------------------------- the pipes

  /** The read end: a read returns some of the bytes asked for, and none only at the end. */
  class InPipe {
    var data: seq<byte>

    constructor (bytes: seq<byte>)
      ensures data == bytes
    {
      data := bytes;
    }

    method Read(count: nat) returns (chunk: seq<byte>)
      requires count > 0
      modifies this
      ensures |chunk| <= count && old(data) == chunk + data
      ensures chunk == [] <==> old(data) == []
    {
      if data == [] {
        return [];
      }
      var most := if count < |data| then count else |data|;
      var n: nat :| 1 <= n <= most;
      chunk := data[..n];
      data := data[n..];
    }
  }

  /** The write end: a write takes some of the bytes, and none only when the pipe is broken,
      which it can become at any write. */
  class OutPipe {
    var data: seq<byte>
    var broken: bool

    constructor ()
      ensures data == [] && !broken
    {
      data, broken := [], false;
    }

    method Write(bytes: seq<byte>) returns (n: nat)
      requires bytes != []
      modifies this
      ensures n <= |bytes| && data == old(data) + bytes[..n]
      ensures (old(broken) ==> broken) && (n == 0 <==> broken)
    {
      var breaks: bool := *;
      if broken || breaks {
        broken := true;
        return 0;
      }
      n :| 1 <= n <= |bytes|;
      data := data + bytes[..n];
    }
  }

  /** Reads exactly count bytes, or finds fewer and consumes them. */
  method ReadExact(pipe: InPipe, count: nat) returns (ok: bool, bytes: seq<byte>)
    modifies pipe
    ensures ok <==> count <= |old(pipe.data)|
    ensures ok ==> bytes == old(pipe.data)[..count] && pipe.data == old(pipe.data)[count..]
    ensures !ok ==> pipe.data == []
  {
    bytes := [];
    while |bytes| < count
      invariant |bytes| <= count && old(pipe.data) == bytes + pipe.data
      decreases count - |bytes|
    {
      var chunk := pipe.Read(count - |bytes|);
      if chunk == [] {
        return false, bytes;
      }
      bytes := bytes + chunk;
    }
    ok := true;
  }

  lemma TwoParts(was: seq<byte>, bytes: seq<byte>, i: nat, n: nat)
    requires i + n <= |bytes|
    ensures was + bytes[..i] + bytes[i..][..n] == was + bytes[..i + n]
  {
  }

  /** Writes all the bytes, or some of them and finds the pipe broken. */
  method WriteExact(pipe: OutPipe, bytes: seq<byte>) returns (ok: bool, ghost sent: nat)
    modifies pipe
    ensures sent <= |bytes| && pipe.data == old(pipe.data) + bytes[..sent]
    ensures ok <==> sent == |bytes|
    ensures !ok ==> pipe.broken
  {
    var i := 0;
    while i < |bytes|
      invariant i <= |bytes| && pipe.data == old(pipe.data) + bytes[..i]
      decreases |bytes| - i
    {
      var n := pipe.Write(bytes[i..]);
      TwoParts(old(pipe.data), bytes, i, n);
      if n == 0 {
        return false, i;
      }
      i := i + n;
    }
    ok, sent := true, i;
  }

  lemma InTwoWrites(was: seq<byte>, a: seq<byte>, b: seq<byte>, i: nat)
    requires i <= |b|
    ensures was + a + b[..i] == was + (a + b)[..|a| + i]
  {
    assert (a + b)[..|a| + i] == a + b[..i];
  }

  /** A whole frame; nothing when the message is too long; a cut frame when the pipe breaks. */
  method WorkerSendFrame<M>(pipe: OutPipe, c: Codec<M>, m: M) returns (ok: bool, ghost sent: nat)
    modifies pipe
    ensures sent <= |Frame(c.serialize(m))| && pipe.data == old(pipe.data) + Frame(c.serialize(m))[..sent]
    ensures ok ==> Fits(c, m) && sent == |Frame(c.serialize(m))|
    ensures !ok ==> if Fits(c, m) then pipe.broken && sent < |Frame(c.serialize(m))| else sent == 0
    ensures |c.serialize(m)| > 64 * 1024 * 1024 ==> !ok && sent == 0
  {
    var body := c.serialize(m);
    sent := 0;
    if |body| > MAX_FRAME {
      return false, 0;
    }
    ok, sent := WriteExact(pipe, Bytes(|body|, 4));
    InTwoWrites(old(pipe.data), [], Bytes(|body|, 4) + body, sent);
    assert Frame(body)[..sent] == Bytes(|body|, 4)[..sent];
    if ok {
      ghost var more: nat;
      ok, more := WriteExact(pipe, body);
      InTwoWrites(old(pipe.data), Bytes(|body|, 4), body, more);
      sent := 4 + more;
    }
  }

  method WorkerRecvFrame<M>(pipe: InPipe, c: Codec<M>) returns (m: Option<M>, eof: bool)
    modifies pipe
    ensures match Receive(c, old(pipe.data))
            case Message(x, rest) => m == Some(x) && pipe.data == rest && !eof
            case EndOfInput => m == None && eof && pipe.data == []
            case ProtocolError => m == None && !eof
    ensures |old(pipe.data)| >= 4 && Number(old(pipe.data)[..4]) > 64 * 1024 * 1024 ==> m == None && !eof
  {
    var ok, prefix := ReadExact(pipe, 4);
    if !ok {
      return None, true;
    }
    NumberOfFour(prefix);
    var b0, b1, b2, b3 := prefix[0] as int, prefix[1] as int, prefix[2] as int, prefix[3] as int;
    var length := b0 + 0x100 * b1 + 0x1_0000 * b2 + 0x100_0000 * b3;
    if length > MAX_FRAME {
      return None, false;
    }
    var frame: seq<byte> := [];
    if length > 0 {
      ok, frame := ReadExact(pipe, length);
      if !ok {
        return None, true;
      }
    }
    assert frame == old(pipe.data)[4..4 + length];
    m := c.parse(frame);
    eof := false;
  }

  /** The reader's loop, as far as the messages go. */
  method ReceiveUntilFailure<M>(pipe: InPipe, c: Codec<M>) returns (ms: seq<M>, eof: bool)
    modifies pipe
    ensures (ms, eof) == ReceiveAll(c, old(pipe.data))
  {
    ms := [];
    assert ms + ReceiveAll(c, pipe.data).0 == ReceiveAll(c, pipe.data).0;
    while true
      invariant var (more, end) := ReceiveAll(c, pipe.data);
                ReceiveAll(c, old(pipe.data)) == (ms + more, end)
      decreases |pipe.data|
    {
      ghost var before := pipe.data;
      var m: Option<M>;
      m, eof := WorkerRecvFrame(pipe, c);
      if m == None {
        assert ms + [] == ms;
        return;
      }
      assert ms + ([m.value] + ReceiveAll(c, pipe.data).0) == (ms + [m.value]) + ReceiveAll(c, pipe.data).0;
      ms := ms + [m.value];
    }
  }

  // ------------------------------------------------------------------------------ round trip

  lemma ReceiveFrame<M>(c: Codec<M>, m: M, rest: seq<byte>)
    requires Travels(c, m)
    ensures Receive(c, Frame(c.serialize(m)) + rest) == Message(m, rest)
  {
    var body := c.serialize(m);
    var s := Frame(body) + rest;
    PowerValues();
    NumberOfBytes(|body|, 4);
    assert s[..4] == Bytes(|body|, 4);
    assert s[4..4 + |body|] == body;
    assert s[4 + |body|..] == rest;
  }

  /** Complete frames and then bytes in which the input ends: the frames' messages arrive. */
  lemma {:induction false} FramesArrive<M>(c: Codec<M>, ms: seq<M>, tail: seq<byte>)
    requires (forall m :: m in ms ==> Travels(c, m)) && Receive(c, tail) == EndOfInput
    ensures ReceiveAll(c, Stream(c, ms) + tail) == (ms, true)
  {
    if ms == [] {
      assert Stream(c, ms) + tail == tail;
    } else {
      var first, rest := Frame(c.serialize(ms[0])), Stream(c, ms[1..]);
      assert (first + rest) + tail == first + (rest + tail);
      ReceiveFrame(c, ms[0], rest + tail);
      FramesArrive(c, ms[1..], tail);
      assert [ms[0]] + ms[1..] == ms;
    }
  }

  /** However the pipes split the bytes, frames sent one after the other are received as the
      same messages in the same order, and then the end of input. */
  lemma StreamDecodes<M>(c: Codec<M>, ms: seq<M>)
    requires forall m :: m in ms ==> Travels(c, m)
    ensures ReceiveAll(c, Stream(c, ms)) == (ms, true)
  {
    FramesArrive(c, ms, []);
    assert Stream(c, ms) + [] == Stream(c, ms);
  }

  lemma {:induction false} StreamSnoc<M>(c: Codec<M>, ms: seq<M>, m: M)
    ensures Stream(c, ms + [m]) == Stream(c, ms) + Frame(c.serialize(m))
  {
    if ms == [] {
      assert [m][1..] == [];
      assert Stream(c, [m]) == Frame(c.serialize(m)) + Stream(c, []);
      assert ms + [m] == [m];
    } else {
      StreamSnoc(c, ms[1..], m);
      assert (ms + [m])[1..] == ms[1..] + [m];
    }
  }

  lemma CutFrame<M>(c: Codec<M>, m: M, k: nat)
    requires k < |Frame(c.serialize(m))| && (Fits(c, m) || k == 0)
    ensures Receive(c, Frame(c.serialize(m))[..k]) == EndOfInput
  {
    if k >= 4 {
      CutInside(c, m, [], k);
      assert Frame(c.serialize(m)) + [] == Frame(c.serialize(m));
    }
  }

  lemma CutInside<M>(c: Codec<M>, m: M, rest: seq<byte>, k: nat)
    requires Fits(c, m) && k < |Frame(c.serialize(m))|
    ensures Receive(c, (Frame(c.serialize(m)) + rest)[..k]) == EndOfInput
  {
    var body := c.serialize(m);
    var s := (Frame(body) + rest)[..k];
    if k >= 4 {
      PowerValues();
      NumberOfBytes(|body|, 4);
      assert s[..4] == Bytes(|body|, 4);
    }
  }

  /** The bytes of n messages and the first cut bytes of the next one's frame. */
  function StreamUpTo<M>(c: Codec<M>, ms: seq<M>, n: nat, cut: nat): seq<byte>
    requires n < |ms| && cut <= |Frame(c.serialize(ms[n]))|
  {
    Stream(c, ms[..n]) + Frame(c.serialize(ms[n]))[..cut]
  }

  lemma StreamNext<M>(c: Codec<M>, ms: seq<M>, n: nat, cut: nat, was: seq<byte>)
    requires n < |ms| && cut <= |Frame(c.serialize(ms[n]))|
    ensures was + Stream(c, ms[..n]) + Frame(c.serialize(ms[n]))[..cut] == was + StreamUpTo(c, ms, n, cut)
    ensures cut == |Frame(c.serialize(ms[n]))| ==> StreamUpTo(c, ms, n, cut) == Stream(c, ms[..n + 1])
  {
    assert ms[..n + 1] == ms[..n] + [ms[n]];
    StreamSnoc(c, ms[..n], ms[n]);
  }

  /** Sends until a send fails: all the frames, or the first n of them and a proper part of the
      next, of which not a byte if it is too long to be sent. */
  method SendAll<M>(pipe: OutPipe, c: Codec<M>, ms: seq<M>) returns (n: nat, ghost cut: nat)
    modifies pipe
    ensures n <= |ms| && forall k :: 0 <= k < n ==> Fits(c, ms[k])
    ensures n == |ms| ==> pipe.data == old(pipe.data) + Stream(c, ms)
    ensures n < |ms| ==> cut < |Frame(c.serialize(ms[n]))| && pipe.data == old(pipe.data) + StreamUpTo(c, ms, n, cut)
    ensures n < |ms| ==> if Fits(c, ms[n]) then pipe.broken else cut == 0
  {
    ghost var was := pipe.data;
    n, cut := 0, 0;
    assert was + Stream(c, ms[..0]) == was;
    while n < |ms|
      invariant n <= |ms| && pipe.data == was + Stream(c, ms[..n])
      invariant forall k :: 0 <= k < n ==> Fits(c, ms[k])
    {
      var ok;
      ok, cut := WorkerSendFrame(pipe, c, ms[n]);
      StreamNext(c, ms, n, cut, was);
      if !ok {
        return;
      }
      n := n + 1;
    }
    assert ms[..|ms|] == ms;
  }

  /** A sequence of messages sent at one end and received at the other: all of them arrive in
      order, unless a send fails; then those before it arrive. The end of input follows. */
  method Transfer<M>(outEnd: OutPipe, c: Codec<M>, ms: seq<M>) returns (received: seq<M>, eof: bool, sent: nat)
    requires outEnd.data == [] && forall m :: m in ms ==> c.parse(c.serialize(m)) == Some(m)
    modifies outEnd
    ensures eof && sent <= |ms| && received == ms[..sent] && forall k :: 0 <= k < sent ==> Fits(c, ms[k])
    ensures sent < |ms| && Fits(c, ms[sent]) ==> outEnd.broken
  {
    ghost var cut: nat;
    sent, cut := SendAll(outEnd, c, ms);
    ghost var tail := if sent == |ms| then [] else Frame(c.serialize(ms[sent]))[..cut];
    assert ms[..|ms|] == ms;
    assert outEnd.data == Stream(c, ms[..sent]) + tail;
    if sent < |ms| {
      CutFrame(c, ms[sent], cut);
    }
    FramesArrive(c, ms[..sent], tail);
    var inEnd := new InPipe(outEnd.data);
    received, eof := ReceiveUntilFailure(inEnd, c);
  }

  lemma CutBeyond<M>(c: Codec<M>, m: M, rest: seq<byte>, k: nat)
    requires Travels(c, m) && |Frame(c.serialize(m))| <= k <= |Frame(c.serialize(m)) + rest|
    ensures Receive(c, (Frame(c.serialize(m)) + rest)[..k]) == Message(m, rest[..k - |Frame(c.serialize(m))|])
  {
    var first := Frame(c.serialize(m));
    assert (first + rest)[..k] == first + rest[..k - |first|];
    ReceiveFrame(c, m, rest[..k - |first|]);
  }

  /** A stream cut anywhere yields the messages whose frames are complete and then the end of
      input. A frame cut short is therefore not reported as a protocol error. */
  lemma {:induction false} CutStreamDecodes<M>(c: Codec<M>, ms: seq<M>, k: nat) returns (n: nat)
    requires (forall m :: m in ms ==> Travels(c, m)) && k <= |Stream(c, ms)|
    ensures n <= |ms| && ReceiveAll(c, Stream(c, ms)[..k]) == (ms[..n], true)
    ensures |Stream(c, ms[..n])| <= k && (n < |ms| ==> k < |Stream(c, ms[..n])| + |Frame(c.serialize(ms[n]))|)
  {
    if ms == [] {
      return 0;
    }
    var first := Frame(c.serialize(ms[0]));
    assert ms[0] in ms;
    if k < |first| {
      CutInside(c, ms[0], Stream(c, ms[1..]), k);
      return 0;
    }
    var below := CutStreamDecodes(c, ms[1..], k - |first|);
    n := below + 1;
    CutBeyond(c, ms[0], Stream(c, ms[1..]), k);
    assert ms[..n][1..] == ms[1..][..below] && ms[..n] == [ms[0]] + ms[1..][..below];
  }

  lemma FourBytes(s: seq<byte>)
    requires |s| >= 4
    ensures Number(s[..4]) == s[0] as int + 0x100 * s[1] as int + 0x1_0000 * s[2] as int + 0x100_0000 * s[3] as int
  {
    NumberOfFour(s[..4]);
  }

  lemma PrefixOfOne()
    ensures Bytes(1, 4) == [1, 0, 0, 0]
  {
    assert Bytes(0, 1) == [0] + Bytes(0, 0);
    assert Bytes(0, 2) == [0] + Bytes(0, 1);
    assert Bytes(0, 3) == [0] + Bytes(0, 2);
  }

  const RAW := Codec((m: seq<byte>) => m, (s: seq<byte>) => Some(s))

  lemma TwoFramesStream()
    ensures Stream(RAW, [[7], [9]]) == Frame([7]) + Frame([9])
  {
    StreamSnoc(RAW, [], [7]);
    StreamSnoc(RAW, [[7]], [9]);
    assert [] + [[7]] == [[7]] && [[7]] + [[9]] == [[7], [9]];
    assert [] + Frame([7]) == Frame([7]);
  }

  /** Sends without a lock: when two senders' prefixes and bodies alternate, the first message
      received is already wrong and the stream ends in a protocol error. */
  lemma UnsynchronisedSendsGarble()
    ensures ReceiveAll(RAW, Frame([7]) + Frame([9])) == ([[7], [9]], true)
    ensures ReceiveAll(RAW, Bytes(1, 4) + Bytes(1, 4) + [7] + [9]) == ([[1]], false)
  {
    TwoFramesStream();
    StreamDecodes(RAW, [[7], [9]]);
    GarbledStream(Bytes(1, 4) + Bytes(1, 4) + [7] + [9]);
  }

  lemma GarbledStream(s: seq<byte>)
    requires s == Bytes(1, 4) + Bytes(1, 4) + [7] + [9]
    ensures ReceiveAll(RAW, s) == ([[1]], false)
  {
    PrefixOfOne();
    assert s == [1, 0, 0, 0, 1, 0, 0, 0, 7, 9];
    FourBytes(s);
    var rest := s[5..];
    assert s[4..5] == [1];
    assert Receive(RAW, s) == Message([1], rest);
    assert rest[0] == 0 && rest[1] == 0 && rest[2] == 0 && rest[3] == 7;
    FourBytes(rest);
    assert ReceiveAll(RAW, rest) == ([], false);
    assert [[1]] + [] == [[1]];
  }
}
