/**
 * Packet framing: a three-byte little-endian length, a sequence number, and the payload.
 * `write_command` prints frames, `CommonCodec::decode` cuts them out of a byte stream that
 * arrives in arbitrary pieces.
 */
module Framing {
  import opened Bytes
  import opened Buffers
  import opened Options

  datatype Packet = Packet(seqNo: byte, payload: bytes)

  const MAX_PAYLOAD := 0x100_0000

  predicate Framable(p: Packet) {
    |p.payload| < MAX_PAYLOAD
  }

  predicate AllFramable(ps: seq<Packet>) {
    forall j | 0 <= j < |ps| :: Framable(ps[j])
  }

  function Frame(p: Packet): bytes {
    ToLE(|p.payload|, 3) + [p.seqNo] + p.payload
  }

  function Stream(ps: seq<Packet>): bytes {
    if ps == [] then [] else Frame(ps[0]) + Stream(ps[1..])
  }

  /** `get_length`. */
  function GetLength(buf: bytes): nat
    requires |buf| >= 3
  {
    FromLE(buf[..3])
  }

  /** A frame, byte by byte. */
  lemma FrameLayout(p: Packet)
    requires Framable(p)
    ensures var f: seq<int> := Frame(p);
            && |f| == 4 + |p.payload| && f[0] + 0x100 * f[1] + 0x1_0000 * f[2] == |p.payload|
            && f[3] == p.seqNo && f[4..] == p.payload
  {
    Powers();
    FromToLE(|p.payload|, 3);
    LittleEndian(ToLE(|p.payload|, 3));
  }

  /** Any four bytes of a frame give away its length. */
  lemma FrameLength(p: Packet, suffix: bytes, t: nat)
    requires Framable(p) && 4 <= t <= |Frame(p) + suffix|
    ensures |Frame(p)| == 4 + |p.payload|
    ensures (Frame(p) + suffix)[..t][3] == p.seqNo
    ensures GetLength((Frame(p) + suffix)[..t]) == |p.payload|
  {
    Powers();
    FromToLE(|p.payload|, 3);
    assert (Frame(p) + suffix)[..t][..3] == ToLE(|p.payload|, 3);
  }

  // ----- Decoding -------------------------------------------------------------------

  /** One call of `decode`: it indexes the fourth byte of any non-empty buffer. */
  function Decode(src: bytes): Outcome<(Option<bytes>, bytes)> {
    if src == [] then Ok((None, src))
    else if |src| < 4 then Panic
    else
      var length := GetLength(src);
      if |src| < 4 + length then Ok((None, src))
      else Ok((Some(src[..4 + length]), src[4 + length..]))
  }

  class CommonCodec {
    var seqNo: byte
    var isComplete: bool

    constructor ()
      ensures seqNo == 0 && !isComplete
    {
      seqNo, isComplete := 0, false;
    }

    method DecodeNext(src: Buffer) returns (r: Outcome<Option<(bytes, bool)>>)
      modifies this, src
      ensures match Decode(old(src.data))
              case Panic => r.Panic?
              case Ok((None, rest)) =>
                && r == Ok(None) && src.data == rest && isComplete == old(isComplete)
                && seqNo == if rest == [] then old(seqNo) else rest[3]
              case Ok((Some(frame), rest)) =>
                && r == Ok(Some((frame, rest == []))) && src.data == rest
                && isComplete == (old(isComplete) || rest == [])
                && seqNo == frame[3]
    {
      if src.data == [] {
        return Ok(None);
      }
      if |src.data| < 4 {
        return Panic;
      }
      seqNo := src.data[3];
      var length := GetLength(src.data);
      if |src.data| < 4 + length {
        return Ok(None);
      }
      var payload := src.data[..4 + length];
      src.data := src.data[4 + length..];
      var isEmpty := src.data == [];
      if isEmpty {
        isComplete := true;
      }
      return Ok(Some((payload, isEmpty)));
    }
  }

  /** Call `decode` until it asks for more: the frames found, and the bytes kept for later. */
  function Drain(buf: bytes): Outcome<(seq<bytes>, bytes)>
    decreases |buf|
  {
    var (frame, rest) :- Decode(buf);
    if frame.None? then Ok(([], rest))
    else
      var (frames, left) :- Drain(rest);
      Ok(([frame.value] + frames, left))
  }

  /** Pieces arrive one after the other, and after each the buffer is drained. */
  function Feed(buf: bytes, chunks: seq<bytes>): Outcome<(seq<bytes>, bytes)>
    decreases |chunks|
  {
    if chunks == [] then Ok(([], buf))
    else
      var (frames, left) :- Drain(buf + chunks[0]);
      var (more, end) :- Feed(left, chunks[1..]);
      Ok((frames + more, end))
  }

  // ----- Writing --------------------------------------------------------------------

  /** `write_command`: the length is cut to three bytes. */
  function CommandBytes(com: byte, body: bytes): bytes {
    ToLE(|body| + 1, 3) + [0] + [com] + body
  }

  /** A command, byte by byte. */
  lemma CommandLayout(com: byte, body: bytes)
    ensures var d: seq<int> := CommandBytes(com, body);
            && |d| == 5 + |body| && (d[0] + 0x100 * d[1] + 0x1_0000 * d[2]) == (|body| + 1) % 0x100_0000
            && d[3] == 0 && d[4] == com && d[5..] == body
  {
    Powers();
    FromToLE(|body| + 1, 3);
    LittleEndian(ToLE(|body| + 1, 3));
  }

  method WriteCommand(com: byte, body: bytes, dst: Buffer)
    modifies dst
    ensures dst.data == old(dst.data) + CommandBytes(com, body)
    ensures |dst.data| == |old(dst.data)| + 5 + |body| && dst.data[..|old(dst.data)|] == old(dst.data)
    ensures var d: seq<int> := dst.data[|old(dst.data)|..];
            && (d[0] + 0x100 * d[1] + 0x1_0000 * d[2]) == (|body| + 1) % 0x100_0000
            && d[3] == 0 && d[4] == com && d[5..] == body
  {
    CommandLayout(com, body);
    var length := |body| + 1;
    dst.PutUintLe(length, 3);
    dst.PutSlice([0]);
    dst.PutSlice([com]);
    dst.PutSlice(body);
  }

  lemma CommandIsFrame(com: byte, body: bytes)
    ensures CommandBytes(com, body) == Frame(Packet(0, [com] + body))
  {
  }

  /** A command comes back as one whole frame if and only if its length fits in three bytes. */
  lemma CommandRoundTripIff(com: byte, body: bytes)
    ensures Decode(CommandBytes(com, body)) == Ok((Some(CommandBytes(com, body)), []))
            <==> |body| + 1 < MAX_PAYLOAD
  {
    var src := CommandBytes(com, body);
    Powers();
    FromToLE(|body| + 1, 3);
    assert src[..3] == ToLE(|body| + 1, 3);
    assert src[..|src|] == src;
    var length := GetLength(src);
    assert |src| == 4 + (|body| + 1);
    assert length == (|body| + 1) % MAX_PAYLOAD <= |body| + 1;
    assert Decode(src) == Ok((Some(src[..4 + length]), src[4 + length..]));
    assert |src[4 + length..]| == |body| + 1 - length;
    assert src[|src|..] == [];
  }

  /** A body of 2^24 - 1 bytes: the length reads as zero and the frame is only its header. */
  lemma LargeCommandIsCut(com: byte, body: bytes)
    requires |body| == MAX_PAYLOAD - 1
    ensures Decode(CommandBytes(com, body)) == Ok((Some([0, 0, 0, 0]), [com] + body))
  {
    var src := CommandBytes(com, body);
    Powers();
    FromToLE(MAX_PAYLOAD, 3);
    assert src[..3] == ToLE(MAX_PAYLOAD, 3);
    assert ToLE(MAX_PAYLOAD, 3) == [0] + ToLE(0x1_0000, 2);
    assert ToLE(0x1_0000, 2) == [0] + ToLE(0x100, 1);
    assert ToLE(0x100, 1) == [0] + ToLE(1, 0);
    assert src[..4] == [0, 0, 0, 0] && src[4..] == [com] + body;
  }

  // ----- Independence of chunking ---------------------------------------------------

  /** Of the first t bytes of a stream, how many lie past the last complete frame. */
  function Tail(ps: seq<Packet>, t: nat): nat {
    if ps == [] || t < |Frame(ps[0])| then t else Tail(ps[1..], t - |Frame(ps[0])|)
  }

  /** The first t bytes of a stream contain the first m frames in full and no more. */
  function Complete(ps: seq<Packet>, t: nat): (m: nat)
    ensures m <= |ps|
  {
    if ps == [] || t < |Frame(ps[0])| then 0 else 1 + Complete(ps[1..], t - |Frame(ps[0])|)
  }

  predicate Stuck(n: nat) {
    1 <= n <= 3
  }

  function Frames(ps: seq<Packet>): seq<bytes> {
    seq(|ps|, j requires 0 <= j < |ps| => Frame(ps[j]))
  }

  /** Draining the start of a stream finds the complete frames, or panics on a stub of a header. */
  lemma {:induction false} DrainStream(ps: seq<Packet>, t: nat)
    requires AllFramable(ps) && t <= |Stream(ps)|
    ensures var m, tail := Complete(ps, t), Tail(ps, t);
            && tail <= t && tail <= |Stream(ps[m..])|
            && (m < |ps| ==> tail < |Frame(ps[m])|)
            && Drain(Stream(ps)[..t]) ==
                 if Stuck(tail) then Panic else Ok((Frames(ps[..m]), Stream(ps[m..])[..tail]))
    decreases |ps|
  {
    hide Decode, Frame, Framable;
    if t < 4 {
      ShortStart(ps, t);
    } else {
      var p, rest := ps[0], Stream(ps[1..]);
      DecodeStart(p, rest, t);
      assert ps[0..] == ps && Frames(ps[..0]) == [];
      if t >= |Frame(p)| {
        var u, m := t - |Frame(p)|, Complete(ps[1..], t - |Frame(p)|);
        DrainStream(ps[1..], u);
        assert ps[1..][m..] == ps[1 + m..];
        assert Frames(ps[..1 + m]) == [Frame(p)] + Frames(ps[1..][..m]);
      }
    }
  }

  lemma DecodeStart(p: Packet, rest: bytes, t: nat)
    requires Framable(p) && 4 <= t <= |Frame(p) + rest|
    ensures var buf := (Frame(p) + rest)[..t];
            Decode(buf) == if t < |Frame(p)| then Ok((None, buf))
                           else Ok((Some(Frame(p)), rest[..t - |Frame(p)|]))
  {
    FrameLength(p, rest, t);
    var buf := (Frame(p) + rest)[..t];
    if t >= |Frame(p)| {
      assert buf[..|Frame(p)|] == Frame(p);
      assert buf[|Frame(p)|..] == rest[..t - |Frame(p)|];
    }
  }

  lemma ShortStart(ps: seq<Packet>, t: nat)
    requires t < 4 && t <= |Stream(ps)|
    ensures Complete(ps, t) == 0 && Tail(ps, t) == t && ps[0..] == ps && Frames(ps[..0]) == []
    ensures ps != [] ==> |Frame(ps[0])| >= 4
    ensures Drain(Stream(ps)[..t]) == if t == 0 then Ok(([], [])) else Panic
  {
  }

  function Concat(chunks: seq<bytes>): bytes {
    if chunks == [] then [] else chunks[0] + Concat(chunks[1..])
  }

  /** After some piece, what is left past the last complete frame is a stub of a header. */
  predicate CutsHeader(ps: seq<Packet>, t: nat, chunks: seq<bytes>)
    decreases |chunks|
  {
    chunks != [] && (Stuck(Tail(ps, t + |chunks[0]|)) || CutsHeader(ps, t + |chunks[0]|, chunks[1..]))
  }

  lemma {:induction false} TailAfterFrames(ps: seq<Packet>, t: nat, u: nat)
    requires t <= u
    ensures Tail(ps, t) <= t
    ensures Tail(ps, u) == Tail(ps[Complete(ps, t)..], Tail(ps, t) + u - t)
    ensures Complete(ps, t) < |ps| ==> Tail(ps, t) < |Frame(ps[Complete(ps, t)])|
    decreases |ps|
  {
    hide Frame;
    if ps == [] || t < |Frame(ps[0])| {
      assert ps[0..] == ps;
    } else {
      var l := |Frame(ps[0])|;
      TailAfterFrames(ps[1..], t - l, u - l);
      var m := Complete(ps[1..], t - l);
      assert ps[1..][m..] == ps[1 + m..];
    }
  }

  lemma {:induction false} CutsAfterFrames(ps: seq<Packet>, t: nat, chunks: seq<bytes>)
    ensures CutsHeader(ps, t, chunks) == CutsHeader(ps[Complete(ps, t)..], Tail(ps, t), chunks)
    decreases |chunks|
  {
    hide Tail, Complete, Stuck;
    if chunks != [] {
      var u := t + |chunks[0]|;
      TailAfterFrames(ps, t, u);
      CutsAfterFrames(ps, u, chunks[1..]);
      var rest, v := ps[Complete(ps, t)..], Tail(ps, t) + |chunks[0]|;
      CutsAfterFrames(rest, v, chunks[1..]);
      FramesAfterFrames(ps, t, u);
      assert rest[Complete(rest, v)..] == ps[Complete(ps, u)..];
    }
  }

  lemma {:induction false} FramesAfterFrames(ps: seq<Packet>, t: nat, u: nat)
    requires t <= u
    ensures Tail(ps, t) <= t
    ensures Complete(ps, u) ==
            Complete(ps, t) + Complete(ps[Complete(ps, t)..], Tail(ps, t) + u - t)
    decreases |ps|
  {
    hide Frame;
    if ps == [] || t < |Frame(ps[0])| {
      assert ps[0..] == ps;
    } else {
      var l := |Frame(ps[0])|;
      FramesAfterFrames(ps[1..], t - l, u - l);
      var m := Complete(ps[1..], t - l);
      assert ps[1..][m..] == ps[1 + m..];
    }
  }

  /** Feeding the rest of a stream to a buffer that holds the start of it. */
  lemma {:induction false} FeedStream(ps: seq<Packet>, t: nat, chunks: seq<bytes>)
    requires AllFramable(ps) && t <= |Stream(ps)| && Complete(ps, t) == 0
    requires Stream(ps)[..t] + Concat(chunks) == Stream(ps)
    ensures CutsHeader(ps, t, chunks) <==> Feed(Stream(ps)[..t], chunks).Panic?
    ensures !CutsHeader(ps, t, chunks) ==> Feed(Stream(ps)[..t], chunks) == Ok((Frames(ps), []))
    decreases |chunks|
  {
    hide Drain, Stream, Tail, Complete, Frames, Framable;
    var stream, buf := Stream(ps), Stream(ps)[..t];
    if chunks == [] {
      assert buf + [] == buf;
      CompleteAll(ps);
    } else {
      var u, rest := t + |chunks[0]|, chunks[1..];
      SplitChunk(stream, t, chunks);
      DrainStream(ps, u);
      CutsAfterFrames(ps, u, rest);
      var m, v := Complete(ps, u), Tail(ps, u);
      if !Stuck(v) {
        StreamAfterFrames(ps, u);
        Reassemble(stream, u, v, Concat(rest));
        FeedStream(ps[m..], v, rest);
        FramesSplit(ps, m);
      }
    }
  }

  lemma SplitChunk(stream: bytes, t: nat, chunks: seq<bytes>)
    requires t <= |stream| && chunks != [] && stream[..t] + Concat(chunks) == stream
    ensures t + |chunks[0]| <= |stream|
    ensures stream[..t] + chunks[0] == stream[..t + |chunks[0]|]
    ensures stream[..t + |chunks[0]|] + Concat(chunks[1..]) == stream
  {
    assert stream[..t] + Concat(chunks) == stream[..t] + chunks[0] + Concat(chunks[1..]);
  }

  lemma Reassemble(stream: bytes, u: nat, v: nat, rest: bytes)
    requires v <= u <= |stream| && stream[..u] + rest == stream
    ensures stream[u - v..][..v] + rest == stream[u - v..]
  {
    assert rest == stream[u..];
  }

  lemma FramesSplit(ps: seq<Packet>, m: nat)
    requires m <= |ps|
    ensures Frames(ps) == Frames(ps[..m]) + Frames(ps[m..])
  {
  }

  lemma {:induction false} CompleteAll(ps: seq<Packet>)
    ensures Complete(ps, |Stream(ps)|) == |ps| && Tail(ps, |Stream(ps)|) == 0
    ensures ps == [] ==> Stream(ps) == [] && Frames(ps) == []
    decreases |ps|
  {
    hide Frame;
    if ps != [] {
      CompleteAll(ps[1..]);
    }
  }

  lemma StreamHead(ps: seq<Packet>)
    requires ps != []
    ensures |Stream(ps)| == |Frame(ps[0])| + |Stream(ps[1..])|
    ensures Stream(ps)[|Frame(ps[0])|..] == Stream(ps[1..])
  {
    hide Frame;
  }

  /** Dropping complete frames drops as many bytes from the stream. */
  lemma {:induction false} StreamAfterFrames(ps: seq<Packet>, t: nat)
    requires t <= |Stream(ps)|
    ensures Tail(ps, t) <= t && Tail(ps, t) <= |Stream(ps[Complete(ps, t)..])|
    ensures Stream(ps[Complete(ps, t)..]) == Stream(ps)[t - Tail(ps, t)..]
    ensures Complete(ps[Complete(ps, t)..], Tail(ps, t)) == 0
    decreases |ps|
  {
    hide Frame, Stream;
    if ps == [] || t < |Frame(ps[0])| {
      assert ps[0..] == ps;
    } else {
      var l := |Frame(ps[0])|;
      StreamHead(ps);
      StreamAfterFrames(ps[1..], t - l);
      var m := Complete(ps[1..], t - l);
      assert ps[1..][m..] == ps[1 + m..];
    }
  }

  lemma {:induction false} CutsHeaderIff(ps: seq<Packet>, t: nat, chunks: seq<bytes>)
    ensures CutsHeader(ps, t, chunks) <==>
            exists i | 1 <= i <= |chunks| :: Stuck(Tail(ps, t + |Concat(chunks[..i])|))
    decreases |chunks|
  {
    hide Tail, Stuck;
    if chunks != [] {
      var u, rest := t + |chunks[0]|, chunks[1..];
      CutsHeaderIff(ps, u, rest);
      forall i | 1 <= i <= |chunks|
        ensures t + |Concat(chunks[..i])| == u + |Concat(rest[..i - 1])|
      {
        assert chunks[..i][1..] == rest[..i - 1];
      }
      if j :| 1 <= j <= |rest| && Stuck(Tail(ps, u + |Concat(rest[..j])|)) {
        assert Stuck(Tail(ps, t + |Concat(chunks[..j + 1])|));
      }
      assert Stuck(Tail(ps, u)) <==> Stuck(Tail(ps, t + |Concat(chunks[..1])|));
      if i :| 1 <= i <= |chunks| && Stuck(Tail(ps, t + |Concat(chunks[..i])|)) {
        assert Stuck(Tail(ps, u + |Concat(rest[..i - 1])|));
      }
    }
  }

  datatype Command = Command(com: byte, body: bytes)

  /** What a run of `write_command` leaves in the buffer. */
  function Written(cmds: seq<Command>): bytes {
    if cmds == [] then [] else CommandBytes(cmds[0].com, cmds[0].body) + Written(cmds[1..])
  }

  function Packets(cmds: seq<Command>): seq<Packet> {
    seq(|cmds|, j requires 0 <= j < |cmds| => Packet(0, [cmds[j].com] + cmds[j].body))
  }

  lemma {:induction false} WrittenIsStream(cmds: seq<Command>)
    ensures Written(cmds) == Stream(Packets(cmds))
    decreases |cmds|
  {
    if cmds != [] {
      CommandIsFrame(cmds[0].com, cmds[0].body);
      WrittenIsStream(cmds[1..]);
      assert Packets(cmds)[1..] == Packets(cmds[1..]);
    }
  }

  /**
   * Commands that fit in a frame come out one by one and in order, however the stream is cut,
   * if and only if no cut leaves one, two or three bytes past the last complete frame.
   */
  lemma ChunkingDoesNotMatter(cmds: seq<Command>, chunks: seq<bytes>)
    requires forall j | 0 <= j < |cmds| :: |cmds[j].body| + 1 < MAX_PAYLOAD
    requires Concat(chunks) == Written(cmds)
    ensures Feed([], chunks) in {Ok((Frames(Packets(cmds)), [])), Panic}
    ensures Feed([], chunks).Panic? <==>
            exists i | 1 <= i <= |chunks| :: Stuck(Tail(Packets(cmds), |Concat(chunks[..i])|))
  {
    var ps := Packets(cmds);
    hide Feed, Frames, Tail, Stuck, CutsHeader, Frame, Concat;
    WrittenIsStream(cmds);
    assert Complete(ps, 0) == 0 by { FramesAreLong(ps); }
    assert Stream(ps)[..0] + Concat(chunks) == Stream(ps);
    FeedStream(ps, 0, chunks);
    CutsHeaderIff(ps, 0, chunks);
  }

  lemma FramesAreLong(ps: seq<Packet>)
    ensures Complete(ps, 0) == 0
  {
    if ps != [] {
      assert |Frame(ps[0])| >= 4;
    }
  }

  /** A quit command that arrives with its first byte alone. */
  lemma CutHeaderPanics()
    ensures Written([Command(1, [])]) == Concat([[1], [0, 0, 0, 1]])
    ensures Feed([], [[1], [0, 0, 0, 1]]) == Panic
  {
    assert ToLE(1, 3) == [1] + ToLE(0, 2);
    assert ToLE(0, 2) == [0] + ToLE(0, 1);
    assert ToLE(0, 1) == [0] + ToLE(0, 0);
    assert CommandBytes(1, []) == [1, 0, 0, 0, 1];
    assert Written([Command(1, [])]) == CommandBytes(1, []) + Written([]);
    assert [[1], [0, 0, 0, 1]][1..] == [[0, 0, 0, 1]] && [[0, 0, 0, 1]][1..] == [];
    assert Concat([[0, 0, 0, 1]]) == [0, 0, 0, 1] + Concat([]);
    assert [] + [1] == [1];
  }
}
