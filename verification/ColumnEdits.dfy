/**
 * In-place edits of a packed run of column packets: `add_column_by_idx` and
 * `remove_column_by_idx` walk the packet headers to find where to cut. A walk that reads or cuts
 * beyond the buffer counts as a panic.
 */
module ColumnEdits {
  import opened Bytes
  import opened Buffers
  import opened Framing

  lemma {:induction false} StreamConcat(a: seq<Packet>, b: seq<Packet>)
    ensures Stream(a + b) == Stream(a) + Stream(b)
    decreases |a|
  {
    hide Frame;
    if a == [] {
      assert a + b == b;
    } else {
      StreamConcat(a[1..], b);
      assert (a + b)[1..] == a[1..] + b;
    }
  }

  lemma StreamSplit(ps: seq<Packet>, i: nat)
    requires i <= |ps|
    ensures |Stream(ps[..i])| <= |Stream(ps)|
    ensures Stream(ps)[..|Stream(ps[..i])|] == Stream(ps[..i])
    ensures Stream(ps)[|Stream(ps[..i])|..] == Stream(ps[i..])
  {
    StreamConcat(ps[..i], ps[i..]);
    assert ps == ps[..i] + ps[i..];
  }

  /** At the start of packet i the header gives the distance to packet i + 1. */
  lemma HeaderAt(ps: seq<Packet>, i: nat)
    requires AllFramable(ps) && i < |ps|
    ensures var pos := |Stream(ps[..i])|;
            && pos + 4 <= |Stream(ps)|
            && |Stream(ps[..i + 1])| == pos + GetLength(Stream(ps)[pos..]) + 4
  {
    var pos, tail := |Stream(ps[..i])|, Stream(ps[i..]);
    StreamSplit(ps, i);
    FrameLength(ps[i], Stream(ps[i..][1..]), |tail|);
    assert (Frame(ps[i]) + Stream(ps[i..][1..]))[..|tail|] == tail;
    assert ps[..i + 1] == ps[..i] + [ps[i]];
    StreamConcat(ps[..i], [ps[i]]);
    assert Stream([ps[i]]) == Frame(ps[i]);
  }

  // ----- The list edits -------------------------------------------------------------

  function Insert(ps: seq<Packet>, idx: nat, qs: seq<Packet>): seq<Packet>
    requires idx <= |ps|
  {
    ps[..idx] + qs + ps[idx..]
  }

  /** Delete n packets from idx on, clipped at the end. */
  function Delete(ps: seq<Packet>, idx: nat, n: nat): seq<Packet>
    requires idx <= |ps|
  {
    ps[..idx] + ps[Min(idx + n, |ps|)..]
  }

  lemma DeleteUndoesInsert(ps: seq<Packet>, idx: nat, qs: seq<Packet>)
    requires idx <= |ps|
    ensures Delete(Insert(ps, idx, qs), idx, |qs|) == ps
  {
  }

  // ----- The edits on bytes ---------------------------------------------------------

  /** The offset after n more headers, starting at pos. */
  function Walk(buf: bytes, pos: nat, n: nat): Outcome<nat>
    decreases n
  {
    if n == 0 then Ok(pos)
    else if |buf| < pos + 3 then Panic
    else Walk(buf, pos + GetLength(buf[pos..]) + 4, n - 1)
  }

  /** The same, staying where the buffer ends. */
  function ClippedWalk(buf: bytes, pos: nat, n: nat): Outcome<nat>
    decreases n
  {
    if n == 0 then Ok(pos)
    else if |buf| <= pos then ClippedWalk(buf, pos, n - 1)
    else if |buf| < pos + 3 then Panic
    else ClippedWalk(buf, pos + GetLength(buf[pos..]) + 4, n - 1)
  }

  function Added(buf: bytes, idx: nat, add: bytes): Outcome<bytes> {
    var pos :- Walk(buf, 0, idx);
    if pos > |buf| then Panic else Ok(buf[..pos] + add + buf[pos..])
  }

  function FirstOrZero(chunk: seq<nat>): nat {
    if chunk == [] then 0 else chunk[0]
  }

  function Removed(buf: bytes, chunk: seq<nat>): Outcome<bytes> {
    var pos :- Walk(buf, 0, FirstOrZero(chunk));
    if pos > |buf| then Panic
    else
      var skip :- ClippedWalk(buf[pos..], 0, |chunk|);
      if skip > |buf[pos..]| then Panic else Ok(buf[..pos] + buf[pos..][skip..])
  }

  method AddColumnByIdx(columns: Buffer, idx: nat, add: bytes) returns (r: Outcome<()>)
    modifies columns
    ensures Becomes(Added(old(columns.data), idx, add), r, columns.data)
  {
    var pos :- PacketOffset(columns.data, idx);
    if pos > |columns.data| {
      return Panic;
    }
    var remainPart := columns.data[pos..];
    columns.data := columns.data[..pos];
    columns.PutSlice(add);
    columns.PutSlice(remainPart);
    return Ok(());
  }

  method PacketOffset(columns: bytes, idx: nat) returns (r: Outcome<nat>)
    ensures r == Walk(columns, 0, idx)
  {
    hide GetLength;
    var pos: nat := 0;
    for i := 0 to idx
      invariant Walk(columns, 0, idx) == Walk(columns, pos, idx - i)
    {
      if |columns| < pos + 3 {
        return Panic;
      }
      var length := GetLength(columns[pos..]);
      pos := pos + length + 4;
    }
    return Ok(pos);
  }

  method RemoveColumnByIdx(columns: Buffer, chunk: seq<nat>) returns (r: Outcome<()>)
    modifies columns
    ensures Becomes(Removed(old(columns.data), chunk), r, columns.data)
  {
    hide GetLength;
    var pos: nat :- PacketOffset(columns.data, FirstOrZero(chunk));
    if pos > |columns.data| {
      return Panic;
    }
    var remainPart := columns.data[pos..];
    columns.data := columns.data[..pos];
    pos := 0;
    for j := 0 to |chunk|
      invariant ClippedWalk(remainPart, 0, |chunk|) == ClippedWalk(remainPart, pos, |chunk| - j)
      invariant columns.data == old(columns.data)[..|columns.data|]
      invariant |columns.data| <= |old(columns.data)| && remainPart == old(columns.data)[|columns.data|..]
      invariant Walk(old(columns.data), 0, FirstOrZero(chunk)) == Ok(|columns.data|)
    {
      if |remainPart| <= pos {
        continue;
      }
      if |remainPart| < pos + 3 {
        return Panic;
      }
      var length := GetLength(remainPart[pos..]);
      pos := pos + length + 4;
    }
    if pos > |remainPart| {
      return Panic;
    }
    columns.PutSlice(remainPart[pos..]);
    return Ok(());
  }

  // ----- Bytes and packets ----------------------------------------------------------

  lemma EmptyStream(ps: seq<Packet>)
    ensures Stream(ps[..0]) == []
  {
  }

  /** The walk is at the end exactly when no packet is left. */
  lemma Remaining(ps: seq<Packet>, i: nat)
    requires i <= |ps|
    ensures |Stream(ps)| <= |Stream(ps[..i])| <==> i == |ps|
  {
    StreamSplit(ps, i);
    assert ps[..|ps|] == ps;
    assert i < |ps| ==> |Stream(ps[i..])| >= |Frame(ps[i])| >= 4;
  }

  /** On a run of packets the walk finds the start of each packet, and never leaves the buffer before the last. */
  lemma {:induction false} WalkFindsPacket(ps: seq<Packet>, i: nat, n: nat)
    requires AllFramable(ps) && i <= |ps|
    ensures Walk(Stream(ps), |Stream(ps[..i])|, n)
         == if i + n <= |ps| then Ok(|Stream(ps[..i + n])|) else Panic
    decreases n
  {
    hide Stream, GetLength, AllFramable;
    Remaining(ps, i);
    if n > 0 && i < |ps| {
      HeaderAt(ps, i);
      WalkFindsPacket(ps, i + 1, n - 1);
    }
  }

  lemma {:induction false} ClippedWalkFindsPacket(ps: seq<Packet>, i: nat, n: nat)
    requires AllFramable(ps) && i <= |ps|
    ensures ClippedWalk(Stream(ps), |Stream(ps[..i])|, n) == Ok(|Stream(ps[..Min(i + n, |ps|)])|)
    decreases n
  {
    hide Stream, GetLength, AllFramable;
    Remaining(ps, i);
    if n > 0 {
      if i < |ps| {
        HeaderAt(ps, i);
        ClippedWalkFindsPacket(ps, i + 1, n - 1);
      } else {
        ClippedWalkFindsPacket(ps, i, n - 1);
      }
    }
  }

  /** New bytes go in between two packets, or the walk leaves the buffer: exactly past the last packet. */
  lemma AddsBetweenPackets(ps: seq<Packet>, idx: nat, add: bytes)
    requires AllFramable(ps)
    ensures Added(Stream(ps), idx, add) ==
            if idx <= |ps| then Ok(Stream(ps[..idx]) + add + Stream(ps[idx..])) else Panic
  {
    hide Stream, AllFramable, Walk;
    EmptyStream(ps);
    WalkFindsPacket(ps, 0, idx);
    if idx <= |ps| {
      StreamSplit(ps, idx);
    }
  }

  /** With packets as new bytes this is list insertion. */
  lemma AddIsInsert(ps: seq<Packet>, idx: nat, qs: seq<Packet>)
    requires AllFramable(ps)
    ensures Added(Stream(ps), idx, Stream(qs)) ==
            if idx <= |ps| then Ok(Stream(Insert(ps, idx, qs))) else Panic
  {
    hide Stream, Added;
    AddsBetweenPackets(ps, idx, Stream(qs));
    if idx <= |ps| {
      StreamConcat(ps[..idx], qs);
      StreamConcat(ps[..idx] + qs, ps[idx..]);
    }
  }

  lemma ClippedWalkDrops(ps: seq<Packet>, n: nat)
    requires AllFramable(ps)
    ensures var skip := ClippedWalk(Stream(ps), 0, n);
            skip.Ok? && skip.value <= |Stream(ps)| && Stream(ps)[skip.value..] == Stream(ps[Min(n, |ps|)..])
  {
    hide Stream, ClippedWalk, AllFramable;
    EmptyStream(ps);
    ClippedWalkFindsPacket(ps, 0, n);
    StreamSplit(ps, Min(n, |ps|));
  }

  lemma FramableSuffix(ps: seq<Packet>, i: nat)
    requires AllFramable(ps) && i <= |ps|
    ensures AllFramable(ps[i..])
  {
  }

  lemma DeleteStream(ps: seq<Packet>, idx: nat, n: nat)
    requires idx <= |ps|
    ensures Stream(Delete(ps, idx, n)) == Stream(ps[..idx]) + Stream(ps[idx..][Min(n, |ps[idx..]|)..])
  {
    hide Stream;
    StreamConcat(ps[..idx], ps[Min(idx + n, |ps|)..]);
    assert ps[idx..][Min(n, |ps[idx..]|)..] == ps[Min(idx + n, |ps|)..];
  }

  /** List deletion: only the first index of the chunk and its length count. */
  lemma RemoveIsDelete(ps: seq<Packet>, chunk: seq<nat>)
    requires AllFramable(ps)
    ensures Removed(Stream(ps), chunk) ==
            if FirstOrZero(chunk) <= |ps| then Ok(Stream(Delete(ps, FirstOrZero(chunk), |chunk|))) else Panic
  {
    hide Stream, Walk, ClippedWalk, Delete, Min, AllFramable;
    var start := FirstOrZero(chunk);
    EmptyStream(ps);
    WalkFindsPacket(ps, 0, start);
    if start <= |ps| {
      StreamSplit(ps, start);
      FramableSuffix(ps, start);
      ClippedWalkDrops(ps[start..], |chunk|);
      DeleteStream(ps, start, |chunk|);
    }
  }

  /** Without indices nothing is removed, from any bytes. */
  lemma RemovesNothing(buf: bytes)
    ensures Removed(buf, []) == Ok(buf)
  {
    assert buf[0..] == buf && buf[..0] + buf == buf;
  }

  /** On the bytes: removing what was added restores the buffer. */
  lemma RemoveUndoesAdd(ps: seq<Packet>, qs: seq<Packet>, chunk: seq<nat>)
    requires AllFramable(ps) && AllFramable(qs)
    requires |chunk| == |qs| && FirstOrZero(chunk) <= |ps|
    ensures var added := Added(Stream(ps), FirstOrZero(chunk), Stream(qs));
            added.Ok? && Removed(added.value, chunk) == Ok(Stream(ps))
  {
    hide Stream, Added, Removed;
    var idx := FirstOrZero(chunk);
    AddIsInsert(ps, idx, qs);
    RemoveIsDelete(Insert(ps, idx, qs), chunk);
    DeleteUndoesInsert(ps, idx, qs);
  }

  // ----- Removing by index ----------------------------------------------------------

  predicate Consecutive(chunk: seq<nat>) {
    forall j | 0 <= j < |chunk| :: chunk[j] == chunk[0] + j
  }

  /** The packets from position `from` on whose positions are not in the chunk. */
  function Keep(ps: seq<Packet>, from: nat, chunk: seq<nat>): seq<Packet>
    requires from <= |ps|
    decreases |ps| - from
  {
    if from == |ps| then []
    else (if from in chunk then [] else [ps[from]]) + Keep(ps, from + 1, chunk)
  }

  lemma {:induction false} KeepIsDelete(ps: seq<Packet>, from: nat, chunk: seq<nat>)
    requires from <= |ps| && chunk != [] && Consecutive(chunk) && chunk[0] <= |ps|
    ensures var end := Min(chunk[0] + |chunk|, |ps|);
            Keep(ps, from, chunk) ==
              if from <= chunk[0] then ps[from..chunk[0]] + ps[end..]
              else if from <= end then ps[end..] else ps[from..]
    decreases |ps| - from
  {
    if from < |ps| {
      KeepIsDelete(ps, from + 1, chunk);
      InConsecutive(chunk, from);
      hide Consecutive;
      if from < chunk[0] {
        assert ps[from..chunk[0]] == [ps[from]] + ps[from + 1..chunk[0]];
      } else if from >= chunk[0] + |chunk| {
        assert ps[from..] == [ps[from]] + ps[from + 1..];
      }
    }
  }

  lemma InConsecutive(chunk: seq<nat>, i: nat)
    requires chunk != [] && Consecutive(chunk)
    ensures i in chunk <==> chunk[0] <= i < chunk[0] + |chunk|
  {
    if chunk[0] <= i < chunk[0] + |chunk| {
      assert chunk[i - chunk[0]] == i;
    }
  }

  /** For consecutive indices, what is removed is exactly what was asked for. */
  lemma ConsecutiveRemoval(ps: seq<Packet>, chunk: seq<nat>)
    requires chunk != [] && Consecutive(chunk) && chunk[0] <= |ps|
    ensures Delete(ps, FirstOrZero(chunk), |chunk|) == Keep(ps, 0, chunk)
  {
    KeepIsDelete(ps, 0, chunk);
  }
}
