/**
 * The random strings of pkg/utils/strings.go: `newLenChars` turns random bytes into characters,
 * skipping the bytes that would favour some of them. The random source is an input: what each
 * read of the reader gives, or its error.
 */
module RandomString {
  import opened Bytes

  datatype ReadResult = Filled(data: bytes) | Failed

  /** NeedMore stands for a loop that goes on to another read. */
  datatype Generated = Text(s: bytes) | Panicked | NeedMore

  /** Not above `maxrb`, the last byte of the last whole run of clen bytes. */
  predicate Accepted(c: byte, clen: nat)
    requires clen > 0
  {
    c <= 255 - 256 % clen
  }

  // ----- Bias -----------------------------------------------------------------------

  /** The accepted bytes below n that are turned into character r. */
  ghost function Residues(clen: nat, r: nat, n: nat): nat
    requires clen > 0 && n <= 256
  {
    if n == 0 then 0 else
      Residues(clen, r, n - 1) + if Accepted(n - 1, clen) && (n - 1) % clen == r then 1 else 0
  }

  /** Each run of clen bytes holds every residue once. */
  lemma {:induction false} ResiduesInBlock(clen: nat, r: nat, q: nat, j: nat)
    requires clen > 0 && r < clen && j <= clen && clen * q + j <= 256 - 256 % clen
    ensures Residues(clen, r, clen * q + j) == Residues(clen, r, clen * q) + if r < j then 1 else 0
    decreases j
  {
    if j > 0 {
      ResiduesInBlock(clen, r, q, j - 1);
      Small(j - 1, q, clen, clen * q + j - 1);
    }
  }

  lemma {:induction false} ResiduesInBlocks(clen: nat, r: nat, q: nat)
    requires clen > 0 && r < clen && clen * q <= 256 - 256 % clen
    ensures Residues(clen, r, clen * q) == q
    decreases q
  {
    if q > 0 {
      assert clen * q == clen * (q - 1) + clen;
      ResiduesInBlocks(clen, r, q - 1);
      ResiduesInBlock(clen, r, q - 1, clen);
    }
  }

  lemma {:induction false} NoneRejected(clen: nat, r: nat, n: nat)
    requires clen > 0 && 256 - 256 % clen <= n <= 256
    ensures Residues(clen, r, n) == Residues(clen, r, 256 - 256 % clen)
    decreases n
  {
    if n > 256 - 256 % clen {
      NoneRejected(clen, r, n - 1);
    }
  }

  /** Every character comes from the same number of bytes. */
  lemma NoBias(clen: nat, r: nat)
    requires 2 <= clen <= 256 && r < clen
    ensures Residues(clen, r, 256) == 256 / clen
  {
    var q := 256 / clen;
    assert 256 == clen * q + 256 % clen;
    ResiduesInBlocks(clen, r, q);
    NoneRejected(clen, r, 256);
  }

  // ----- The stream -----------------------------------------------------------------

  function CharOf(c: byte, chars: bytes): bytes
    requires |chars| > 0
  {
    if Accepted(c, |chars|) then [chars[c % |chars|]] else []
  }

  /** The accepted bytes of a stream, as characters. */
  function Characters(stream: bytes, chars: bytes): bytes
    requires |chars| > 0
  {
    if stream == [] then [] else
      var c := stream[|stream| - 1];
      Characters(stream[..|stream| - 1], chars) + CharOf(c, chars)
  }

  lemma {:induction false} CharactersPrefix(a: bytes, b: bytes, chars: bytes)
    requires |chars| > 0
    ensures Characters(a, chars) <= Characters(a + b, chars)
    decreases |b|
  {
    if b == [] {
      assert a + b == a;
    } else {
      CharactersPrefix(a, b[..|b| - 1], chars);
      assert (a + b)[..|a + b| - 1] == a + b[..|b| - 1];
    }
  }

  /** The bytes of a stream that are not skipped. */
  function Unskipped(stream: bytes, clen: nat): (kept: bytes)
    requires clen > 0
    ensures forall j | 0 <= j < |kept| :: kept[j] <= 255 - 256 % clen
  {
    if stream == [] then [] else
      var c := stream[|stream| - 1];
      Unskipped(stream[..|stream| - 1], clen) + if c > 255 - 256 % clen then [] else [c]
  }

  /** Character j is the one at the residue of the j-th byte that is not skipped. */
  lemma {:induction false} CharacterAt(stream: bytes, chars: bytes)
    requires |chars| > 0
    ensures var kept := Unskipped(stream, |chars|);
            && |Characters(stream, chars)| == |kept|
            && forall j | 0 <= j < |kept| :: Characters(stream, chars)[j] == chars[kept[j] % |chars|]
    decreases |stream|
  {
    if stream != [] {
      CharacterAt(stream[..|stream| - 1], chars);
    }
  }

  predicate Distinct(chars: bytes) {
    forall j, k | 0 <= j < k < |chars| :: chars[j] != chars[k]
  }

  /** How many of the bytes below n, drawn alone, give the text of the one character ch. */
  ghost function Givers(chars: bytes, ch: byte, n: nat): nat
    requires |chars| > 0 && n <= 256
  {
    if n == 0 then 0 else Givers(chars, ch, n - 1) + if Characters([n - 1], chars) == [ch] then 1 else 0
  }

  lemma OneByte(x: byte, chars: bytes, r: nat)
    requires Distinct(chars) && r < |chars|
    ensures Characters([x], chars) == [chars[r]] <==> Accepted(x, |chars|) && x % |chars| == r
  {
    CharacterAt([x], chars);
    hide Characters;
    assert [x][..0] == [];
    assert Unskipped([x], |chars|) == if x > 255 - 256 % |chars| then [] else [x];
    if x <= 255 - 256 % |chars| {
      var k := x % |chars|;
      assert k != r ==> chars[k] != chars[r];
      assert Characters([x], chars)[0] == chars[k];
      assert Characters([x], chars) == [chars[k]];
    }
  }

  lemma {:induction false} GiversAreResidues(chars: bytes, r: nat, n: nat)
    requires Distinct(chars) && r < |chars| && n <= 256
    ensures Givers(chars, chars[r], n) == Residues(|chars|, r, n)
    decreases n
  {
    hide Characters, Accepted, Distinct;
    if n > 0 {
      GiversAreResidues(chars, r, n - 1);
      OneByte(n - 1, chars, r);
    }
  }

  /** Of the 256 bytes the generator makes every character from exactly 256 / |chars|. */
  lemma EveryCharacterIsEqual(chars: bytes, r: nat)
    requires Distinct(chars) && 2 <= |chars| <= 256 && r < |chars|
    ensures Givers(chars, chars[r], 256) == 256 / |chars|
  {
    GiversAreResidues(chars, r, 256);
    NoBias(|chars|, r);
  }

  /** All the bytes read before the first error. */
  function Stream(inputs: seq<ReadResult>): bytes {
    if inputs == [] || inputs[0].Failed? then [] else inputs[0].data + Stream(inputs[1..])
  }

  predicate Fails(inputs: seq<ReadResult>) {
    inputs != [] && (inputs[0].Failed? || Fails(inputs[1..]))
  }

  /** The first `length` characters of the stream, however it was cut into reads. */
  function Expected(length: int, chars: bytes, inputs: seq<ReadResult>): Generated {
    if length == 0 || |chars| < 2 || |chars| > 256 then Text([])
    else if length < 0 then Panicked
    else
      var all := Characters(Stream(inputs), chars);
      if |all| >= length then Text(all[..length])
      else if Fails(inputs) then Text([])
      else NeedMore
  }

  /** A read that succeeds comes before the rest, and one that fails ends the stream. */
  lemma StreamOfReads(data: bytes, rest: seq<ReadResult>)
    ensures Stream([Filled(data)] + rest) == data + Stream(rest) && Stream([Failed] + rest) == [] == Stream([])
    ensures Fails([Failed] + rest) && !Fails([]) && (Fails([Filled(data)] + rest) <==> Fails(rest))
  {
    assert ([Filled(data)] + rest)[1..] == rest;
  }

  /**
   * The text, byte by byte: character j is chars[x % |chars|] for the j-th byte x of the stream that
   * is not above 255 - 256 % |chars|.
   */
  ghost predicate IsText(length: int, chars: bytes, inputs: seq<ReadResult>, g: Generated) {
    if length == 0 || |chars| < 2 || |chars| > 256 then g == Text([])
    else if length < 0 then g == Panicked
    else
      var kept := Unskipped(Stream(inputs), |chars|);
      if |kept| < length then g == if Fails(inputs) then Text([]) else NeedMore
      else g.Text? && |g.s| == length && forall j | 0 <= j < length :: g.s[j] == chars[kept[j] % |chars|]
  }

  lemma ExpectedIsText(length: int, chars: bytes, inputs: seq<ReadResult>)
    ensures IsText(length, chars, inputs, Expected(length, chars, inputs))
  {
    hide Characters, Unskipped, Stream;
    if |chars| > 0 {
      CharacterAt(Stream(inputs), chars);
    }
  }

  /** Reads that succeed join up. */
  lemma {:induction false} StreamSplit(inputs: seq<ReadResult>, k: nat)
    requires k <= |inputs| && forall j | 0 <= j < k :: inputs[j].Filled?
    ensures Stream(inputs) == Stream(inputs[..k]) + Stream(inputs[k..])
    ensures Fails(inputs) == Fails(inputs[k..])
    decreases k
  {
    if k == 0 {
      assert inputs[0..] == inputs;
    } else {
      StreamSplit(inputs[1..], k - 1);
      assert inputs[1..][..k - 1] == inputs[..k][1..];
      assert inputs[1..][k - 1..] == inputs[k..];
    }
  }

  lemma StreamOne(inputs: seq<ReadResult>, k: nat)
    requires k < |inputs| && forall j | 0 <= j <= k :: inputs[j].Filled?
    ensures Stream(inputs[..k + 1]) == Stream(inputs[..k]) + inputs[k].data
  {
    StreamSplit(inputs[..k + 1], k);
    assert inputs[..k + 1][..k] == inputs[..k];
    assert inputs[..k + 1][k..] == [inputs[k]];
    assert Stream([inputs[k]]) == inputs[k].data + Stream([]);
  }

  // ----- The loops ------------------------------------------------------------------

  method NewLenChars(length: int, chars: bytes, inputs: seq<ReadResult>) returns (g: Generated)
    ensures g == Expected(length, chars, inputs)
    ensures IsText(length, chars, inputs, g)
  {
    hide Characters, IsText;
    ExpectedIsText(length, chars, inputs);
    if length == 0 {
      return Text([]);
    }
    var clen := |chars|;
    if clen < 2 || clen > 256 {
      return Text([]);
    }
    if length < 0 {
      return Panicked;
    }
    var b := new byte[length](_ => 0);
    var i: nat := 0;
    var k := 0;
    NoCharacters(chars);
    while k < |inputs|
      invariant 0 <= k <= |inputs| && forall j | 0 <= j < k :: inputs[j].Filled?
      invariant 0 <= i < length && b[..i] == Characters(Stream(inputs[..k]), chars)
    {
      StreamSplit(inputs, k);
      if inputs[k].Failed? {
        assert Stream(inputs[..k]) + [] == Stream(inputs[..k]);
        return Text([]);
      }
      StreamOne(inputs, k);
      StreamSplit(inputs, k + 1);
      ghost var used: nat;
      i, used := Consume(inputs[k].data, chars, b, i, Stream(inputs[..k]));
      if i == length {
        ReturnedText(Stream(inputs[..k]), inputs[k].data, used, Stream(inputs[k + 1..]), chars);
        assert b[..i] == b[..];
        return Text(b[..]);
      }
      assert inputs[k].data[..used] == inputs[k].data;
      k := k + 1;
    }
    StreamSplit(inputs, k);
    assert inputs[..k] == inputs;
    return NeedMore;
  }

  /** The inner loop: use up one read, or stop when the text is complete. */
  method Consume(r: bytes, chars: bytes, b: array<byte>, start: nat, ghost before: bytes)
    returns (i: nat, ghost used: nat)
    requires 2 <= |chars| <= 256 && start < b.Length && b[..start] == Characters(before, chars)
    modifies b
    ensures i <= b.Length && used <= |r| && (i < b.Length ==> used == |r|)
    ensures b[..i] == Characters(before + r[..used], chars)
  {
    hide Characters;
    var maxrb := 255 - 256 % |chars|;
    i := start;
    assert before + r[..0] == before;
    for j := 0 to |r|
      invariant i < b.Length && b[..i] == Characters(before + r[..j], chars)
    {
      var c := r[j];
      OneMore(before, r, j, chars);
      if c > maxrb {
        continue;
      }
      var ch := chars[c % |chars|];
      assert CharOf(c, chars) == [ch];
      ghost var text := b[..i];
      b[i] := ch;
      i := i + 1;
      assert b[..i] == text + [ch];
      if i == b.Length {
        return i, j + 1;
      }
    }
    used := |r|;
  }

  lemma NoCharacters(chars: bytes)
    requires |chars| > 0
    ensures Characters([], chars) == []
  {
  }

  lemma OneMore(before: bytes, r: bytes, j: nat, chars: bytes)
    requires |chars| > 0 && j < |r|
    ensures Characters(before + r[..j + 1], chars) ==
            Characters(before + r[..j], chars) + CharOf(r[j], chars)
  {
    hide CharOf;
    var shorter, longer := before + r[..j], before + r[..j + 1];
    assert longer == shorter + [r[j]];
    assert longer[..|longer| - 1] == shorter;
  }

  lemma ReturnedText(before: bytes, r: bytes, j: nat, later: bytes, chars: bytes)
    requires |chars| > 0 && j <= |r|
    ensures Characters(before + r[..j], chars) <= Characters(before + r + later, chars)
  {
    hide Characters;
    CharactersPrefix(before + r[..j], r[j..] + later, chars);
    assert r == r[..j] + r[j..];
    assert before + r[..j] + (r[j..] + later) == before + r + later;
  }
}
