/**
 * Length-encoded integers and strings (Protocol::LengthEncodedInteger of the MySQL
 * Client/Server Protocol), as util.rs reads and writes them.
 *
 * The `Read` functions give the value and the bytes left over; the class `Buffer` is the
 * buffer whose methods advance or extend it in place.
 */
module Buffers {
  import opened Bytes
  import opened Options

  datatype Lenc = Lenc(n: nat, isNull: bool, width: nat)

  // ----- Reading --------------------------------------------------------------------

  function ReadU8(b: bytes): Outcome<(byte, bytes)> {
    if b == [] then Panic else Ok((b[0], b[1..]))
  }

  function ReadUint(b: bytes, w: nat): Outcome<(nat, bytes)> {
    if |b| < w then Panic else Ok((FromLE(b[..w]), b[w..]))
  }

  /** `get_lenc_int`: the reader that advances a cursor. */
  function ReadLencInt(b: bytes): (r: Outcome<(Lenc, bytes)>)
    ensures r.Ok? ==> |r.value.1| < |b|
  {
    var (first, rest) :- ReadU8(b);
    if first == 0xfb then Ok((Lenc(0, true, 1), rest))
    else if first == 0xfc then var (n, rest) :- ReadUint(rest, 2); Ok((Lenc(n, false, 3), rest))
    else if first == 0xfd then var (n, rest) :- ReadUint(rest, 3); Ok((Lenc(n, false, 4), rest))
    else if first == 0xfe then var (n, rest) :- ReadUint(rest, 8); Ok((Lenc(n, false, 9), rest))
    else Ok((Lenc(first, false, 1), rest))
  }

  /** What the first byte says: a number by itself, null, or how many bytes of a number follow. */
  lemma FirstByteDecides(b: bytes)
    ensures var d: seq<int> := b;
            ReadLencInt(b) ==
              if b == [] then Panic
              else if b[0] == 0xfb then Ok((Lenc(0, true, 1), b[1..]))
              else if b[0] == 0xfc then
                if |b| < 3 then Panic else Ok((Lenc(d[1] + 0x100 * d[2], false, 3), b[3..]))
              else if b[0] == 0xfd then
                if |b| < 4 then Panic else Ok((Lenc(d[1] + 0x100 * d[2] + 0x1_0000 * d[3], false, 4), b[4..]))
              else if b[0] == 0xfe then
                if |b| < 9 then Panic
                else Ok((Lenc(d[1] + 0x100 * d[2] + 0x1_0000 * d[3] + 0x100_0000 * d[4] + 0x1_0000_0000 * d[5]
                              + 0x100_0000_0000 * d[6] + 0x1_0000_0000_0000 * d[7] + 0x100_0000_0000_0000 * d[8],
                              false, 9), b[9..]))
              else Ok((Lenc(b[0], false, 1), b[1..]))
  {
    hide FromLE;
    if b != [] {
      var rest := b[1..];
      assert forall w | 0 <= w <= |rest| :: rest[w..] == b[1 + w..];
      if |rest| >= 2 {
        LittleEndian(rest[..2]);
      }
      if |rest| >= 3 {
        LittleEndian(rest[..3]);
      }
      if |rest| >= 8 {
        LittleEndian(rest[..8]);
      }
    }
  }

  /** `length_encode_int`: the reader that looks at a slice. */
  function SliceLencInt(data: bytes): Outcome<Lenc> {
    if data == [] then Panic
    else match data[0]
      case 0xfb => Ok(Lenc(0, true, 1))
      case 0xfc => if |data| < 3 then Panic else Ok(Lenc(FromLE(data[1..][..2]), false, 3))
      case 0xfd => if |data| < 4 then Panic else Ok(Lenc(FromLE(data[1..][..3]), false, 4))
      case 0xfe => if |data| < 9 then Panic else Ok(Lenc(FromLE(data[1..][..8]), false, 9))
      case x => Ok(Lenc(x, false, 1))
  }

  /** The two readers accept the same input, agree on the value, and the cursor moves by the width. */
  lemma ReadersAgree(b: bytes)
    ensures ReadLencInt(b).Ok? <==> SliceLencInt(b).Ok?
    ensures ReadLencInt(b).Ok? ==>
              && ReadLencInt(b).value.0 == SliceLencInt(b).value
              && SliceLencInt(b).value.width <= |b|
              && ReadLencInt(b).value.1 == b[SliceLencInt(b).value.width..]
  {
    if b != [] {
      assert forall w | 0 <= w < |b| :: b[1..][w..] == b[1 + w..];
    }
  }

  function Min(x: nat, y: nat): nat {
    if x < y then x else y
  }

  function Zeros(n: nat): bytes {
    seq(n, _ => 0)
  }

  /**
   * `get_lenc_str_bytes`: a length of zero counts as null, and a string cut short by the end
   * of the buffer is padded with zeros.
   */
  function ReadLencStr(b: bytes): (r: Outcome<((bytes, bool), bytes)>)
    ensures r.Ok? ==> |r.value.1| < |b|
  {
    var (len, rest) :- ReadLencInt(b);
    if len.n < 1 || len.isNull || rest == [] then Ok((([0], true), rest))
    else
      var got := Min(len.n, |rest|);
      Ok(((rest[..got] + Zeros(len.n - got), len.isNull), rest[got..]))
  }

  /** `skip_lenc_length`. */
  function SkipLenc(b: bytes): (r: Outcome<bytes>)
    ensures r.Ok? ==> |r.value| < |b|
  {
    var (len, rest) :- ReadLencInt(b);
    if len.n > |rest| then Panic else Ok(rest[len.n..])
  }

  /** `length_encoded_string`: a length of zero reads as the single byte 0xfb. */
  function ReadEncodedString(b: bytes): (r: Outcome<((bytes, bool), bytes)>)
    ensures r.Ok? ==> |r.value.1| < |b|
  {
    var (len, rest) :- ReadLencInt(b);
    if len.n < 1 then Ok((([0xfb], len.isNull), rest))
    else if rest == [] then Ok((([], false), rest))
    else if len.n > |rest| then Panic
    else Ok(((rest[..len.n], false), rest[len.n..]))
  }

  // ----- Writing --------------------------------------------------------------------

  const U64 := 0x1_0000_0000_0000_0000

  /** `put_lenc_int`: zero is null unless it stands for a number. */
  function LencInt(n: nat, isNum: bool): bytes {
    if n == 0 then [if isNum then 0 else 0xfb]
    else if n <= 250 then [n]
    else if n <= 0xffff then [0xfc] + ToLE(n, 2)
    else if n <= 0xffffff then [0xfd] + ToLE(n, 3)
    else [0xfe] + ToLE(n, 8)
  }

  /** The shortest form that fits: one, three, four or nine bytes, by the size of the number. */
  lemma WrittenForm(n: nat, isNum: bool)
    requires n < U64
    ensures var enc := LencInt(n, isNum);
            && (n == 0 ==> enc == [if isNum then 0 else 0xfb])
            && (1 <= n <= 250 ==> enc == [n])
            && (251 <= n < 0x1_0000 ==> |enc| == 3 && enc[0] == 0xfc)
            && (0x1_0000 <= n < 0x100_0000 ==> |enc| == 4 && enc[0] == 0xfd)
            && (0x100_0000 <= n ==> |enc| == 9 && enc[0] == 0xfe)
            && (n > 250 ==> FromLE(enc[1..]) == n)
  {
    Powers();
    var enc := LencInt(n, isNum);
    assert n > 250 ==> enc[1..] == ToLE(n, |enc| - 1);
    FromToLE(n, |enc| - 1);
  }

  /** Reading what was written gives it back, whatever follows. */
  lemma LencIntRoundTrip(n: nat, isNum: bool, suffix: bytes)
    requires n < U64
    ensures ReadLencInt(LencInt(n, isNum) + suffix)
         == Ok((Lenc(n, n == 0 && !isNum, |LencInt(n, isNum)|), suffix))
  {
    Powers();
    var enc := LencInt(n, isNum);
    var w := |enc| - 1;
    var b := enc + suffix;
    assert b[1..] == enc[1..] + suffix;
    assert b[1..][..w] == enc[1..];
    assert b[1..][w..] == suffix;
    FromToLE(n, w);
  }

  lemma SliceReadsWritten(n: nat, isNum: bool, suffix: bytes)
    requires n < U64
    ensures SliceLencInt(LencInt(n, isNum) + suffix)
         == Ok(Lenc(n, n == 0 && !isNum, |LencInt(n, isNum)|))
  {
    LencIntRoundTrip(n, isNum, suffix);
    ReadersAgree(LencInt(n, isNum) + suffix);
  }

  /** A length-prefixed string: readers get back a non-empty one exactly. */
  function LencStr(s: bytes): bytes {
    LencInt(|s|, false) + s
  }

  lemma LencStrRoundTrip(s: bytes, suffix: bytes)
    requires 0 < |s| < U64
    ensures ReadLencStr(LencStr(s) + suffix) == Ok(((s, false), suffix))
    ensures ReadEncodedString(LencStr(s) + suffix) == Ok(((s, false), suffix))
    ensures SkipLenc(LencStr(s) + suffix) == Ok(suffix)
  {
    assert LencStr(s) + suffix == LencInt(|s|, false) + (s + suffix);
    LencIntRoundTrip(|s|, false, s + suffix);
    var rest := s + suffix;
    assert rest[..|s|] == s && rest[|s|..] == suffix;
    assert s + Zeros(0) == s;
  }

  lemma EmptyReadsAsNull(isNum: bool, suffix: bytes)
    ensures ReadLencStr(LencInt(0, isNum) + suffix) == Ok((([0], true), suffix))
    ensures ReadEncodedString(LencInt(0, isNum) + suffix) == Ok((([0xfb], !isNum), suffix))
    ensures SkipLenc(LencInt(0, isNum) + suffix) == Ok(suffix)
  {
    LencIntRoundTrip(0, isNum, suffix);
  }

  /** What the string readers make of a length that goes beyond the end. */
  lemma CutShort(n: nat, data: bytes)
    requires |data| < n < U64
    ensures var b := LencInt(n, true) + data;
            && SkipLenc(b) == Panic
            && (data == [] ==> ReadLencStr(b) == Ok((([0], true), [])) && ReadEncodedString(b) == Ok((([], false), [])))
            && (data != [] ==> ReadEncodedString(b) == Panic && ReadLencStr(b).Ok?)
            && (data != [] ==>
                  var ((s, isNull), rest) := ReadLencStr(b).value;
                  && |s| == n && s[..|data|] == data && (forall i | |data| <= i < n :: s[i] == 0)
                  && !isNull && rest == [])
  {
    LencIntRoundTrip(n, true, data);
    hide ReadLencInt, LencInt;
    assert data[..|data|] == data;
  }

  // ----- Strings or NULL ------------------------------------------------------------

  /** A string, or NULL. */
  type Field = Option<bytes>

  /** How a server writes a field: the empty string is not NULL. */
  function EncodeField(f: Field): bytes {
    match f
    case None => [0xfb]
    case Some(s) => LencInt(|s|, true) + s
  }

  /** The field can be told from nothing: it is neither NULL nor empty. */
  predicate Filled(f: Field) {
    f.Some? && f.value != []
  }

  /** A string written with `put_lenc_int(len, false)`: the empty one becomes NULL. */
  function Written(v: bytes): Field {
    if v == [] then None else Some(v)
  }

  lemma WrittenField(v: bytes)
    ensures LencStr(v) == EncodeField(Written(v)) && LencInt(0, true) == EncodeField(Some([]))
  {
    assert LencInt(0, false) + [] == LencInt(0, false) && LencInt(0, true) + [] == LencInt(0, true);
  }

  lemma FieldReaders(f: Field, suffix: bytes)
    requires f.Some? ==> |f.value| < U64
    ensures ReadLencStr(EncodeField(f) + suffix) == Ok((if Filled(f) then (f.value, false) else ([0], true), suffix))
    ensures SkipLenc(EncodeField(f) + suffix) == Ok(suffix)
  {
    hide ReadLencStr, SkipLenc;
    if Filled(f) {
      assert EncodeField(f) == LencStr(f.value);
      LencStrRoundTrip(f.value, suffix);
    } else {
      EmptyReadsAsNull(f.Some?, suffix);
      assert EncodeField(f) == LencInt(0, f.Some?);
    }
  }

  // ----- The buffer -----------------------------------------------------------------

  /** A read moved the buffer from `before` as the specification says, or panicked with it. */
  ghost predicate Reads<T>(spec: Outcome<(T, bytes)>, r: Outcome<T>, data: bytes) {
    match spec
    case Panic => r.Panic?
    case Ok((value, rest)) => r == Ok(value) && data == rest
  }

  class Buffer {
    var data: bytes

    constructor (data: bytes)
      ensures this.data == data
    {
      this.data := data;
    }

    method GetU8() returns (r: Outcome<byte>)
      modifies this
      ensures Reads(ReadU8(old(data)), r, data)
    {
      if data == [] {
        return Panic;
      }
      r := Ok(data[0]);
      data := data[1..];
    }

    /** `get_uint_le` and the fixed-width readers: the bytes are summed from the low end. */
    method GetUintLe(w: nat) returns (r: Outcome<nat>)
      modifies this
      ensures Reads(ReadUint(old(data), w), r, data)
    {
      if |data| < w {
        return Panic;
      }
      var n: nat, i: nat := 0, w;
      while i > 0
        invariant 0 <= i <= w <= |data| && data == old(data)
        invariant n == FromLE(data[i..w])
      {
        i := i - 1;
        assert data[i..w][1..] == data[i + 1..w];
        n := data[i] + 256 * n;
      }
      assert data[0..w] == data[..w];
      data := data[w..];
      return Ok(n);
    }

    method Advance(n: nat) returns (r: Outcome<()>)
      modifies this
      ensures if n > |old(data)| then r.Panic? else r == Ok(()) && data == old(data)[n..]
    {
      if n > |data| {
        return Panic;
      }
      data := data[n..];
      return Ok(());
    }

    method GetLencInt() returns (r: Outcome<Lenc>)
      modifies this
      ensures Reads(ReadLencInt(old(data)), r, data)
    {
      var first :- GetU8();
      match first {
        case 0xfb => return Ok(Lenc(0, true, 1));
        case 0xfc => var n :- GetUintLe(2); return Ok(Lenc(n, false, 3));
        case 0xfd => var n :- GetUintLe(3); return Ok(Lenc(n, false, 4));
        case 0xfe => var n :- GetUintLe(8); return Ok(Lenc(n, false, 9));
        case _ => return Ok(Lenc(first, false, 1));
      }
    }

    method GetLencStrBytes() returns (r: Outcome<(bytes, bool)>)
      modifies this
      ensures Reads(ReadLencStr(old(data)), r, data)
    {
      var len :- GetLencInt();
      if len.n < 1 || len.isNull || data == [] {
        return Ok(([0], true));
      }
      var got := Min(len.n, |data|);
      r := Ok((data[..got] + Zeros(len.n - got), len.isNull));
      data := data[got..];
    }

    method SkipLencLength() returns (r: Outcome<()>)
      modifies this
      ensures match SkipLenc(old(data)) case Panic => r.Panic? case Ok(rest) => r == Ok(()) && data == rest
    {
      var len :- GetLencInt();
      r := Advance(len.n);
    }

    method LengthEncodedString() returns (r: Outcome<(bytes, bool)>)
      modifies this
      ensures Reads(ReadEncodedString(old(data)), r, data)
    {
      var len :- GetLencInt();
      if len.n < 1 {
        return Ok(([0xfb], len.isNull));
      }
      if data == [] {
        return Ok(([], false));
      }
      if len.n > |data| {
        return Panic;
      }
      r := Ok((data[..len.n], false));
      data := data[len.n..];
    }

    method PutSlice(s: bytes)
      modifies this
      ensures data == old(data) + s
    {
      data := data + s;
    }

    /** `put_uint_le`: the low w bytes, one at a time. */
    method PutUintLe(n: nat, w: nat)
      modifies this
      ensures data == old(data) + ToLE(n, w)
    {
      var m, i := n, 0;
      while i < w
        invariant 0 <= i <= w
        invariant data + ToLE(m, w - i) == old(data) + ToLE(n, w)
      {
        assert ToLE(m, w - i) == [m % 256] + ToLE(m / 256, w - i - 1);
        data, m, i := data + [m % 256], m / 256, i + 1;
      }
      assert data + [] == data;
    }

    method PutLencInt(n: nat, isNum: bool)
      requires n < U64
      modifies this
      ensures data == old(data) + LencInt(n, isNum)
    {
      hide ToLE;
      if n == 0 {
        PutSlice([if isNum then 0 else 0xfb]);
      } else if n <= 250 {
        PutSlice([n]);
      } else if n <= 0xffff {
        PutSlice([0xfc]);
        PutUintLe(n, 2);
        assert data == old(data) + ([0xfc] + ToLE(n, 2));
      } else if n <= 0xffffff {
        PutSlice([0xfd]);
        PutUintLe(n, 3);
        assert data == old(data) + ([0xfd] + ToLE(n, 3));
      } else {
        PutSlice([0xfe]);
        PutUintLe(n, 8);
        assert data == old(data) + ([0xfe] + ToLE(n, 8));
      }
    }
  }
}
