/**
 * The vectorised upper-casing of identifiers in lex.rs, `to_upper`: sixteen bytes at a time
 * with signed comparisons, and a zero-padded scratch vector for the tail.
 */
module UpperCase {
  import opened Options

  type vec = v: seq<bv8> | |v| == 16 witness seq(16, _ => 0)

  const FLIP_CASE: bv8 := 0x41 ^ 0x61
  const BELOW_A: bv8 := 0x61 - 1
  const ABOVE_Z: bv8 := 0x7a + 1

  // ----- Lanes ----------------------------------------------------------------------

  /** The value of a byte read as a signed one. */
  function Signed(x: bv8): int {
    if x < 0x80 then x as int else x as int - 256
  }

  /** Signed comparison of lanes: all ones where it holds. */
  function GreaterMask(a: bv8, b: bv8): bv8 {
    if Signed(a) > Signed(b) then 0xff else 0x00
  }

  function CaseLane(x: bv8): bv8 {
    x ^ (FLIP_CASE & (GreaterMask(x, BELOW_A) & GreaterMask(ABOVE_Z, x)))
  }

  /** The specification: ASCII upper case of one byte. */
  function Upper(x: bv8): bv8 {
    if 0x61 <= x <= 0x7a then x - 0x20 else x
  }

  function UpperAll(s: seq<bv8>): (r: seq<bv8>)
    ensures |r| == |s|
  {
    seq(|s|, i requires 0 <= i < |s| => Upper(s[i]))
  }

  lemma FlippingIsSubtracting(x: bv8)
    requires 0x61 <= x <= 0x7a
    ensures x ^ 0x20 == x - 0x20
  {
  }

  lemma InRange(x: bv8)
    ensures Signed(x) > Signed(BELOW_A) && Signed(ABOVE_Z) > Signed(x) <==> 0x61 <= x <= 0x7a
  {
  }

  /** Bytes of 0x80 and up compare as negative, so they are left alone. */
  lemma LaneIsUpper(x: bv8)
    ensures CaseLane(x) == Upper(x) == if 0x61 <= x <= 0x7a then x - 0x20 else x
  {
    InRange(x);
    if 0x61 <= x <= 0x7a {
      FlippingIsSubtracting(x);
    }
  }

  function CaseVec(v: vec): (r: vec)
    ensures forall i | 0 <= i < 16 :: r[i] == Upper(v[i])
  {
    assert forall i | 0 <= i < 16 :: CaseLane(v[i]) == Upper(v[i]) by {
      forall i | 0 <= i < 16 ensures CaseLane(v[i]) == Upper(v[i]) {
        LaneIsUpper(v[i]);
      }
    }
    seq(16, i requires 0 <= i < 16 => CaseLane(v[i]))
  }

  // ----- The loop -------------------------------------------------------------------

  /** The length rounded up to whole vectors: the bytes of dst that may be written. */
  function RoundedUp(n: nat): nat {
    if n % 16 == 0 then n else n - n % 16 + 16
  }

  /** Every store lies inside a destination of 512 bytes if and only if the source does. */
  lemma StoresFitIff(n: nat)
    ensures RoundedUp(n) <= 512 <==> n <= 512
  {
  }

  /** An identifier of 513 bytes: the padded tail is stored from byte 512 on. */
  lemma LongIdentifierOverruns()
    ensures RoundedUp(513) == 528
  {
  }

  method Store(dst: array<bv8>, idx: nat, v: vec)
    requires idx + 16 <= dst.Length
    modifies dst
    ensures forall i | 0 <= i < dst.Length ::
              dst[i] == if idx <= i < idx + 16 then v[i - idx] else old(dst[i])
  {
    forall i | idx <= i < idx + 16 {
      dst[i] := v[i - idx];
    }
  }

  /**
   * False stands for a store past the end of the destination, which the source does not guard
   * against; nothing is promised about the buffers then.
   */
  method ToUpper(src: seq<bv8>, dst: array<bv8>, tmp: array<bv8>) returns (inBounds: bool)
    requires dst.Length == 512 && tmp.Length == 16 && dst != tmp
    modifies dst, tmp
    ensures inBounds <==> |src| <= 512
    ensures inBounds ==>
              && dst[..|src|] == UpperAll(src)
              && (forall i | |src| <= i < RoundedUp(|src|) :: dst[i] == Upper(old(tmp[i - (|src| - |src| % 16)])))
              && (forall i | RoundedUp(|src|) <= i < 512 :: dst[i] == old(dst[i]))
              && forall i | 0 <= i < 16 :: tmp[i] == if i < |src| % 16 then 0 else old(tmp[i])
  {
    var length := |src|;
    var end := length - length % 16;
    var idx := 0;
    while end > idx
      invariant 0 <= idx <= end && idx % 16 == 0 && end % 16 == 0 && idx <= 512
      invariant forall i | 0 <= i < idx :: dst[i] == Upper(src[i])
      invariant forall i | idx <= i < 512 :: dst[i] == old(dst[i])
      invariant forall i | 0 <= i < 16 :: tmp[i] == old(tmp[i])
    {
      if idx + 16 > dst.Length {
        return false;
      }
      var chars: vec := src[idx..idx + 16];
      Store(dst, idx, CaseVec(chars));
      idx := idx + 16;
    }
    if length > idx {
      if idx + 16 > dst.Length {
        return false;
      }
      var remain := length - idx;
      Load(src, idx, tmp);
      var chars: vec := tmp[..];
      Store(dst, idx, CaseVec(chars));
      for i := 0 to remain
        invariant forall j | 0 <= j < 512 && j < idx :: dst[j] == Upper(src[j])
        invariant forall j | idx <= j < idx + 16 :: dst[j] == Upper(chars[j - idx])
        invariant forall j | idx + 16 <= j < 512 :: dst[j] == old(dst[j])
        invariant forall j | 0 <= j < 16 :: tmp[j] == if j < i then 0 else chars[j]
      {
        tmp[i] := 0;
      }
    }
    return true;
  }

  /** Copy the tail of the source to the front of the scratch vector. */
  method Load(src: seq<bv8>, idx: nat, tmp: array<bv8>)
    requires tmp.Length == 16 && idx <= |src| < idx + 16
    modifies tmp
    ensures forall i | 0 <= i < 16 :: tmp[i] == if i < |src| - idx then src[idx + i] else old(tmp[i])
  {
    for i := 0 to |src| - idx
      invariant forall j | 0 <= j < 16 :: tmp[j] == if j < i then src[idx + j] else old(tmp[j])
    {
      tmp[i] := src[i + idx];
    }
  }

  // ----- The shared buffers of the scanner ------------------------------------------

  class Scanner {
    const identBuf: array<bv8>
    const tmpBuf: array<bv8>

    ghost predicate Valid()
      reads this, tmpBuf
    {
      && identBuf.Length == 512 && tmpBuf.Length == 16 && identBuf != tmpBuf
      && forall i | 0 <= i < 16 :: tmpBuf[i] == 0
    }

    constructor ()
      ensures Valid() && fresh(identBuf) && fresh(tmpBuf)
    {
      identBuf := new bv8[512](_ => 0);
      tmpBuf := new bv8[16](_ => 0);
    }

    /** The end of `scan_ident`: the result depends on the text alone, whatever was scanned before. */
    method UpperIdent(text: seq<bv8>) returns (ident: Option<seq<bv8>>)
      requires Valid()
      modifies identBuf, tmpBuf
      ensures ident.Some? <==> |text| <= 512
      ensures ident.Some? ==>
                && Valid() && ident.value == UpperAll(text) && |ident.value| == |text|
                && (forall i | 0 <= i < |text| ::
                      ident.value[i] == if 0x61 <= text[i] <= 0x7a then text[i] - 0x20 else text[i])
                && (forall i | |text| <= i < RoundedUp(|text|) :: identBuf[i] == 0)
                && forall i | RoundedUp(|text|) <= i < 512 :: identBuf[i] == old(identBuf[i])
    {
      var inBounds := ToUpper(text, identBuf, tmpBuf);
      if !inBounds {
        return None;
      }
      return Some(identBuf[0..|text|]);
    }
  }
}
