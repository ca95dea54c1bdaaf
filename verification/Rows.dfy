/**
 * Text-protocol rows (ProtocolText::ResultsetRow of the MySQL Client/Server Protocol): the
 * lookup of a field by column name in row.rs, and the replacement of a field inside a row
 * packet that the shard executor does with the result.
 */
module Rows {
  import opened Bytes
  import opened Buffers
  import opened Columns
  import opened Options

  function EncodeRow(fields: seq<Field>): bytes {
    if fields == [] then [] else EncodeField(fields[0]) + EncodeRow(fields[1..])
  }

  predicate Encodable(fields: seq<Field>) {
    forall j | 0 <= j < |fields| && fields[j].Some? :: |fields[j].value| < U64
  }

  datatype RowPart = RowPart(data: bytes, startIdx: nat, encodeLength: nat, dataLength: nat)

  datatype Lookup = ColumnNotFound | Found(part: Option<RowPart>)

  // ----- Lookup ---------------------------------------------------------------------

  /** The offset after k more fields, starting at idx. */
  function SkipFields(buf: bytes, idx: nat, k: nat): Outcome<nat>
    decreases k
  {
    if k == 0 then Ok(idx)
    else if idx > |buf| then Panic
    else
      var len :- SliceLencInt(buf[idx..]);
      SkipFields(buf, idx + len.n + len.width, k - 1)
  }

  /** The part lies inside the buffer. */
  predicate Inside(part: RowPart, buf: bytes) {
    part.startIdx + part.encodeLength + part.dataLength <= |buf|
  }

  function PartAt(buf: bytes, idx: nat): (r: Outcome<Option<RowPart>>)
    ensures r.Ok? && r.value.Some? ==> Inside(r.value.value, buf)
  {
    if idx > |buf| then Panic
    else
      var len :- SliceLencInt(buf[idx..]);
      if len.isNull || len.n == 0 then Ok(None)
      else if idx + len.width + len.n > |buf| then Panic
      else Ok(Some(RowPart(buf[idx + len.width..idx + len.width + len.n], idx, len.width, len.n)))
  }

  function FieldAt(buf: bytes, k: nat): (r: Outcome<Option<RowPart>>)
    ensures r.Ok? && r.value.Some? ==> Inside(r.value.value, buf)
  {
    var idx :- SkipFields(buf, 0, k);
    PartAt(buf, idx)
  }

  /** k is the first column of that name. */
  predicate IsFirst(columns: seq<ColumnInfo>, name: bytes, k: nat) {
    && k < |columns| && columns[k].columnName == name
    && forall j | 0 <= j < k :: columns[j].columnName != name
  }

  class RowDataText {
    var columns: seq<ColumnInfo>
    var buf: bytes

    constructor (columns: seq<ColumnInfo>, buf: bytes)
      ensures this.columns == columns && this.buf == buf
    {
      this.columns, this.buf := columns, buf;
    }

    method WithBuf(buf: bytes)
      modifies `buf
      ensures this.buf == buf
    {
      this.buf := buf;
    }

    method GetIdx(name: bytes) returns (r: Option<nat>)
      ensures r.Some? ==> IsFirst(columns, name, r.value)
      ensures r.None? ==> forall j | 0 <= j < |columns| :: columns[j].columnName != name
    {
      for i := 0 to |columns|
        invariant forall j | 0 <= j < i :: columns[j].columnName != name
      {
        if columns[i].columnName == name {
          return Some(i);
        }
      }
      return None;
    }

    method GetRowDataWithName(name: bytes) returns (r: Outcome<Lookup>)
      ensures r == Ok(ColumnNotFound) <==> forall j | 0 <= j < |columns| :: columns[j].columnName != name
      ensures r.Ok? && r.value.Found? && r.value.part.Some? ==> Inside(r.value.part.value, buf)
      ensures forall k: nat | IsFirst(columns, name, k) ::
                r == match FieldAt(buf, k) case Panic => Panic case Ok(part) => Ok(Found(part))
    {
      hide SliceLencInt;
      var nameIdx := GetIdx(name);
      if nameIdx.None? {
        return Ok(ColumnNotFound);
      }
      var idx: nat := 0;
      for i := 0 to nameIdx.value
        invariant SkipFields(buf, 0, nameIdx.value) == SkipFields(buf, idx, nameIdx.value - i)
      {
        if idx > |buf| {
          return Panic;
        }
        var len :- SliceLencInt(buf[idx..]);
        idx := idx + len.n + len.width;
      }
      if idx > |buf| {
        return Panic;
      }
      var len :- SliceLencInt(buf[idx..]);
      if len.isNull || len.n == 0 {
        return Ok(Found(None));
      }
      if idx + len.width + len.n > |buf| {
        return Panic;
      }
      return Ok(Found(Some(RowPart(buf[idx + len.width..idx + len.width + len.n], idx, len.width, len.n))));
    }
  }

  // ----- Agreement with the abstract row --------------------------------------------

  lemma FieldLength(f: Field, suffix: bytes)
    requires f.Some? ==> |f.value| < U64
    ensures SliceLencInt(EncodeField(f) + suffix) ==
              match f
              case None => Ok(Lenc(0, true, 1))
              case Some(s) => Ok(Lenc(|s|, false, |LencInt(|s|, true)|))
    ensures f.Some? ==> |EncodeField(f)| == |LencInt(|f.value|, true)| + |f.value|
  {
    match f {
      case None =>
      case Some(s) =>
        SliceReadsWritten(|s|, true, s + suffix);
        assert EncodeField(f) + suffix == LencInt(|s|, true) + (s + suffix);
    }
  }

  lemma {:induction false} RowConcat(a: seq<Field>, b: seq<Field>)
    ensures EncodeRow(a + b) == EncodeRow(a) + EncodeRow(b)
    decreases |a|
  {
    hide EncodeField;
    if a == [] {
      assert a + b == b;
    } else {
      RowConcat(a[1..], b);
      assert (a + b)[1..] == a[1..] + b;
    }
  }

  /** The encoding of field k sits between the encodings of the fields before and after it. */
  lemma RowAround(fields: seq<Field>, k: nat)
    requires k < |fields|
    ensures EncodeRow(fields) ==
            EncodeRow(fields[..k]) + (EncodeField(fields[k]) + EncodeRow(fields[k + 1..]))
    ensures EncodeRow(fields[..k + 1]) == EncodeRow(fields[..k]) + EncodeField(fields[k])
  {
    hide EncodeField, EncodeRow;
    RowConcat(fields[..k], fields[k..]);
    assert fields == fields[..k] + fields[k..];
    RowHead(fields[k..]);
    assert fields[k..][1..] == fields[k + 1..];
    RowConcat(fields[..k], [fields[k]]);
    assert fields[..k + 1] == fields[..k] + [fields[k]];
    RowHead([fields[k]]);
  }

  lemma RowHead(fields: seq<Field>)
    requires fields != []
    ensures EncodeRow(fields) == EncodeField(fields[0]) + EncodeRow(fields[1..])
    ensures |fields| == 1 ==> EncodeRow(fields) == EncodeField(fields[0])
  {
    hide EncodeField;
  }

  lemma {:induction false} SkipsToField(fields: seq<Field>, i: nat, k: nat)
    requires Encodable(fields) && i <= k < |fields|
    ensures SkipFields(EncodeRow(fields), |EncodeRow(fields[..i])|, k - i)
         == Ok(|EncodeRow(fields[..k])|)
    decreases k - i
  {
    hide EncodeField, EncodeRow, SliceLencInt;
    if i < k {
      var buf, pos := EncodeRow(fields), |EncodeRow(fields[..i])|;
      var suffix := EncodeRow(fields[i + 1..]);
      RowAround(fields, i);
      assert buf[pos..] == EncodeField(fields[i]) + suffix;
      FieldLength(fields[i], suffix);
      NullIsOneByte(fields[i]);
      SkipsToField(fields, i + 1, k);
    }
  }

  lemma NullIsOneByte(f: Field)
    ensures f.None? ==> |EncodeField(f)| == 1
  {
  }

  /**
   * The lookup returns the k-th field of the row (nothing for NULL or the empty string), and
   * its offsets delimit exactly that field's encoding.
   */
  lemma LookupFindsField(fields: seq<Field>, k: nat)
    requires Encodable(fields) && k < |fields|
    ensures var buf, start := EncodeRow(fields), |EncodeRow(fields[..k])|;
            match fields[k]
            case None => FieldAt(buf, k) == Ok(None)
            case Some(s) =>
              if s == [] then FieldAt(buf, k) == Ok(None)
              else
                var part := RowPart(s, start, |LencInt(|s|, true)|, |s|);
                && FieldAt(buf, k) == Ok(Some(part))
                && start + part.encodeLength + part.dataLength <= |buf|
                && buf[start..start + part.encodeLength + part.dataLength] == EncodeField(fields[k])
  {
    hide EncodeRow, SliceLencInt, SkipFields, LencInt, Encodable;
    EmptyRow(fields);
    SkipsToField(fields, 0, k);
    RowAround(fields, k);
    var before, suffix := EncodeRow(fields[..k]), EncodeRow(fields[k + 1..]);
    if fields[k].Some? {
      EncodableAt(fields, k);
    }
    PartInMiddle(before, fields[k], suffix);
  }

  lemma EncodableAt(fields: seq<Field>, k: nat)
    requires Encodable(fields) && k < |fields| && fields[k].Some?
    ensures |fields[k].value| < U64
  {
  }

  lemma PartInMiddle(before: bytes, f: Field, suffix: bytes)
    requires f.Some? ==> |f.value| < U64
    ensures var buf, start := before + (EncodeField(f) + suffix), |before|;
            if f.None? || f.value == [] then PartAt(buf, start) == Ok(None)
            else
              var w, n := |LencInt(|f.value|, true)|, |f.value|;
              && PartAt(buf, start) == Ok(Some(RowPart(f.value, start, w, n)))
              && start + w + n <= |buf|
              && buf[start..start + w + n] == EncodeField(f)
  {
    hide SliceLencInt, LencInt;
    var buf, start := before + (EncodeField(f) + suffix), |before|;
    FieldLength(f, suffix);
    assert buf[start..] == EncodeField(f) + suffix;
    if f.Some? && f.value != [] {
      var w, n := |LencInt(|f.value|, true)|, |f.value|;
      assert EncodeField(f)[w..] == f.value;
      assert buf[start + w..start + w + n] == f.value;
    }
  }

  lemma EmptyRow(fields: seq<Field>)
    ensures EncodeRow(fields[..0]) == []
  {
  }

  // ----- Rows cut short -------------------------------------------------------------

  /** The bytes of the length in front of a field. */
  function PrefixWidth(f: Field): nat {
    match f
    case None => 1
    case Some(s) => |LencInt(|s|, true)|
  }

  lemma WidthByFirstByte(b: bytes, u: nat)
    requires SliceLencInt(b).Ok? && u <= |b|
    ensures SliceLencInt(b).value.width >= 1
    ensures SliceLencInt(b[..u]) == if u < SliceLencInt(b).value.width then Panic else SliceLencInt(b)
  {
    if u > 0 {
      var c := b[..u];
      assert c[0] == b[0];
      assert u >= 3 ==> c[1..][..2] == b[1..][..2];
      assert u >= 4 ==> c[1..][..3] == b[1..][..3];
      assert u >= 9 ==> c[1..][..8] == b[1..][..8];
    }
  }

  /** A length can be read as soon as all its bytes are there. */
  lemma CutLength(f: Field, suffix: bytes, u: nat)
    requires (f.Some? ==> |f.value| < U64) && u <= |EncodeField(f) + suffix|
    ensures PrefixWidth(f) <= |EncodeField(f)|
    ensures SliceLencInt((EncodeField(f) + suffix)[..u]) ==
            if u < PrefixWidth(f) then Panic
            else Ok(Lenc(if f.None? then 0 else |f.value|, f.None?, PrefixWidth(f)))
  {
    hide SliceLencInt, LencInt;
    FieldLength(f, suffix);
    NullIsOneByte(f);
    WidthByFirstByte(EncodeField(f) + suffix, u);
  }

  /** The field at the cut: it must be there in full. */
  lemma CutPart(before: bytes, f: Field, suffix: bytes, t: nat)
    requires f.Some? ==> |f.value| < U64
    requires t <= |before + (EncodeField(f) + suffix)|
    ensures var buf, start := before + (EncodeField(f) + suffix), |before|;
            PartAt(buf[..t], start) == if t < start + |EncodeField(f)| then Panic else PartAt(buf, start)
  {
    hide SliceLencInt, LencInt, EncodeField;
    var buf, start := before + (EncodeField(f) + suffix), |before|;
    if start <= t {
      var tail := EncodeField(f) + suffix;
      assert buf[..t][start..] == tail[..t - start];
      assert buf[start..] == tail && tail[..|tail|] == tail;
      CutLength(f, suffix, t - start);
      CutLength(f, suffix, |tail|);
      FieldSize(f);
      var w, n := PrefixWidth(f), if f.None? then 0 else |f.value|;
      if t >= start + w + n {
        assert buf[..t][start + w..start + w + n] == buf[start + w..start + w + n];
      }
    }
  }

  lemma FieldSize(f: Field)
    ensures |EncodeField(f)| == PrefixWidth(f) + if f.None? then 0 else |f.value|
  {
  }

  /** One more step of the walk over a row that is cut after t bytes. */
  lemma CutSkip(before: bytes, f: Field, suffix: bytes, t: nat, n: nat)
    requires (f.Some? ==> |f.value| < U64) && n > 0
    requires t <= |before + (EncodeField(f) + suffix)|
    ensures var buf, start := (before + (EncodeField(f) + suffix))[..t], |before|;
            SkipFields(buf, start, n) == if t < start + PrefixWidth(f) then Panic
                                         else SkipFields(buf, start + |EncodeField(f)|, n - 1)
  {
    hide SliceLencInt, LencInt, EncodeField;
    var buf, start := before + (EncodeField(f) + suffix), |before|;
    if start <= t {
      var tail := EncodeField(f) + suffix;
      assert buf[..t][start..] == tail[..t - start];
      CutLength(f, suffix, t - start);
      FieldSize(f);
    }
  }

  lemma {:induction false} CutWalk(fields: seq<Field>, i: nat, k: nat, t: nat)
    requires Encodable(fields) && i <= k < |fields| && t <= |EncodeRow(fields)|
    ensures var row, start := EncodeRow(fields), |EncodeRow(fields[..i])|;
            FieldFrom(row[..t], start, k - i) ==
              if t < |EncodeRow(fields[..k + 1])| then Panic else PartAt(row, |EncodeRow(fields[..k])|)
    decreases k - i
  {
    hide EncodeField, EncodeRow, PartAt, Encodable, SliceLencInt, PrefixWidth;
    var before, suffix := EncodeRow(fields[..i]), EncodeRow(fields[i + 1..]);
    RowAround(fields, i);
    EncodableField(fields, i);
    if i == k {
      CutPart(before, fields[i], suffix, t);
    } else {
      CutSkip(before, fields[i], suffix, t, k - i);
      FieldSize(fields[i]);
      PrefixLength(fields, i + 1, k + 1);
      CutWalk(fields, i + 1, k, t);
    }
  }

  lemma EncodableField(fields: seq<Field>, k: nat)
    requires Encodable(fields) && k < |fields|
    ensures fields[k].Some? ==> |fields[k].value| < U64
  {
  }

  lemma PrefixLength(fields: seq<Field>, i: nat, j: nat)
    requires i <= j <= |fields|
    ensures |EncodeRow(fields[..i])| <= |EncodeRow(fields[..j])|
  {
    hide EncodeRow;
    RowConcat(fields[..i], fields[i..j]);
    assert fields[..j] == fields[..i] + fields[i..j];
  }

  function FieldFrom(buf: bytes, start: nat, n: nat): Outcome<Option<RowPart>> {
    var idx :- SkipFields(buf, start, n);
    PartAt(buf, idx)
  }

  /** On a row cut after t bytes the lookup of field k is as before if that field is there in full, and panics if not. */
  lemma LookupInCutRow(fields: seq<Field>, k: nat, t: nat)
    requires Encodable(fields) && k < |fields| && t <= |EncodeRow(fields)|
    ensures FieldAt(EncodeRow(fields)[..t], k) ==
            if t < |EncodeRow(fields[..k + 1])| then Panic else FieldAt(EncodeRow(fields), k)
  {
    hide EncodeRow, PartAt, SkipFields, Encodable;
    EmptyRow(fields);
    CutWalk(fields, 0, k, t);
    SkipsToField(fields, 0, k);
  }

  /** A row with fewer fields than columns panics past its end. */
  lemma LookupPastEnd(fields: seq<Field>, k: nat)
    requires Encodable(fields) && k >= |fields|
    ensures FieldAt(EncodeRow(fields), k) == Panic
  {
    hide EncodeRow, FieldAt;
    var more: seq<Field> := seq(k + 1 - |fields|, _ => None);
    var longer := fields + more;
    RowConcat(fields, more);
    RowHead(more);
    assert EncodeRow(longer)[..|EncodeRow(fields)|] == EncodeRow(fields);
    assert longer[..k + 1] == longer;
    LookupInCutRow(longer, k, |EncodeRow(fields)|);
  }

  // ----- Replacing a field in a packet ----------------------------------------------

  /** `row_data_cut_merge`: the part's bytes give way to new ones; the packet header is kept. */
  method CutMerge(packet: Buffer, part: RowPart, replacement: bytes)
    requires 4 + part.startIdx + part.encodeLength + part.dataLength <= |packet.data|
    modifies packet
    ensures packet.data == Spliced(old(packet.data), part, replacement)
  {
    var data := packet.data[4..];
    packet.data := packet.data[..4];
    var dataRemain := data[part.startIdx..];
    data := data[..part.startIdx];
    data := data + replacement;
    dataRemain := dataRemain[part.encodeLength + part.dataLength..];
    data := data + dataRemain;
    packet.PutSlice(data);
    SplicedSlices(old(packet.data), part, replacement);
  }

  lemma SplicedSlices(p: bytes, part: RowPart, replacement: bytes)
    requires 4 + part.startIdx + part.encodeLength + part.dataLength <= |p|
    ensures var data, l := p[4..], part.encodeLength + part.dataLength;
            p[..4] + (data[..part.startIdx] + replacement + data[part.startIdx..][l..])
            == Spliced(p, part, replacement)
  {
    var s, l := part.startIdx, part.encodeLength + part.dataLength;
    var front, back := p[4..][..s], p[4..][s..][l..];
    assert p[..4] + front == p[..4 + s];
    assert back == p[4 + s + l..];
    assert p[..4] + (front + replacement + back) == p[..4] + front + replacement + back;
  }

  function Spliced(packet: bytes, part: RowPart, replacement: bytes): bytes
    requires 4 + part.startIdx + part.encodeLength + part.dataLength <= |packet|
  {
    var start := 4 + part.startIdx;
    packet[..start] + replacement + packet[start + part.encodeLength + part.dataLength..]
  }

  /** Bytes laid out as a, b, c with b replaced. */
  lemma SpliceMiddle(header: bytes, a: bytes, b: bytes, c: bytes, part: RowPart, replacement: bytes)
    requires |header| == 4 && part.startIdx == |a| && part.encodeLength + part.dataLength == |b|
    ensures Spliced(header + (a + (b + c)), part, replacement) == header + (a + (replacement + c))
  {
    var packet := header + (a + (b + c));
    assert packet[..4 + |a|] == header + a;
    assert packet[4 + |a| + |b|..] == c;
  }

  /** One aggregate: look the field up, unwrap the result, splice the new value in. */
  function ReplaceField(packet: bytes, k: nat, v: bytes): Outcome<bytes> {
    if |packet| < 4 then Panic
    else
      var found :- FieldAt(packet[4..], k);
      if found.None? then Panic
      else Ok(Spliced(packet, found.value, LencStr(v)))
  }

  /** Splicing at what the lookup found is list update of the abstract row. */
  lemma CutMergeUpdatesField(header: bytes, fields: seq<Field>, k: nat, v: bytes)
    requires |header| == 4 && Encodable(fields) && k < |fields| && Filled(fields[k])
    ensures ReplaceField(header + EncodeRow(fields), k, v)
         == Ok(header + EncodeRow(fields[k := Written(v)]))
  {
    hide EncodeRow, EncodeField, FieldAt, LencStr, Spliced, LencInt;
    LookupFindsField(fields, k);
    assert (header + EncodeRow(fields))[4..] == EncodeRow(fields);
    var part := FieldAt(EncodeRow(fields), k).value.value;
    FieldLength(fields[k], []);
    RowAround(fields, k);
    RowAround(fields[k := Written(v)], k);
    WrittenField(v);
    var a, b, c := EncodeRow(fields[..k]), EncodeField(fields[k]), EncodeRow(fields[k + 1..]);
    assert fields[k := Written(v)][..k] == fields[..k];
    assert fields[k := Written(v)][k + 1..] == fields[k + 1..];
    SpliceMiddle(header, a, b, c, part, LencStr(v));
  }

  /**
   * An aggregate step updates its field in the row if and only if the field is neither NULL nor
   * empty; on such a field it panics.
   */
  lemma ReplaceFieldIff(header: bytes, fields: seq<Field>, k: nat, v: bytes)
    requires |header| == 4 && Encodable(fields) && k < |fields|
    ensures ReplaceField(header + EncodeRow(fields), k, v) ==
            if Filled(fields[k]) then Ok(header + EncodeRow(fields[k := Written(v)])) else Panic
  {
    hide EncodeRow, FieldAt;
    if Filled(fields[k]) {
      CutMergeUpdatesField(header, fields, k, v);
    } else {
      LookupFindsField(fields, k);
      assert (header + EncodeRow(fields))[4..] == EncodeRow(fields);
    }
  }

  // ----- The average ----------------------------------------------------------------

  /** A part that starts at the count and adds up the lengths of count and sum. */
  function Joined(count: RowPart, sum: RowPart): RowPart {
    RowPart([], count.startIdx, count.encodeLength + sum.encodeLength, count.dataLength + sum.dataLength)
  }

  /** The average step on one row: look both fields up, unwrap both, splice the average in. */
  function AverageStep(packet: bytes, countIdx: nat, sumIdx: nat, v: bytes): Outcome<bytes> {
    if |packet| < 4 then Panic
    else
      var count :- FieldAt(packet[4..], countIdx);
      if count.None? then Panic
      else
        var sum :- FieldAt(packet[4..], sumIdx);
        if sum.None? || !Inside(Joined(count.value, sum.value), packet[4..]) then Panic
        else Ok(Spliced(packet, Joined(count.value, sum.value), LencStr(v)))
  }

  /** Both fields are found, and the joined part covers their two encodings. */
  lemma JoinedPart(fields: seq<Field>, k: nat)
    requires Encodable(fields) && k + 1 < |fields|
    requires Filled(fields[k]) && Filled(fields[k + 1])
    ensures var row := EncodeRow(fields);
            && FieldAt(row, k).Ok? && FieldAt(row, k).value.Some?
            && FieldAt(row, k + 1).Ok? && FieldAt(row, k + 1).value.Some?
            && var part := Joined(FieldAt(row, k).value.value, FieldAt(row, k + 1).value.value);
               && part.startIdx == |EncodeRow(fields[..k])|
               && part.encodeLength + part.dataLength == |EncodeField(fields[k]) + EncodeField(fields[k + 1])|
  {
    hide EncodeRow, EncodeField, FieldAt, LencInt;
    LookupFindsField(fields, k);
    LookupFindsField(fields, k + 1);
    FieldLength(fields[k], []);
    FieldLength(fields[k + 1], []);
  }

  lemma CutMergeJoinsNeighbours(header: bytes, fields: seq<Field>, k: nat, v: bytes)
    requires |header| == 4 && Encodable(fields) && k + 1 < |fields|
    requires Filled(fields[k]) && Filled(fields[k + 1])
    ensures AverageStep(header + EncodeRow(fields), k, k + 1, v)
         == Ok(header + EncodeRow(fields[..k] + [Written(v)] + fields[k + 2..]))
  {
    hide EncodeRow, EncodeField, FieldAt, LencStr, Spliced, LencInt, Joined, Encodable;
    JoinedPart(fields, k);
    RowAroundPair(fields, k);
    JoinedRow(fields, k, v);
    var row := EncodeRow(fields);
    var a, c := EncodeRow(fields[..k]), EncodeRow(fields[k + 2..]);
    var b := EncodeField(fields[k]) + EncodeField(fields[k + 1]);
    var part := Joined(FieldAt(row, k).value.value, FieldAt(row, k + 1).value.value);
    SpliceMiddle(header, a, b, c, part, LencStr(v));
    assert (header + row)[4..] == row;
  }

  lemma JoinedRow(fields: seq<Field>, k: nat, v: bytes)
    requires k + 1 < |fields|
    ensures EncodeRow(fields[..k] + [Written(v)] + fields[k + 2..])
         == EncodeRow(fields[..k]) + (LencStr(v) + EncodeRow(fields[k + 2..]))
  {
    hide EncodeRow, EncodeField, LencStr, Written;
    var joined := fields[..k] + [Written(v)] + fields[k + 2..];
    RowAround(joined, k);
    WrittenField(v);
    assert joined[..k] == fields[..k];
    assert joined[k + 1..] == fields[k + 2..];
  }

  /** The encodings of two neighbours sit between those of the fields before and after them. */
  lemma RowAroundPair(fields: seq<Field>, k: nat)
    requires k + 1 < |fields|
    ensures EncodeRow(fields) ==
            EncodeRow(fields[..k])
            + ((EncodeField(fields[k]) + EncodeField(fields[k + 1])) + EncodeRow(fields[k + 2..]))
  {
    hide EncodeRow, EncodeField;
    RowAround(fields, k);
    RowHead(fields[k + 1..]);
    assert fields[k + 1..][1..] == fields[k + 2..];
    Regroup(EncodeField(fields[k]), EncodeField(fields[k + 1]), EncodeRow(fields[k + 2..]));
  }

  lemma Regroup(a: bytes, b: bytes, c: bytes)
    ensures a + (b + c) == (a + b) + c
  {
  }

  /**
   * The average step for a count and a sum at any two places of a row: from the start of the count as
   * many bytes as both have together give way to the average. It panics if one of them is NULL or
   * empty, or if there are not that many bytes.
   */
  lemma AverageSplices(header: bytes, fields: seq<Field>, count: nat, sum: nat, v: bytes)
    requires |header| == 4 && Encodable(fields) && count < |fields| && sum < |fields|
    ensures var row, start := EncodeRow(fields), |EncodeRow(fields[..count])|;
            var end := start + |EncodeField(fields[count])| + |EncodeField(fields[sum])|;
            AverageStep(header + row, count, sum, v) ==
              if Filled(fields[count]) && Filled(fields[sum]) && end <= |row|
              then Ok(header + (row[..start] + (LencStr(v) + row[end..])))
              else Panic
  {
    hide EncodeRow, EncodeField, FieldAt, LencStr, Spliced, LencInt;
    var row, start := EncodeRow(fields), |EncodeRow(fields[..count])|;
    var end := start + |EncodeField(fields[count])| + |EncodeField(fields[sum])|;
    assert (header + row)[4..] == row;
    LookupFindsField(fields, count);
    LookupFindsField(fields, sum);
    EncodableField(fields, count);
    EncodableField(fields, sum);
    FieldLength(fields[count], []);
    FieldLength(fields[sum], []);
    if Filled(fields[count]) && Filled(fields[sum]) && end <= |row| {
      var part := Joined(FieldAt(row, count).value.value, FieldAt(row, sum).value.value);
      SpliceMiddle(header, row[..start], row[start..end], row[end..], part, LencStr(v));
      assert row == row[..start] + (row[start..end] + row[end..]);
    }
  }

  /**
   * The average step turns a count and the sum after it into one field if and only if neither is
   * NULL or empty; otherwise it panics.
   */
  lemma AverageStepIff(header: bytes, fields: seq<Field>, k: nat, v: bytes)
    requires |header| == 4 && Encodable(fields) && k + 1 < |fields|
    ensures AverageStep(header + EncodeRow(fields), k, k + 1, v) ==
            if Filled(fields[k]) && Filled(fields[k + 1])
            then Ok(header + EncodeRow(fields[..k] + [Written(v)] + fields[k + 2..]))
            else Panic
  {
    hide EncodeRow, FieldAt;
    if Filled(fields[k]) && Filled(fields[k + 1]) {
      CutMergeJoinsNeighbours(header, fields, k, v);
    } else {
      LookupFindsField(fields, k);
      LookupFindsField(fields, k + 1);
      assert (header + EncodeRow(fields))[4..] == EncodeRow(fields);
    }
  }

  /** A shard without matching rows: count "0" and a NULL sum, which the reading pass takes for zero. */
  lemma EmptyShardPanics(header: bytes, v: bytes)
    requires |header| == 4
    ensures var row := EncodeRow([Some([0x30]), None]);
            && FieldAt(row, 1) == Ok(None)
            && AverageStep(header + row, 0, 1, v) == Panic
  {
    hide EncodeRow, FieldAt;
    LookupFindsField([Some([0x30]), None], 1);
    AverageStepIff(header, [Some([0x30]), None], 0, v);
  }

  // ----- The steps on packets -------------------------------------------------------

  /** Look a column up in the row of a packet and unwrap what is found. */
  method Located(packet: Buffer, row: RowDataText, name: bytes) returns (r: Outcome<RowPart>)
    modifies row`buf
    ensures r.Ok? ==> |packet.data| >= 4 && Inside(r.value, packet.data[4..])
    ensures (forall j | 0 <= j < |row.columns| :: row.columns[j].columnName != name) ==> r.Panic?
    ensures forall k: nat | IsFirst(row.columns, name, k) ::
              if |packet.data| < 4 || FieldAt(packet.data[4..], k).Panic? || FieldAt(packet.data[4..], k).value.None?
              then r.Panic? else r == Ok(FieldAt(packet.data[4..], k).value.value)
  {
    if |packet.data| < 4 {
      return Panic;
    }
    row.WithBuf(packet.data[4..]);
    var found :- row.GetRowDataWithName(name);
    if found.ColumnNotFound? || found.part.None? {
      return Panic;
    }
    return Ok(found.part.value);
  }

  method ReplaceValue(packet: Buffer, row: RowDataText, name: bytes, v: bytes) returns (r: Outcome<()>)
    modifies packet, row`buf
    ensures (forall j | 0 <= j < |row.columns| :: row.columns[j].columnName != name) ==> r.Panic?
    ensures forall k: nat | IsFirst(row.columns, name, k) ::
              Becomes(ReplaceField(old(packet.data), k, v), r, packet.data)
  {
    hide FieldAt, Spliced, LencStr;
    var part :- Located(packet, row, name);
    CutMerge(packet, part, LencStr(v));
    return Ok(());
  }

  method ReplaceAverage(packet: Buffer, row: RowDataText, countName: bytes, sumName: bytes, v: bytes)
    returns (r: Outcome<()>)
    modifies packet, row`buf
    ensures (forall j | 0 <= j < |row.columns| :: row.columns[j].columnName != countName) ==> r.Panic?
    ensures (forall j | 0 <= j < |row.columns| :: row.columns[j].columnName != sumName) ==> r.Panic?
    ensures forall c: nat, s: nat | IsFirst(row.columns, countName, c) && IsFirst(row.columns, sumName, s) ::
              Becomes(AverageStep(old(packet.data), c, s, v), r, packet.data)
  {
    hide FieldAt, Spliced, LencStr;
    var count :- Located(packet, row, countName);
    var sum :- Located(packet, row, sumName);
    if !Inside(Joined(count, sum), packet.data[4..]) {
      return Panic;
    }
    CutMerge(packet, Joined(count, sum), LencStr(v));
    return Ok(());
  }
}
