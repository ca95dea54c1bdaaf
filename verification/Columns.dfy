/**
 * Column definitions (Protocol::ColumnDefinition41 of the MySQL Client/Server Protocol) as
 * column.rs encodes and decodes them. Strings are their UTF-8 bytes; `utf8` decides which
 * byte strings are valid, and a decoder panics on the others. Turning a byte that names no column
 * type into one is undefined in the source; it counts as a panic here.
 */
module Columns {
  import opened Bytes
  import opened Buffers
  import opened Options

  datatype ColumnInfo = ColumnInfo(
    schema: Option<bytes>,
    tableName: Option<bytes>,
    columnName: bytes,
    charset: byte,
    columnLength: nat,
    columnType: byte,
    columnFlag: nat,
    decimals: byte
  )

  /** The bytes that name a column type: 0 to 16, and from 0xf6 on. */
  predicate IsColumnType(b: byte) {
    b <= 16 || b >= 0xf6
  }

  /** The widths of the fixed fields, and lengths that fit in 64 bits. */
  predicate Representable(c: ColumnInfo) {
    && c.columnLength < 0x1_0000_0000
    && c.columnFlag < 0x1_0000
    && IsColumnType(c.columnType)
    && |c.columnName| < U64
    && (c.schema.Some? ==> |c.schema.value| < U64)
    && (c.tableName.Some? ==> |c.tableName.value| < U64)
  }

  predicate ValidStrings(c: ColumnInfo, utf8: bytes -> bool) {
    && utf8(c.columnName)
    && (c.schema.Some? ==> utf8(c.schema.value))
    && (c.tableName.Some? ==> utf8(c.tableName.value))
  }

  // ----- Encoding -------------------------------------------------------------------

  const DEF: bytes := [0x64, 0x65, 0x66]

  function OptionalStr(s: Option<bytes>): bytes {
    if s.Some? then LencStr(s.value) else LencInt(0, true)
  }

  /** The fields of fixed width that end a definition. */
  function FixedFields(c: ColumnInfo): bytes {
    [0x0c, c.charset, 0] + (ToLE(c.columnLength, 4)
      + ([c.columnType] + (ToLE(c.columnFlag, 2) + ([c.decimals] + ToLE(0, 2)))))
  }

  function EncodeColumn(c: ColumnInfo): bytes {
    LencStr(DEF) + (OptionalStr(c.schema) + (OptionalStr(c.tableName)
      + (LencInt(0, true) + (LencStr(c.columnName) + (LencInt(0, true) + FixedFields(c))))))
  }

  // ----- Decoding -------------------------------------------------------------------

  /** A string read as null is absent. */
  function ReadOptional(b: bytes, utf8: bytes -> bool): (r: Outcome<(Option<bytes>, bytes)>)
    ensures r.Ok? ==> |r.value.1| < |b|
  {
    var ((s, isNull), rest) :- ReadLencStr(b);
    if isNull then Ok((None, rest))
    else if utf8(s) then Ok((Some(s), rest))
    else Panic
  }

  function ReadFixed(
    b: bytes, schema: Option<bytes>, tableName: Option<bytes>, columnName: bytes
  ): (r: Outcome<(ColumnInfo, bytes)>)
    ensures r.Ok? ==> |r.value.1| < |b|
  {
    var (_, b) :- ReadU8(b);
    var (charset, b) :- ReadU8(b);
    var (_, b) :- ReadU8(b);
    var (columnLength, b) :- ReadUint(b, 4);
    var (columnType, b) :- ReadU8(b);
    if !IsColumnType(columnType) then Panic
    else
      var (columnFlag, b) :- ReadUint(b, 2);
      var (decimals, b) :- ReadU8(b);
      var (_, b) :- ReadUint(b, 2);
      Ok((ColumnInfo(schema, tableName, columnName, charset, columnLength, columnType, columnFlag,
                     decimals), b))
  }

  datatype Names = Names(schema: Option<bytes>, tableName: Option<bytes>, columnName: bytes)

  /** The strings of a definition; the catalog and the physical names are skipped. */
  function ReadNames(b: bytes, utf8: bytes -> bool): (r: Outcome<(Names, bytes)>)
    ensures r.Ok? ==> |r.value.1| < |b|
  {
    var b :- SkipLenc(b);
    var (schema, b) :- ReadOptional(b, utf8);
    var (tableName, b) :- ReadOptional(b, utf8);
    var b :- SkipLenc(b);
    var ((columnName, _), b) :- ReadLencStr(b);
    if !utf8(columnName) then Panic
    else
      var b :- SkipLenc(b);
      Ok((Names(schema, tableName, columnName), b))
  }

  function DecodeColumn(b: bytes, utf8: bytes -> bool): (r: Outcome<(ColumnInfo, bytes)>)
    ensures r.Ok? ==> |r.value.1| < |b|
  {
    var (names, b) :- ReadNames(b, utf8);
    ReadFixed(b, names.schema, names.tableName, names.columnName)
  }

  function DecodeColumns(b: bytes, utf8: bytes -> bool): Outcome<seq<ColumnInfo>>
    decreases |b|
  {
    if b == [] then Ok([])
    else if |b| < 4 then Panic
    else
      var (c, rest) :- DecodeColumn(b[4..], utf8);
      var cs :- DecodeColumns(rest, utf8);
      Ok([c] + cs)
  }

  // ----- Any definition -------------------------------------------------------------

  /** The fields of fixed width: the second byte of the character set and the filler are not used. */
  datatype Fixed = Fixed(
    nextLength: byte,
    charset: byte,
    charsetHigh: byte,
    columnLength: nat,
    columnType: byte,
    columnFlag: nat,
    decimals: byte,
    filler: nat
  )

  /** A definition as servers send it, with the catalog and the physical names. */
  datatype Definition = Definition(
    catalog: Field,
    schema: Field,
    table: Field,
    orgTable: Field,
    name: Field,
    orgName: Field,
    fixed: Fixed
  )

  predicate Fits(f: Field) {
    f.Some? ==> |f.value| < U64
  }

  predicate FixedFits(x: Fixed) {
    x.columnLength < 0x1_0000_0000 && x.columnFlag < 0x1_0000 && x.filler < 0x1_0000
  }

  predicate Sendable(d: Definition) {
    && Fits(d.catalog) && Fits(d.schema) && Fits(d.table) && Fits(d.orgTable) && Fits(d.name) && Fits(d.orgName)
    && FixedFits(d.fixed)
  }

  function FixedLayout(x: Fixed): bytes {
    [x.nextLength] + ([x.charset] + ([x.charsetHigh] + (ToLE(x.columnLength, 4)
      + ([x.columnType] + (ToLE(x.columnFlag, 2) + ([x.decimals] + ToLE(x.filler, 2)))))))
  }

  function NamesLayout(d: Definition): bytes {
    EncodeField(d.catalog) + (EncodeField(d.schema) + (EncodeField(d.table)
      + (EncodeField(d.orgTable) + (EncodeField(d.name) + EncodeField(d.orgName)))))
  }

  function Layout(d: Definition): bytes {
    NamesLayout(d) + FixedLayout(d.fixed)
  }

  /** NULL and the empty string count as absent. */
  function Given(f: Field): Option<bytes> {
    if Filled(f) then f else None
  }

  /** A column without a name is called by a NUL. */
  function NameOf(f: Field): bytes {
    if Filled(f) then f.value else [0]
  }

  function InfoOf(d: Definition): ColumnInfo {
    var x := d.fixed;
    ColumnInfo(Given(d.schema), Given(d.table), NameOf(d.name), x.charset, x.columnLength, x.columnType,
               x.columnFlag, x.decimals)
  }

  predicate NamesAreText(d: Definition, utf8: bytes -> bool) {
    && (Filled(d.schema) ==> utf8(d.schema.value))
    && (Filled(d.table) ==> utf8(d.table.value))
    && utf8(NameOf(d.name))
  }

  /** What a decoder accepts: the three names in UTF-8, and a byte that names a column type. */
  predicate Decodable(d: Definition, utf8: bytes -> bool) {
    NamesAreText(d, utf8) && (d.fixed.columnType <= 16 || d.fixed.columnType >= 0xf6)
  }

  lemma OptionalReads(f: Field, suffix: bytes, utf8: bytes -> bool)
    requires Fits(f)
    ensures ReadOptional(EncodeField(f) + suffix, utf8)
         == if Filled(f) && !utf8(f.value) then Panic else Ok((Given(f), suffix))
  {
    hide ReadLencStr, EncodeField;
    FieldReaders(f, suffix);
  }

  lemma NamesRead(d: Definition, suffix: bytes, utf8: bytes -> bool)
    requires Sendable(d)
    ensures ReadNames(NamesLayout(d) + suffix, utf8) ==
            if NamesAreText(d, utf8) then Ok((Names(Given(d.schema), Given(d.table), NameOf(d.name)), suffix))
            else Panic
  {
    hide EncodeField, SkipLenc, ReadLencStr, ReadOptional, FixedFits;
    var b5 := EncodeField(d.orgName) + suffix;
    var b4 := EncodeField(d.name) + b5;
    var b3 := EncodeField(d.orgTable) + b4;
    var b2 := EncodeField(d.table) + b3;
    var b1 := EncodeField(d.schema) + b2;
    NamesNest(d, suffix);
    FieldReaders(d.catalog, b1);
    OptionalReads(d.schema, b2, utf8);
    OptionalReads(d.table, b3, utf8);
    FieldReaders(d.orgTable, b4);
    FieldReaders(d.name, b5);
    FieldReaders(d.orgName, suffix);
  }

  lemma NamesNest(d: Definition, suffix: bytes)
    ensures NamesLayout(d) + suffix ==
            EncodeField(d.catalog) + (EncodeField(d.schema) + (EncodeField(d.table)
            + (EncodeField(d.orgTable) + (EncodeField(d.name) + (EncodeField(d.orgName) + suffix)))))
  {
    hide EncodeField;
  }

  lemma UintRoundTrip(n: nat, w: nat, suffix: bytes)
    requires n < Pow256(w)
    ensures ReadUint(ToLE(n, w) + suffix, w) == Ok((n, suffix))
  {
    var b := ToLE(n, w) + suffix;
    assert b[..w] == ToLE(n, w) && b[w..] == suffix;
    FromToLE(n, w);
  }

  lemma U8RoundTrip(x: byte, suffix: bytes)
    ensures ReadU8([x] + suffix) == Ok((x, suffix))
  {
  }

  lemma FixedReads(x: Fixed, schema: Option<bytes>, table: Option<bytes>, name: bytes, suffix: bytes)
    requires FixedFits(x)
    ensures ReadFixed(FixedLayout(x) + suffix, schema, table, name) ==
            if !IsColumnType(x.columnType) then Panic
            else Ok((ColumnInfo(schema, table, name, x.charset, x.columnLength, x.columnType, x.columnFlag,
                                x.decimals), suffix))
  {
    hide ToLE, ReadUint, ReadU8, Pow256, IsColumnType;
    Powers();
    var b7 := ToLE(x.filler, 2) + suffix;
    var b6 := [x.decimals] + b7;
    var b5 := ToLE(x.columnFlag, 2) + b6;
    var b4 := [x.columnType] + b5;
    var b3 := ToLE(x.columnLength, 4) + b4;
    var b2 := [x.charsetHigh] + b3;
    var b1 := [x.charset] + b2;
    assert FixedLayout(x) + suffix == [x.nextLength] + b1;
    U8RoundTrip(x.nextLength, b1);
    U8RoundTrip(x.charset, b2);
    U8RoundTrip(x.charsetHigh, b3);
    UintRoundTrip(x.columnLength, 4, b4);
    U8RoundTrip(x.columnType, b5);
    UintRoundTrip(x.columnFlag, 2, b6);
    U8RoundTrip(x.decimals, b7);
    UintRoundTrip(x.filler, 2, suffix);
  }

  /**
   * Decoding a definition, whatever its six strings and its fixed fields are and whatever follows:
   * the catalog and the physical names are skipped as a whole, NULL and empty names count as absent,
   * and what follows is left. It panics exactly on names that are not UTF-8 and on unknown types.
   */
  lemma DecodesAnyDefinition(d: Definition, suffix: bytes, utf8: bytes -> bool)
    requires Sendable(d)
    ensures DecodeColumn(Layout(d) + suffix, utf8) == if Decodable(d, utf8) then Ok((InfoOf(d), suffix)) else Panic
  {
    hide EncodeField, ReadNames, ReadFixed, FixedLayout;
    var rest := FixedLayout(d.fixed) + suffix;
    NamesRead(d, rest, utf8);
    assert Layout(d) + suffix == NamesLayout(d) + rest;
    FixedReads(d.fixed, Given(d.schema), Given(d.table), NameOf(d.name), suffix);
  }

  // ----- Round trip -----------------------------------------------------------------

  /**
   * The definition that `encode` writes: catalog "def", no physical names, absent names as empty
   * strings and empty ones as NULL.
   */
  function WrittenDefinition(c: ColumnInfo): Definition {
    Definition(Some([0x64, 0x65, 0x66]), WrittenOptional(c.schema), WrittenOptional(c.tableName), Some([]),
               Written(c.columnName), Some([]),
               Fixed(0x0c, c.charset, 0, c.columnLength, c.columnType, c.columnFlag, c.decimals, 0))
  }

  function WrittenOptional(s: Option<bytes>): Field {
    if s.None? then Some([]) else Written(s.value)
  }

  /** The bytes of `encode`, field by field. */
  lemma EncodesDefinition(c: ColumnInfo)
    ensures EncodeColumn(c) == Layout(WrittenDefinition(c))
  {
    hide LencStr, LencInt, EncodeField, FixedFields, FixedLayout, OptionalStr;
    WritesFixed(c);
    WritesOptional(c.schema);
    WritesOptional(c.tableName);
    WrittenField(DEF);
    WrittenField(c.columnName);
    Nested(OptionalStr(c.schema), OptionalStr(c.tableName), LencStr(DEF), LencInt(0, true), LencStr(c.columnName),
           FixedFields(c));
  }

  lemma WritesOptional(s: Option<bytes>)
    ensures OptionalStr(s) == EncodeField(WrittenOptional(s))
  {
    hide LencStr, LencInt, EncodeField;
    WrittenField(if s.Some? then s.value else []);
  }

  lemma WritesFixed(c: ColumnInfo)
    ensures FixedFields(c) == FixedLayout(WrittenDefinition(c).fixed)
  {
    hide ToLE;
  }

  lemma Nested(schema: bytes, table: bytes, catalog: bytes, none: bytes, name: bytes, fixed: bytes)
    ensures catalog + (schema + (table + (none + (name + (none + fixed)))))
         == catalog + (schema + (table + (none + (name + none)))) + fixed
  {
  }

  function Present(s: Option<bytes>): Option<bytes> {
    if s == Some([]) then None else s
  }

  /** What survives: an empty optional name reads as absent, an empty column name as a NUL. */
  function Normal(c: ColumnInfo): ColumnInfo {
    c.(schema := Present(c.schema), tableName := Present(c.tableName),
       columnName := if c.columnName == [] then [0] else c.columnName)
  }

  /** Decoding an encoded definition consumes exactly the encoding, whatever follows. */
  lemma ColumnRoundTrip(c: ColumnInfo, suffix: bytes, utf8: bytes -> bool)
    requires Representable(c) && ValidStrings(c, utf8) && utf8([0])
    ensures DecodeColumn(EncodeColumn(c) + suffix, utf8) == Ok((Normal(c), suffix))
  {
    hide EncodeColumn, Layout, DecodeColumn;
    EncodesDefinition(c);
    DecodesAnyDefinition(WrittenDefinition(c), suffix, utf8);
  }

  /** The definition comes back unchanged if and only if none of its strings is present but empty. */
  lemma ColumnRoundTripIff(c: ColumnInfo, suffix: bytes, utf8: bytes -> bool)
    requires Representable(c) && ValidStrings(c, utf8) && utf8([0])
    ensures DecodeColumn(EncodeColumn(c) + suffix, utf8) == Ok((c, suffix)) <==>
            c.columnName != [] && c.schema != Some([]) && c.tableName != Some([])
  {
    ColumnRoundTrip(c, suffix, utf8);
  }

  /** A present but empty schema comes back as absent. */
  lemma EmptySchemaIsLost(utf8: bytes -> bool)
    requires utf8([0]) && utf8([]) && utf8([0x63])
    ensures var c := ColumnInfo(Some([]), None, [0x63], 0, 0, 0, 0, 0);
            DecodeColumn(EncodeColumn(c), utf8) == Ok((c.(schema := None), []))
  {
    var c := ColumnInfo(Some([]), None, [0x63], 0, 0, 0, 0, 0);
    ColumnRoundTrip(c, [], utf8);
    assert EncodeColumn(c) + [] == EncodeColumn(c);
  }

  // ----- Lists of definitions -------------------------------------------------------

  /** A definition behind a packet header of any content. */
  datatype Headed = Headed(header: bytes, definition: Definition)

  predicate WellHeaded(h: Headed) {
    |h.header| == 4 && Sendable(h.definition)
  }

  function Packed(hs: seq<Headed>): bytes {
    if hs == [] then [] else hs[0].header + (Layout(hs[0].definition) + Packed(hs[1..]))
  }

  /** The same for any list of definitions behind headers of any content; a stub of a header panics. */
  lemma {:induction false} DecodesAnyDefinitions(hs: seq<Headed>, stub: bytes, utf8: bytes -> bool)
    requires |stub| < 4 && forall j | 0 <= j < |hs| :: WellHeaded(hs[j])
    ensures var r := DecodeColumns(Packed(hs) + stub, utf8);
            && (r.Ok? <==> stub == [] && forall j | 0 <= j < |hs| :: Decodable(hs[j].definition, utf8))
            && (r.Ok? ==> |r.value| == |hs| && forall j | 0 <= j < |hs| :: r.value[j] == InfoOf(hs[j].definition))
    decreases |hs|
  {
    hide DecodeColumn, Layout, InfoOf, Decodable;
    if hs != [] {
      var rest := Packed(hs[1..]) + stub;
      assert WellHeaded(hs[0]);
      DecodesAnyDefinition(hs[0].definition, rest, utf8);
      assert (Packed(hs) + stub)[4..] == Layout(hs[0].definition) + rest;
      DecodesAnyDefinitions(hs[1..], stub, utf8);
      assert forall j | 1 <= j < |hs| :: Decodable(hs[j].definition, utf8) == Decodable(hs[1..][j - 1].definition, utf8);
    }
  }

  /** Definitions that were encoded come back normalised. */
  lemma ColumnsRoundTrip(headers: seq<bytes>, cs: seq<ColumnInfo>, utf8: bytes -> bool)
    requires |headers| == |cs| && utf8([0])
    requires forall j | 0 <= j < |cs| :: |headers[j]| == 4 && Representable(cs[j]) && ValidStrings(cs[j], utf8)
    ensures var r := DecodeColumns(PackedColumns(headers, cs), utf8);
            r.Ok? && |r.value| == |cs| && forall j | 0 <= j < |cs| :: r.value[j] == Normal(cs[j])
  {
    hide Packed, Layout, DecodeColumns, PackedColumns;
    var hs := seq(|cs|, j requires 0 <= j < |cs| => Headed(headers[j], WrittenDefinition(cs[j])));
    PacksDefinitions(headers, cs, hs);
    DecodesAnyDefinitions(hs, [], utf8);
    assert Packed(hs) + [] == Packed(hs);
    forall j | 0 <= j < |cs|
      ensures InfoOf(hs[j].definition) == Normal(cs[j]) && Decodable(hs[j].definition, utf8)
    {
      assert Representable(cs[j]) && ValidStrings(cs[j], utf8);
    }
  }

  function PackedColumns(headers: seq<bytes>, cs: seq<ColumnInfo>): bytes
    requires |headers| == |cs|
  {
    if cs == [] then [] else headers[0] + (EncodeColumn(cs[0]) + PackedColumns(headers[1..], cs[1..]))
  }

  lemma {:induction false} PacksDefinitions(headers: seq<bytes>, cs: seq<ColumnInfo>, hs: seq<Headed>)
    requires |headers| == |cs| == |hs|
    requires forall j | 0 <= j < |cs| :: hs[j] == Headed(headers[j], WrittenDefinition(cs[j]))
    ensures PackedColumns(headers, cs) == Packed(hs)
    decreases |cs|
  {
    hide EncodeColumn, Layout, WrittenDefinition;
    if cs != [] {
      EncodesDefinition(cs[0]);
      PacksDefinitions(headers[1..], cs[1..], hs[1..]);
    }
  }

  // ----- The methods ----------------------------------------------------------------

  method PutOptional(s: Option<bytes>, buf: Buffer)
    requires s.Some? ==> |s.value| < U64
    modifies buf
    ensures buf.data == old(buf.data) + OptionalStr(s)
  {
    if s.Some? {
      PutStr(s.value, buf);
    } else {
      buf.PutLencInt(0, true);
    }
  }

  method EncodeTo(c: ColumnInfo, buf: Buffer)
    requires Representable(c)
    modifies buf
    ensures buf.data == old(buf.data) + EncodeColumn(c)
  {
    hide LencStr, OptionalStr, LencInt, FixedFields, EncodeColumn;
    ghost var before := buf.data;
    PutStr(DEF, buf);
    PutOptional(c.schema, buf);
    PutOptional(c.tableName, buf);
    buf.PutLencInt(0, true);
    PutStr(c.columnName, buf);
    buf.PutLencInt(0, true);
    PutFixed(c, buf);
    EncodingNests(c, before);
  }

  lemma EncodingNests(c: ColumnInfo, before: bytes)
    ensures before + LencStr(DEF) + OptionalStr(c.schema) + OptionalStr(c.tableName)
            + LencInt(0, true) + LencStr(c.columnName) + LencInt(0, true) + FixedFields(c)
         == before + EncodeColumn(c)
  {
    hide LencStr, OptionalStr, LencInt, FixedFields;
  }

  method PutStr(s: bytes, buf: Buffer)
    requires |s| < U64
    modifies buf
    ensures buf.data == old(buf.data) + LencStr(s)
  {
    buf.PutLencInt(|s|, false);
    buf.PutSlice(s);
  }

  method PutFixed(c: ColumnInfo, buf: Buffer)
    modifies buf
    ensures buf.data == old(buf.data) + FixedFields(c)
  {
    hide ToLE;
    buf.PutSlice([0x0c]);
    buf.PutSlice([c.charset]);
    buf.PutSlice([0]);
    buf.PutUintLe(c.columnLength, 4);
    buf.PutSlice([c.columnType]);
    buf.PutUintLe(c.columnFlag, 2);
    buf.PutSlice([c.decimals]);
    buf.PutUintLe(0, 2);
  }

  method DecodeFrom(buf: Buffer, utf8: bytes -> bool) returns (r: Outcome<ColumnInfo>)
    modifies buf
    ensures Reads(DecodeColumn(old(buf.data), utf8), r, buf.data)
  {
    hide SkipLenc, ReadLencStr, ReadUint, ReadU8;
    var _ :- buf.SkipLencLength();
    var schema: Option<bytes> := None;
    var str :- buf.GetLencStrBytes();
    if !str.1 {
      if !utf8(str.0) {
        return Panic;
      }
      schema := Some(str.0);
    }
    var tableName: Option<bytes> := None;
    str :- buf.GetLencStrBytes();
    if !str.1 {
      if !utf8(str.0) {
        return Panic;
      }
      tableName := Some(str.0);
    }
    var _ :- buf.SkipLencLength();
    str :- buf.GetLencStrBytes();
    if !utf8(str.0) {
      return Panic;
    }
    var _ :- buf.SkipLencLength();
    var _ :- buf.GetU8();
    var charset :- buf.GetU8();
    var _ :- buf.GetU8();
    var columnLength :- buf.GetUintLe(4);
    var columnType :- buf.GetU8();
    if !IsColumnType(columnType) {
      return Panic;
    }
    var columnFlag :- buf.GetUintLe(2);
    var decimals :- buf.GetU8();
    var _ :- buf.GetUintLe(2);
    return Ok(ColumnInfo(schema, tableName, str.0, charset, columnLength, columnType, columnFlag,
                         decimals));
  }

  method DecodeAllFrom(buf: Buffer, utf8: bytes -> bool) returns (r: Outcome<seq<ColumnInfo>>)
    modifies buf
    ensures r == DecodeColumns(old(buf.data), utf8)
  {
    hide DecodeColumn;
    var columns := [];
    while buf.data != []
      invariant DecodeColumns(old(buf.data), utf8) == Behind(columns, DecodeColumns(buf.data, utf8))
      decreases |buf.data|
    {
      var _ :- buf.Advance(4);
      var c :- DecodeFrom(buf, utf8);
      BehindOne(columns, c, DecodeColumns(buf.data, utf8));
      columns := columns + [c];
    }
    assert columns + [] == columns;
    return Ok(columns);
  }

  /** Columns already decoded, put before the outcome of decoding the rest. */
  ghost function Behind(columns: seq<ColumnInfo>, rest: Outcome<seq<ColumnInfo>>): (r: Outcome<seq<ColumnInfo>>)
    ensures columns == [] ==> r == rest
  {
    match rest
    case Panic => Panic
    case Ok(cs) => assert [] + cs == cs; Ok(columns + cs)
  }

  lemma BehindOne(columns: seq<ColumnInfo>, c: ColumnInfo, rest: Outcome<seq<ColumnInfo>>)
    ensures Behind(columns + [c], rest) == Behind(columns, Behind([c], rest))
  {
    if rest.Ok? {
      assert columns + [c] + rest.value == columns + ([c] + rest.value);
    }
  }
}
