/**
 * OK packets (OK_Packet of the MySQL Client/Server Protocol) as common_packet.rs decodes and
 * encodes them: which fields are present depends on the negotiated capabilities.
 */
module OkPacket {
  import opened Bytes
  import opened Buffers
  import opened Columns
  import opened Options

  // bits 9, 13 and 23
  const CLIENT_PROTOCOL_41: nat := 0x200
  const CLIENT_TRANSACTIONS: nat := 0x2000
  const CLIENT_SESSION_TRACK: nat := 0x80_0000

  /** The bit of the mask, a power of two, is set. */
  predicate Bit(x: nat, mask: nat)
    requires mask > 0
  {
    (x / mask) % 2 == 1
  }

  predicate Protocol41(capability: nat) {
    Bit(capability, CLIENT_PROTOCOL_41)
  }

  predicate Transactions(capability: nat) {
    Bit(capability, CLIENT_TRANSACTIONS)
  }

  predicate SessionTrack(capability: nat) {
    Bit(capability, CLIENT_SESSION_TRACK)
  }

  /** The bit SERVER_SESSION_STATE_CHANGED of a 16-bit status. */
  predicate StateChanged(status: nat) {
    Bit(status, 0x4000)
  }

  datatype SessionState =
    | SystemVariables(pairs: seq<(bytes, bytes)>)
    | Schema(schema: bytes)
    | StateChange(tracked: bool)
    | Gtids(gtids: bytes)
    | TransactionCharacteristics(chars: bytes)
    | TransactionState(state: bytes)
    | Unknown(raw: bytes)

  datatype OkInfo = OkInfo(
    affectedRows: nat,
    lastInsertId: nat,
    status: Option<nat>,
    warnings: Option<nat>,
    info: Option<bytes>,
    stateChanges: Option<SessionState>
  )

  predicate Representable16(x: Option<nat>) {
    x.Some? ==> x.value < 0x1_0000
  }

  predicate Representable(o: OkInfo) {
    && o.affectedRows < U64 && o.lastInsertId < U64
    && Representable16(o.status) && Representable16(o.warnings)
    && (o.info.Some? ==> |o.info.value| < U64)
  }

  // ----- Decoding -------------------------------------------------------------------

  function DecodePairs(b: bytes): Outcome<seq<(bytes, bytes)>>
    decreases |b|
  {
    if b == [] then Ok([])
    else
      var ((name, _), b1) :- ReadEncodedString(b);
      var ((value, _), b2) :- ReadEncodedString(b1);
      var rest :- DecodePairs(b2);
      Ok([(name, value)] + rest)
  }

  function DecodeSessionState(b: bytes): Outcome<SessionState> {
    var (typ, b) :- ReadU8(b);
    var (len, b) :- ReadLencInt(b);
    if len.n > |b| then Panic
    else
      var payload := b[..len.n];
      if typ == 0 then var pairs :- DecodePairs(payload); Ok(SystemVariables(pairs))
      else if typ > 5 then Ok(Unknown([typ] + payload))
      else
        var ((s, _), _) :- ReadEncodedString(payload);
        Ok(if typ == 1 then Schema(s)
           else if typ == 2 then StateChange(s == [0x31])
           else if typ == 3 then Gtids(s)
           else if typ == 4 then TransactionCharacteristics(s)
           else TransactionState(s))
  }

  /** Status and warnings, as far as the capabilities say they are there. */
  function ReadStatus(capability: nat, b: bytes): Outcome<((Option<nat>, Option<nat>), bytes)> {
    if Protocol41(capability) then
      var (status, b) :- ReadUint(b, 2);
      var (warnings, b) :- ReadUint(b, 2);
      Ok(((Some(status), Some(warnings)), b))
    else if Transactions(capability) then
      var (status, b) :- ReadUint(b, 2);
      Ok(((Some(status), None), b))
    else
      Ok(((None, None), b))
  }

  /** The optional end of the packet. */
  function ReadTrailer(capability: nat, o: OkInfo, b: bytes): Outcome<OkInfo> {
    if b == [] then Ok(o)
    else if SessionTrack(capability) then
      var ((info, _), b) :- ReadEncodedString(b);
      if o.status.Some? && StateChanged(o.status.value) then
        var (_, b) :- ReadLencInt(b);
        var state :- DecodeSessionState(b);
        Ok(o.(info := Some(info), stateChanges := Some(state)))
      else
        Ok(o.(info := Some(info)))
    else
      Ok(o.(info := Some(b)))
  }

  /** `decode`, on the bytes after the header byte. */
  function DecodeOk(capability: nat, b: bytes): Outcome<OkInfo> {
    var (rows, b) :- ReadLencInt(b);
    var (id, b) :- ReadLencInt(b);
    var ((status, warnings), b) :- ReadStatus(capability, b);
    ReadTrailer(capability, OkInfo(rows.n, id.n, status, warnings, None, None), b)
  }

  // ----- Encoding -------------------------------------------------------------------

  function Optional16(x: Option<nat>): bytes {
    if x.Some? then ToLE(x.value, 2) else []
  }

  function StatusBytes(o: OkInfo, capability: nat): bytes {
    if Protocol41(capability) then Optional16(o.status) + Optional16(o.warnings)
    else if Transactions(capability) then Optional16(o.status)
    else []
  }

  function InfoBytes(o: OkInfo): bytes {
    if o.info.Some? then LencStr(o.info.value) else []
  }

  function EncodeOk(o: OkInfo, capability: nat): bytes {
    [0x00] + (LencInt(o.affectedRows, true)
      + (LencInt(o.lastInsertId, true) + (StatusBytes(o, capability) + InfoBytes(o))))
  }

  // ----- Round trip -----------------------------------------------------------------

  /** Status and warnings are present exactly as the capabilities dictate. */
  predicate PresentAsNegotiated(o: OkInfo, capability: nat) {
    && (o.status.Some? <==> Protocol41(capability) || Transactions(capability))
    && (o.warnings.Some? <==> Protocol41(capability))
  }

  /** No session state, and an info text only where the decoder takes it for one. */
  predicate TrailerSurvives(o: OkInfo, capability: nat) {
    && o.stateChanges.None?
    && (o.info.Some? ==>
          && o.info.value != []
          && SessionTrack(capability)
          && !(o.status.Some? && StateChanged(o.status.value)))
  }

  lemma StatusRoundTrip(o: OkInfo, capability: nat, suffix: bytes)
    requires Representable(o) && PresentAsNegotiated(o, capability)
    ensures ReadStatus(capability, StatusBytes(o, capability) + suffix)
         == Ok(((o.status, o.warnings), suffix))
  {
    hide ReadUint, ToLE, Pow256, Protocol41, Transactions;
    Powers();
    if o.warnings.Some? {
      var b := ToLE(o.warnings.value, 2) + suffix;
      assert StatusBytes(o, capability) + suffix == ToLE(o.status.value, 2) + b;
      UintRoundTrip(o.status.value, 2, b);
      UintRoundTrip(o.warnings.value, 2, suffix);
    } else if o.status.Some? {
      UintRoundTrip(o.status.value, 2, suffix);
    } else {
      assert [] + suffix == suffix;
    }
  }

  /** What the decoder finds after status and warnings, when only the info text was written. */
  lemma TrailerRoundTripIff(o: OkInfo, capability: nat)
    requires Representable(o)
    ensures ReadTrailer(capability, o.(info := None, stateChanges := None), InfoBytes(o)) == Ok(o)
            <==> TrailerSurvives(o, capability)
  {
    hide SessionTrack, StateChanged, LencStr, DecodeSessionState, ReadEncodedString;
    if o.info.Some? {
      InfoReadBack(o.info.value);
    }
  }

  /** A written info text is longer than the text, and reads back as it unless it is empty. */
  lemma InfoReadBack(s: bytes)
    requires |s| < U64
    ensures |LencStr(s)| > |s|
    ensures ReadEncodedString(LencStr(s)) == Ok(((if s == [] then [0xfb] else s, s == []), []))
  {
    hide ReadEncodedString;
    assert LencStr(s) + [] == LencStr(s);
    if s == [] {
      EmptyReadsAsNull(false, []);
      assert LencStr(s) == LencInt(0, false) == LencInt(0, false) + [];
    } else {
      LencStrRoundTrip(s, []);
    }
  }

  lemma DecodeOkSteps(o: OkInfo, capability: nat)
    requires Representable(o)
    ensures DecodeOk(capability, EncodeOk(o, capability)[1..]) ==
              match ReadStatus(capability, StatusBytes(o, capability) + InfoBytes(o))
              case Panic => Panic
              case Ok(((status, warnings), b)) =>
                ReadTrailer(capability,
                            OkInfo(o.affectedRows, o.lastInsertId, status, warnings, None, None), b)
  {
    hide ReadStatus, ReadTrailer, StatusBytes, InfoBytes, LencInt, ReadLencInt;
    var b2 := StatusBytes(o, capability) + InfoBytes(o);
    var b1 := LencInt(o.lastInsertId, true) + b2;
    assert EncodeOk(o, capability)[1..] == LencInt(o.affectedRows, true) + b1;
    LencIntRoundTrip(o.affectedRows, true, b1);
    LencIntRoundTrip(o.lastInsertId, true, b2);
  }

  lemma DecodedPresence(capability: nat, o: OkInfo, b: bytes)
    requires ReadTrailer(capability, o, b).Ok?
    ensures ReadTrailer(capability, o, b).value.status == o.status
    ensures ReadTrailer(capability, o, b).value.warnings == o.warnings
  {
  }

  /**
   * For every capability mask, decoding an encoded packet gives it back if and only if status
   * and warnings are present as negotiated and the trailer survives.
   */
  lemma OkRoundTripIff(o: OkInfo, capability: nat)
    requires Representable(o)
    ensures DecodeOk(capability, EncodeOk(o, capability)[1..]) == Ok(o) <==>
            PresentAsNegotiated(o, capability) && TrailerSurvives(o, capability)
  {
    DecodeOkSteps(o, capability);
    hide ReadTrailer, TrailerSurvives, EncodeOk, DecodeOk, StatusBytes, InfoBytes, Representable;
    hide Protocol41, Transactions, ReadUint;
    var r := ReadStatus(capability, StatusBytes(o, capability) + InfoBytes(o));
    if PresentAsNegotiated(o, capability) {
      StatusRoundTrip(o, capability, InfoBytes(o));
      TrailerRoundTripIff(o, capability);
    } else if r.Ok? {
      var ((status, warnings), b) := r.value;
      var d := OkInfo(o.affectedRows, o.lastInsertId, status, warnings, None, None);
      if ReadTrailer(capability, d, b).Ok? {
        DecodedPresence(capability, d, b);
      }
    }
  }

  /** Without session tracking an info text comes back with its length in front. */
  lemma UntrackedInfoGrows()
    ensures var o := OkInfo(0, 0, None, None, Some([0x78]), None);
            DecodeOk(0, EncodeOk(o, 0)[1..]) == Ok(o.(info := Some([1, 0x78])))
  {
    var o := OkInfo(0, 0, None, None, Some([0x78]), None);
    DecodeOkSteps(o, 0);
    assert !Protocol41(0) && !Transactions(0) && !SessionTrack(0);
    assert StatusBytes(o, 0) + InfoBytes(o) == [1, 0x78];
  }

  // ----- Any packet -----------------------------------------------------------------

  /** An OK packet after its header byte, as servers send it; `tail` is whatever follows the counts. */
  function OkLayout(capability: nat, rows: nat, id: nat, status: nat, warnings: nat, tail: bytes): bytes {
    LencInt(rows, true) + (LencInt(id, true)
      + ((if Bit(capability, 0x200) then ToLE(status, 2) + ToLE(warnings, 2)
          else if Bit(capability, 0x2000) then ToLE(status, 2)
          else []) + tail))
  }

  /** The counts of a packet. */
  function Counts(capability: nat, rows: nat, id: nat, status: nat, warnings: nat): OkInfo {
    var has41, hasStatus := Bit(capability, 0x200), Bit(capability, 0x2000);
    OkInfo(rows, id, if has41 || hasStatus then Some(status) else None, if has41 then Some(warnings) else None,
           None, None)
  }

  lemma Masks(capability: nat)
    ensures Protocol41(capability) <==> Bit(capability, 0x200)
    ensures Transactions(capability) <==> Bit(capability, 0x2000)
    ensures SessionTrack(capability) <==> Bit(capability, 0x80_0000)
  {
  }

  /** What `length_encoded_string` makes of a string: an empty one reads as the byte 0xfb. */
  function Back(s: bytes): bytes {
    if s == [] then [0xfb] else s
  }

  lemma StringReadsBack(s: bytes, suffix: bytes)
    requires |s| < U64
    ensures ReadEncodedString(EncodeField(Some(s)) + suffix) == Ok(((Back(s), false), suffix))
  {
    hide ReadEncodedString;
    WrittenField(s);
    if s == [] {
      EmptyReadsAsNull(true, suffix);
    } else {
      LencStrRoundTrip(s, suffix);
    }
  }

  lemma StatusLayoutReads(capability: nat, status: nat, warnings: nat, tail: bytes)
    requires status < 0x1_0000 && warnings < 0x1_0000
    ensures var o := Counts(capability, 0, 0, status, warnings);
            ReadStatus(capability,
                       (if Bit(capability, 0x200) then ToLE(status, 2) + ToLE(warnings, 2)
                        else if Bit(capability, 0x2000) then ToLE(status, 2)
                        else []) + tail) == Ok(((o.status, o.warnings), tail))
  {
    hide ReadUint, ToLE, Pow256, Protocol41, Transactions, SessionTrack;
    Powers();
    Masks(capability);
    if Bit(capability, 0x200) {
      var b := ToLE(warnings, 2) + tail;
      assert ToLE(status, 2) + ToLE(warnings, 2) + tail == ToLE(status, 2) + b;
      UintRoundTrip(status, 2, b);
      UintRoundTrip(warnings, 2, tail);
    } else if Bit(capability, 0x2000) {
      UintRoundTrip(status, 2, tail);
    } else {
      assert [] + tail == tail;
    }
  }

  lemma CountsRead(capability: nat, rows: nat, id: nat, status: nat, warnings: nat, tail: bytes)
    requires rows < U64 && id < U64 && status < 0x1_0000 && warnings < 0x1_0000
    ensures DecodeOk(capability, OkLayout(capability, rows, id, status, warnings, tail))
         == ReadTrailer(capability, Counts(capability, rows, id, status, warnings), tail)
  {
    hide ReadTrailer, ReadStatus, LencInt, ReadLencInt, ToLE;
    var b2 := (if Bit(capability, 0x200) then ToLE(status, 2) + ToLE(warnings, 2)
               else if Bit(capability, 0x2000) then ToLE(status, 2)
               else []) + tail;
    LencIntRoundTrip(rows, true, LencInt(id, true) + b2);
    LencIntRoundTrip(id, true, b2);
    StatusLayoutReads(capability, status, warnings, tail);
  }

  /** Bit 14 of the status: the session state has changed. */
  predicate Changed(capability: nat, status: nat) {
    (Bit(capability, 0x200) || Bit(capability, 0x2000)) && (status / 0x4000) % 2 == 1
  }

  /** Without session tracking everything after the counts is the info text, if there is anything. */
  lemma DecodesUntracked(capability: nat, rows: nat, id: nat, status: nat, warnings: nat, tail: bytes)
    requires rows < U64 && id < U64 && status < 0x1_0000 && warnings < 0x1_0000
    requires !Bit(capability, 0x80_0000) || tail == []
    ensures var o := Counts(capability, rows, id, status, warnings);
            DecodeOk(capability, OkLayout(capability, rows, id, status, warnings, tail))
            == Ok(if tail == [] then o else o.(info := Some(tail)))
  {
    hide DecodeOk, OkLayout, Counts;
    Masks(capability);
    CountsRead(capability, rows, id, status, warnings, tail);
  }

  /**
   * With session tracking an info string follows, and, if the status says so, the length of the
   * session state and the state itself.
   */
  lemma DecodesTracked(capability: nat, rows: nat, id: nat, status: nat, warnings: nat, info: bytes, length: nat,
                       state: bytes)
    requires rows < U64 && id < U64 && status < 0x1_0000 && warnings < 0x1_0000 && |info| < U64 && length < U64
    requires Bit(capability, 0x80_0000)
    ensures var o := Counts(capability, rows, id, status, warnings).(info := Some(Back(info)));
            var text := EncodeField(Some(info));
            if Changed(capability, status) then
              DecodeOk(capability, OkLayout(capability, rows, id, status, warnings,
                                            text + (LencInt(length, true) + state)))
              == match DecodeSessionState(state)
                 case Panic => Panic
                 case Ok(st) => Ok(o.(stateChanges := Some(st)))
            else DecodeOk(capability, OkLayout(capability, rows, id, status, warnings, text + state)) == Ok(o)
  {
    hide DecodeOk, OkLayout, DecodeSessionState, ReadEncodedString, ReadLencInt, LencInt;
    Masks(capability);
    var text := EncodeField(Some(info));
    NotEmpty(info);
    var rest := LencInt(length, true) + state;
    StringReadsBack(info, rest);
    StringReadsBack(info, state);
    LencIntRoundTrip(length, true, state);
    CountsRead(capability, rows, id, status, warnings, text + rest);
    CountsRead(capability, rows, id, status, warnings, text + state);
  }

  lemma NotEmpty(s: bytes)
    requires |s| < U64
    ensures EncodeField(Some(s)) != []
  {
    WrittenForm(|s|, true);
  }

  /** A kind of session state and its payload. */
  function StateLayout(kind: byte, payload: bytes): bytes {
    [kind] + (LencInt(|payload|, true) + payload)
  }

  lemma StateParts(kind: byte, payload: bytes, suffix: bytes)
    requires |payload| < U64
    ensures ReadU8(StateLayout(kind, payload) + suffix) == Ok((kind, LencInt(|payload|, true) + (payload + suffix)))
    ensures ReadLencInt(LencInt(|payload|, true) + (payload + suffix))
         == Ok((Lenc(|payload|, false, |LencInt(|payload|, true)|), payload + suffix))
    ensures (payload + suffix)[..|payload|] == payload
  {
    hide LencInt, ReadLencInt;
    LencIntRoundTrip(|payload|, true, payload + suffix);
    assert StateLayout(kind, payload) + suffix == [kind] + (LencInt(|payload|, true) + (payload + suffix));
  }

  /** The kinds 1 to 5 hold one string; the state change is the string "1". */
  lemma DecodesStringState(kind: byte, s: bytes, extra: bytes, suffix: bytes)
    requires 1 <= kind <= 5 && |EncodeField(Some(s)) + extra| < U64
    ensures DecodeSessionState(StateLayout(kind, EncodeField(Some(s)) + extra) + suffix) ==
            Ok(match kind
               case 1 => Schema(Back(s))
               case 2 => StateChange(s == [0x31])
               case 3 => Gtids(Back(s))
               case 4 => TransactionCharacteristics(Back(s))
               case _ => TransactionState(Back(s)))
  {
    hide EncodeField, ReadEncodedString, ReadLencInt, LencInt, ReadU8, StateLayout;
    LengthOfField(s);
    StateParts(kind, EncodeField(Some(s)) + extra, suffix);
    StringReadsBack(s, extra);
  }

  lemma LengthOfField(s: bytes)
    ensures |s| <= |EncodeField(Some(s))|
  {
  }

  /** A kind above 5 is kept as it is, without its length. */
  lemma DecodesUnknownState(kind: byte, payload: bytes, suffix: bytes)
    requires kind > 5 && |payload| < U64
    ensures DecodeSessionState(StateLayout(kind, payload) + suffix) == Ok(Unknown([kind] + payload))
  {
    hide ReadLencInt, LencInt, ReadU8, StateLayout;
    StateParts(kind, payload, suffix);
  }

  function PairsLayout(pairs: seq<(bytes, bytes)>): bytes {
    if pairs == [] then []
    else EncodeField(Some(pairs[0].0)) + (EncodeField(Some(pairs[0].1)) + PairsLayout(pairs[1..]))
  }

  lemma {:induction false} DecodesPairs(pairs: seq<(bytes, bytes)>)
    requires forall j | 0 <= j < |pairs| :: |pairs[j].0| < U64 && |pairs[j].1| < U64
    ensures var r := DecodePairs(PairsLayout(pairs));
            && r.Ok? && |r.value| == |pairs|
            && forall j | 0 <= j < |pairs| :: r.value[j] == (Back(pairs[j].0), Back(pairs[j].1))
    decreases |pairs|
  {
    hide EncodeField, ReadEncodedString, Back;
    if pairs != [] {
      var rest := PairsLayout(pairs[1..]);
      NotEmpty(pairs[0].0);
      StringReadsBack(pairs[0].0, EncodeField(Some(pairs[0].1)) + rest);
      StringReadsBack(pairs[0].1, rest);
      DecodesPairs(pairs[1..]);
    }
  }

  /** Kind 0 holds pairs of a name and a value. */
  lemma DecodesVariables(pairs: seq<(bytes, bytes)>, suffix: bytes)
    requires |PairsLayout(pairs)| < U64
    requires forall j | 0 <= j < |pairs| :: |pairs[j].0| < U64 && |pairs[j].1| < U64
    ensures var r := DecodeSessionState(StateLayout(0, PairsLayout(pairs)) + suffix);
            && r.Ok? && r.value.SystemVariables? && |r.value.pairs| == |pairs|
            && forall j | 0 <= j < |pairs| :: r.value.pairs[j] == (Back(pairs[j].0), Back(pairs[j].1))
  {
    hide PairsLayout, ReadLencInt, LencInt, ReadU8, StateLayout, DecodePairs, Back;
    StateParts(0, PairsLayout(pairs), suffix);
    DecodesPairs(pairs);
  }

  /** The bytes of `encode`: the header byte 0x00, the counts as negotiated, and the info text. */
  lemma EncodesOk(o: OkInfo, capability: nat)
    requires PresentAsNegotiated(o, capability)
    ensures var status := if o.status.Some? then o.status.value else 0;
            var warnings := if o.warnings.Some? then o.warnings.value else 0;
            EncodeOk(o, capability)
            == [0x00] + OkLayout(capability, o.affectedRows, o.lastInsertId, status, warnings, InfoLayout(o.info))
  {
    hide LencInt, ToLE, EncodeField, LencStr, Written;
    if o.info.Some? {
      WrittenField(o.info.value);
    }
  }

  function InfoLayout(info: Option<bytes>): bytes {
    if info.Some? then EncodeField(Written(info.value)) else []
  }

  /** A count that is negotiated but absent is left out: the packet is shorter by its two bytes. */
  lemma AbsentIsLeftOut(o: OkInfo, capability: nat)
    ensures var has41, hasStatus := Bit(capability, 0x200), Bit(capability, 0x2000);
            |EncodeOk(o, capability)| ==
              1 + |LencInt(o.affectedRows, true)| + |LencInt(o.lastInsertId, true)| + |InfoLayout(o.info)|
              + (if o.status.Some? && (has41 || hasStatus) then 2 else 0)
              + (if o.warnings.Some? && has41 then 2 else 0)
  {
    hide LencInt, ToLE, EncodeField, LencStr, Written;
    if o.info.Some? {
      WrittenField(o.info.value);
    }
  }

  // ----- The methods ----------------------------------------------------------------

  method DecodePairsFrom(payload: Buffer) returns (r: Outcome<seq<(bytes, bytes)>>)
    modifies payload
    ensures r == DecodePairs(old(payload.data))
  {
    hide ReadEncodedString;
    var pairs := [];
    while payload.data != []
      invariant DecodePairs(old(payload.data)) == PairsBehind(pairs, DecodePairs(payload.data))
      decreases |payload.data|
    {
      var name :- payload.LengthEncodedString();
      var value :- payload.LengthEncodedString();
      PairsBehindOne(pairs, (name.0, value.0), DecodePairs(payload.data));
      pairs := pairs + [(name.0, value.0)];
    }
    assert pairs + [] == pairs;
    return Ok(pairs);
  }

  method DecodeSession(data: Buffer) returns (r: Outcome<SessionState>)
    modifies data
    ensures r == DecodeSessionState(old(data.data))
  {
    hide ReadEncodedString, ReadLencInt, DecodePairs;
    var typ :- data.GetU8();
    var len :- data.GetLencInt();
    if len.n > |data.data| {
      return Panic;
    }
    var payload := new Buffer(data.data[..len.n]);
    if typ == 0 {
      var pairs :- DecodePairsFrom(payload);
      return Ok(SystemVariables(pairs));
    }
    if typ > 5 {
      return Ok(Unknown([typ] + payload.data));
    }
    var s :- payload.LengthEncodedString();
    match typ {
      case 1 => return Ok(Schema(s.0));
      case 2 => return Ok(StateChange(s.0 == [0x31]));
      case 3 => return Ok(Gtids(s.0));
      case 4 => return Ok(TransactionCharacteristics(s.0));
      case _ => return Ok(TransactionState(s.0));
    }
  }

  ghost function PairsBehind(pairs: seq<(bytes, bytes)>, rest: Outcome<seq<(bytes, bytes)>>)
    : (r: Outcome<seq<(bytes, bytes)>>)
    ensures pairs == [] ==> r == rest
  {
    match rest
    case Panic => Panic
    case Ok(ps) => assert [] + ps == ps; Ok(pairs + ps)
  }

  lemma PairsBehindOne(pairs: seq<(bytes, bytes)>, p: (bytes, bytes), rest: Outcome<seq<(bytes, bytes)>>)
    ensures PairsBehind(pairs + [p], rest) == PairsBehind(pairs, PairsBehind([p], rest))
  {
    if rest.Ok? {
      assert pairs + [p] + rest.value == pairs + ([p] + rest.value);
    }
  }

  method DecodeFrom(capability: nat, data: Buffer) returns (r: Outcome<OkInfo>)
    modifies data
    ensures r == DecodeOk(capability, old(data.data))
  {
    hide DecodeSessionState, ReadEncodedString, ReadLencInt, ReadUint, Protocol41, Transactions, SessionTrack;
    var o := OkInfo(0, 0, None, None, None, None);
    var rows :- data.GetLencInt();
    o := o.(affectedRows := rows.n);
    var id :- data.GetLencInt();
    o := o.(lastInsertId := id.n);
    if Protocol41(capability) {
      var status :- data.GetUintLe(2);
      var warnings :- data.GetUintLe(2);
      o := o.(status := Some(status), warnings := Some(warnings));
    } else if Transactions(capability) {
      var status :- data.GetUintLe(2);
      o := o.(status := Some(status));
    }
    if data.data == [] {
      return Ok(o);
    }
    if SessionTrack(capability) {
      var info :- data.LengthEncodedString();
      o := o.(info := Some(info.0));
      if o.status.Some? && StateChanged(o.status.value) {
        var _ :- data.GetLencInt();
        var state :- DecodeSession(data);
        o := o.(stateChanges := Some(state));
      }
    } else {
      o := o.(info := Some(data.data));
      data.data := [];
    }
    return Ok(o);
  }

  method Put16(x: Option<nat>, data: Buffer)
    modifies data
    ensures data.data == old(data.data) + Optional16(x)
  {
    if x.Some? {
      data.PutUintLe(x.value, 2);
    }
  }

  method PutStatus(o: OkInfo, capability: nat, data: Buffer)
    modifies data
    ensures data.data == old(data.data) + StatusBytes(o, capability)
  {
    hide Optional16, Protocol41, Transactions;
    if Protocol41(capability) {
      Put16(o.status, data);
      Put16(o.warnings, data);
    } else if Transactions(capability) {
      Put16(o.status, data);
    }
  }

  method EncodeNew(o: OkInfo, capability: nat) returns (packet: bytes)
    requires Representable(o)
    ensures packet == EncodeOk(o, capability)
  {
    hide LencInt, StatusBytes;
    var data := new Buffer([]);
    data.PutSlice([0x00]);
    data.PutLencInt(o.affectedRows, true);
    data.PutLencInt(o.lastInsertId, true);
    PutStatus(o, capability, data);
    if o.info.Some? {
      data.PutLencInt(|o.info.value|, false);
      data.PutSlice(o.info.value);
    }
    hide LencStr;
    assert data.data == [0x00] + LencInt(o.affectedRows, true) + LencInt(o.lastInsertId, true)
                        + StatusBytes(o, capability) + InfoBytes(o);
    return data.data;
  }
}
