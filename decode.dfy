/** What the fields of a data line mean, as the TRC layout documents them
    beside the grammar: the two widths of a CAN-ID, the byte values of the
    data column, the payload each message type carries and the range of the
    length column. The grammar checks none of this; a line it reads is
    decoded here into a trace record. */
module TrcDecode {
  import opened Wrappers
  import opened Lexical
  import opened TrcHeader
  import opened TrcRecord

  /** Largest 11-bit identifier; it is written with 4 hex digits. */
  const MaxStandardId: nat := 0x7FF
  /** Largest 29-bit identifier; it is written with 8 hex digits. */
  const MaxExtendedId: nat := 0x1FFF_FFFF
  const StandardIdDigits: nat := 4
  const ExtendedIdDigits: nat := 8

  /** Bounds of the `l` (data length) and `L` (data length code) columns. */
  const MaxDataLength: nat := 1785
  const MaxDataLengthCode: nat := 15

  /** Bytes carried by hardware status, error counter and error frame rows. */
  const StatusCodeSize: nat := 4
  const ErrorCounterSize: nat := 2
  const ErrorFrameSize: nat := 5

  lemma HexPowers()
    ensures Pow(16, 2) == 0x100 && Pow(16, 4) == 0x1_0000 && Pow(16, 8) == 0x1_0000_0000
  {
    assert Pow(16, 1) == 16;
    assert Pow(16, 2) == 0x100;
    assert Pow(16, 3) == 0x1000;
    assert Pow(16, 4) == 0x1_0000;
    assert Pow(16, 5) == 0x10_0000;
    assert Pow(16, 6) == 0x100_0000;
    assert Pow(16, 7) == 0x1000_0000;
  }

  // ---------------------------------------------------------------------
  // CAN-ID
  // ---------------------------------------------------------------------

  datatype CanId = Standard(value: nat) | Extended(value: nat)

  predicate ValidCanId(id: CanId)
  {
    match id
    case Standard(v) => v <= MaxStandardId
    case Extended(v) => v <= MaxExtendedId
  }

  function CanIdWidth(id: CanId): nat
  {
    if id.Standard? then StandardIdDigits else ExtendedIdDigits
  }

  /** An identifier as the I column writes it: 4 hex digits for 11 bits,
      8 for 29. */
  function CanIdText(id: CanId): (s: string)
    requires ValidCanId(id)
    ensures |s| == CanIdWidth(id) && AllHexDigits(s) && HexValue(s) == id.value
  {
    CanIdFits(id);
    HexText(id.value, CanIdWidth(id))
  }

  /** A valid identifier fits the digits of its width. */
  lemma CanIdFits(id: CanId)
    requires ValidCanId(id)
    ensures id.value < Pow(16, CanIdWidth(id))
  {
    HexPowers();
  }

  /** The identifier of an I column: 4 hex digits up to 0x7FF are an 11-bit
      identifier, 8 hex digits up to 0x1FFFFFFF a 29-bit one, and nothing
      else is an identifier. */
  function DecodeCanId(digits: string): (r: Option<CanId>)
    ensures r.Some? <==>
              && AllHexDigits(digits)
              && ((|digits| == StandardIdDigits && HexValue(digits) <= MaxStandardId)
                  || (|digits| == ExtendedIdDigits && HexValue(digits) <= MaxExtendedId))
    ensures r.Some? ==> ValidCanId(r.value) && CanIdWidth(r.value) == |digits| && r.value.value == HexValue(digits)
  {
    if !AllHexDigits(digits) then None
    else if |digits| == StandardIdDigits && HexValue(digits) <= MaxStandardId then Some(Standard(HexValue(digits)))
    else if |digits| == ExtendedIdDigits && HexValue(digits) <= MaxExtendedId then Some(Extended(HexValue(digits)))
    else None
  }

  /** Every identifier is read back from its text, at its own width. */
  lemma CanIdRoundTrip(id: CanId)
    requires ValidCanId(id)
    ensures DecodeCanId(CanIdText(id)) == Some(id)
  {
  }

  /** A decoded identifier fits 29 bits, and 11 bits when written with 4 digits. */
  lemma CanIdBounds(digits: string)
    requires DecodeCanId(digits).Some?
    ensures DecodeCanId(digits).value.value <= MaxExtendedId
    ensures |digits| == StandardIdDigits ==> DecodeCanId(digits).value.value <= MaxStandardId
  {
  }

  // ---------------------------------------------------------------------
  // Data bytes
  // ---------------------------------------------------------------------

  type Byte = x: nat | x < 0x100

  /** One byte of the D column: exactly two hex digits. */
  predicate IsByteWord(w: string) { |w| == 2 && AllHexDigits(w) }

  /** bytes are the values of words, one byte per word. */
  predicate ByteValues(bytes: seq<Byte>, words: seq<string>)
  {
    && |bytes| == |words|
    && forall i | 0 <= i < |words| :: IsByteWord(words[i]) && bytes[i] == HexValue(words[i])
  }

  /** The bytes of a D column, or nothing when a word is not a byte. */
  function DecodeBytes(words: seq<string>): (r: Option<seq<Byte>>)
    ensures r.Some? <==> forall i | 0 <= i < |words| :: IsByteWord(words[i])
    ensures r.Some? ==> ByteValues(r.value, words)
    decreases |words|
  {
    if words == [] then Some([])
    else if !IsByteWord(words[0]) then None
    else
      var rest :- DecodeBytes(words[1..]);
      HexPowers();
      var b: Byte := HexValue(words[0]);
      Some([b] + rest)
  }

  function ByteText(b: Byte): (s: string)
    ensures IsByteWord(s) && HexValue(s) == b
  {
    HexPowers();
    HexText(b, 2)
  }

  function BytesText(bytes: seq<Byte>): (words: seq<string>)
    ensures |words| == |bytes|
    ensures forall i | 0 <= i < |words| :: words[i] == ByteText(bytes[i])
  {
    seq(|bytes|, i requires 0 <= i < |bytes| => ByteText(bytes[i]))
  }

  /** Written bytes are read back unchanged. */
  lemma BytesRoundTrip(bytes: seq<Byte>)
    ensures forall i | 0 <= i < |BytesText(bytes)| :: IsHexWord(BytesText(bytes)[i])
    ensures DecodeBytes(BytesText(bytes)) == Some(bytes)
  {
    var words := BytesText(bytes);
    assert forall i | 0 <= i < |words| :: IsByteWord(words[i]);
    var r := DecodeBytes(words).value;
    assert ByteValues(r, words);
    assert r == bytes;
  }

  /** The unsigned number whose bytes, most significant first, are bytes
      (the Motorola order of a status code). */
  function BigEndian(bytes: seq<Byte>): (n: nat)
    ensures n < Pow(0x100, |bytes|)
    decreases |bytes|
  {
    if bytes == [] then 0
    else
      var front := bytes[..|bytes| - 1];
      var n := BigEndian(front) * 0x100 + bytes[|bytes| - 1];
      assert n < Pow(0x100, |bytes|) by {
        assert BigEndian(front) * 0x100 <= (Pow(0x100, |front|) - 1) * 0x100;
      }
      n
  }

  /** A four-byte status code weighs its bytes by 2^24, 2^16, 2^8 and 1, and
      so fits 32 bits. */
  lemma StatusCodeOfBytes(bytes: seq<Byte>)
    requires |bytes| == StatusCodeSize
    ensures BigEndian(bytes) == bytes[0] as nat * 0x100_0000 + bytes[1] as nat * 0x1_0000 + bytes[2] as nat * 0x100 + bytes[3] as nat
    ensures BigEndian(bytes) < 0x1_0000_0000
  {
    assert bytes[..3][..2] == bytes[..2];
    assert bytes[..2][..1] == bytes[..1];
    assert bytes[..1][..0] == [];
    assert Pow(0x100, 4) == 0x1_0000_0000 by {
      assert Pow(0x100, 2) == 0x1_0000;
    }
  }

  /** The four bytes, most significant first, of a 32-bit status code. */
  function StatusBytes(code: nat): (bytes: seq<Byte>)
    requires code < 0x1_0000_0000
    ensures |bytes| == StatusCodeSize && BigEndian(bytes) == code
  {
    var c1 := code / 0x100;
    var c2 := c1 / 0x100;
    var c3 := c2 / 0x100;
    var bytes: seq<Byte> := [c3 % 0x100, c2 % 0x100, c1 % 0x100, code % 0x100];
    StatusCodeOfBytes(bytes);
    assert c3 < 0x100 && c3 % 0x100 == c3;
    assert c2 == c3 * 0x100 + c2 % 0x100;
    assert c1 == c2 * 0x100 + c1 % 0x100;
    assert code == c1 * 0x100 + code % 0x100;
    assert code == ((c3 * 0x100 + c2 % 0x100) * 0x100 + c1 % 0x100) * 0x100 + code % 0x100;
    bytes
  }

  // ---------------------------------------------------------------------
  // Payloads and trace records
  // ---------------------------------------------------------------------

  /** DT, FD, FB, FE and BI rows: frames that carry data bytes. */
  predicate IsDataFrame(t: MessageType)
  {
    t.CanDataFrame? || t.CanFdFrame? || t.CanFdBrsFrame? || t.CanFdEsiFrame? || t.CanFdBrsEsiFrame?
  }

  /** ST, EC and ER rows: their CAN-ID column holds `-`. */
  predicate HasNoCanId(t: MessageType)
  {
    t.HwStatusChange? || t.ErrorCounterChange? || t.ErrorFrame?
  }

  /** The number of bytes an ST, EC or ER row carries. */
  function FixedPayloadSize(t: MessageType): nat
    requires HasNoCanId(t)
  {
    match t
    case HwStatusChange => StatusCodeSize
    case ErrorCounterChange => ErrorCounterSize
    case ErrorFrame => ErrorFrameSize
  }

  /** The range of the length column: 0..1785 under `l`, 0..15 under `L`. */
  predicate LengthInRange(length: nat, kind: LengthKind)
  {
    match kind
    case DataLength => length <= MaxDataLength
    case DataLengthCode => length <= MaxDataLengthCode
  }

  /** What a row carries, by its message type. */
  datatype Payload =
    | FrameData(id: CanId, bytes: seq<Byte>)
    | RemoteRequest(id: CanId)
    | StatusCode(code: nat)
    | ErrorCounters(rxErrors: Byte, txErrors: Byte)
    | ErrorFrameInfo(info: seq<Byte>)

  /** One decoded row of a trace. */
  datatype TraceRecord = TraceRecord(
    number: nat,
    offsetUs: nat,
    mtype: MessageType,
    bus: Bus,
    direction: Direction,
    length: nat,
    payload: Payload)

  datatype RecordError =
    | EventRow
    | LengthOutOfRange
    | BadDataByte
    | MissingCanId
    | UnexpectedCanId
    | BadCanId
    | RemoteRequestWithData
    | LengthMismatch
    | WrongPayloadSize

  /** A row read by the grammar that also follows the documented meaning of
      its columns. */
  predicate WellFormedRecord(raw: RawRecord, kind: LengthKind)
  {
    && !raw.mtype.Event?
    && LengthInRange(raw.length, kind)
    && (forall i | 0 <= i < |raw.data| :: IsByteWord(raw.data[i]))
    && if HasNoCanId(raw.mtype) then
         && raw.canId.NoId? && |raw.data| == FixedPayloadSize(raw.mtype)
         && (kind == DataLength ==> |raw.data| == raw.length)
       else
         && raw.canId.HexId?
         && DecodeCanId(raw.canId.digits).Some?
         && (raw.mtype.RtrFrame? ==> raw.data == [])
         && (IsDataFrame(raw.mtype) && kind == DataLength ==> |raw.data| == raw.length)
  }

  /** The payload of a row of type t whose data words are `bytes`. */
  function DecodePayload(t: MessageType, canId: CanIdToken, bytes: seq<Byte>, length: nat, kind: LengthKind)
    : (r: Result<Payload, RecordError>)
    requires !t.Event?
    ensures r.Success? <==>
              if HasNoCanId(t) then
                && canId.NoId? && |bytes| == FixedPayloadSize(t)
                && (kind == DataLength ==> |bytes| == length)
              else
                && canId.HexId? && DecodeCanId(canId.digits).Some?
                && (t.RtrFrame? ==> bytes == [])
                && (IsDataFrame(t) && kind == DataLength ==> |bytes| == length)
    ensures r.Success? && IsDataFrame(t) ==> r.value == FrameData(DecodeCanId(canId.digits).value, bytes)
    ensures r.Success? && t.RtrFrame? ==> r.value == RemoteRequest(DecodeCanId(canId.digits).value)
    ensures r.Success? && t.HwStatusChange? ==>
              r.value == StatusCode(bytes[0] as nat * 0x100_0000 + bytes[1] as nat * 0x1_0000 + bytes[2] as nat * 0x100 + bytes[3] as nat)
    ensures r.Success? && t.ErrorCounterChange? ==> r.value == ErrorCounters(bytes[0], bytes[1])
    ensures r.Success? && t.ErrorFrame? ==> r.value == ErrorFrameInfo(bytes)
  {
    if HasNoCanId(t) then
      if canId.HexId? then Failure(UnexpectedCanId)
      else if |bytes| != FixedPayloadSize(t) then Failure(WrongPayloadSize)
      else if kind == DataLength && |bytes| != length then Failure(LengthMismatch)
      else
        match t
        case HwStatusChange =>
          StatusCodeOfBytes(bytes);
          Success(StatusCode(BigEndian(bytes)))
        case ErrorCounterChange => Success(ErrorCounters(bytes[0], bytes[1]))
        case ErrorFrame => Success(ErrorFrameInfo(bytes))
    else if canId.NoId? then Failure(MissingCanId)
    else
      var id :- DecodeCanId(canId.digits).ToResult(BadCanId);
      if t.RtrFrame? then
        if bytes != [] then Failure(RemoteRequestWithData) else Success(RemoteRequest(id))
      else if kind == DataLength && |bytes| != length then Failure(LengthMismatch)
      else Success(FrameData(id, bytes))
  }

  /** Decodes a row the grammar read, under the length kind its COLUMNS line
      declares. It succeeds exactly on well-formed rows; the other columns
      are kept as read. */
  function DecodeRecord(raw: RawRecord, kind: LengthKind): (r: Result<TraceRecord, RecordError>)
    ensures r.Success? <==> WellFormedRecord(raw, kind)
    ensures r.Success? ==>
              && r.value.number == raw.number && r.value.offsetUs == raw.offsetUs
              && r.value.mtype == raw.mtype && r.value.bus == raw.bus
              && r.value.direction == raw.direction && r.value.length == raw.length
    ensures r.Success? && IsDataFrame(raw.mtype) ==>
              && r.value.payload.FrameData?
              && Some(r.value.payload.id) == DecodeCanId(raw.canId.digits)
              && ByteValues(r.value.payload.bytes, raw.data)
    ensures r.Success? && raw.mtype.RtrFrame? ==>
              r.value.payload == RemoteRequest(DecodeCanId(raw.canId.digits).value) && raw.data == []
    ensures r.Success? && raw.mtype.HwStatusChange? ==>
              r.value.payload == StatusCode(HexValue(raw.data[0]) * 0x100_0000 + HexValue(raw.data[1]) * 0x1_0000
                                            + HexValue(raw.data[2]) * 0x100 + HexValue(raw.data[3]))
    ensures r.Success? && raw.mtype.ErrorCounterChange? ==>
              r.value.payload == ErrorCounters(HexValue(raw.data[0]), HexValue(raw.data[1]))
    ensures r.Success? && raw.mtype.ErrorFrame? ==>
              && r.value.payload.ErrorFrameInfo? && |raw.data| == ErrorFrameSize
              && ByteValues(r.value.payload.info, raw.data)
  {
    if raw.mtype.Event? then Failure(EventRow)
    else if !LengthInRange(raw.length, kind) then Failure(LengthOutOfRange)
    else
      var bytes :- DecodeBytes(raw.data).ToResult(BadDataByte);
      var payload :- DecodePayload(raw.mtype, raw.canId, bytes, raw.length, kind);
      Success(TraceRecord(raw.number, raw.offsetUs, raw.mtype, raw.bus, raw.direction, raw.length, payload))
  }

  /** Under `l` the length column is the number of data bytes for every row
      that decodes, except RR, whose length is the length it requests. */
  lemma DataLengthIsByteCount(raw: RawRecord)
    requires DecodeRecord(raw, DataLength).Success? && !raw.mtype.RtrFrame?
    ensures |raw.data| == raw.length
  {
  }

  // ---------------------------------------------------------------------
  // Writing a trace record back as the fields of a row
  // ---------------------------------------------------------------------

  /** A record whose payload suits its type and whose columns are in range. */
  predicate ValidTraceRecord(t: TraceRecord, kind: LengthKind)
  {
    && ValidBus(t.bus)
    && LengthInRange(t.length, kind)
    && match t.mtype
       case Event => false
       case RtrFrame => t.payload.RemoteRequest? && ValidCanId(t.payload.id)
       case HwStatusChange =>
         && t.payload.StatusCode? && t.payload.code < 0x1_0000_0000
         && (kind == DataLength ==> t.length == StatusCodeSize)
       case ErrorCounterChange =>
         && t.payload.ErrorCounters?
         && (kind == DataLength ==> t.length == ErrorCounterSize)
       case ErrorFrame =>
         && t.payload.ErrorFrameInfo? && |t.payload.info| == ErrorFrameSize
         && (kind == DataLength ==> t.length == ErrorFrameSize)
       case _ =>
         && t.payload.FrameData? && ValidCanId(t.payload.id)
         && (kind == DataLength ==> |t.payload.bytes| == t.length)
  }

  function PayloadCanId(p: Payload): CanIdToken
  {
    match p
    case FrameData(id, _) => if ValidCanId(id) then HexId(CanIdText(id)) else NoId
    case RemoteRequest(id) => if ValidCanId(id) then HexId(CanIdText(id)) else NoId
    case _ => NoId
  }

  function PayloadBytes(p: Payload): seq<Byte>
  {
    match p
    case FrameData(_, bytes) => bytes
    case RemoteRequest(_) => []
    case StatusCode(code) => if code < 0x1_0000_0000 then StatusBytes(code) else []
    case ErrorCounters(rx, tx) => [rx, tx]
    case ErrorFrameInfo(info) => info
  }

  /** The row fields a record is written as. */
  function EncodeRecord(t: TraceRecord): (raw: RawRecord)
    ensures ValidBus(t.bus) ==> ValidRaw(raw) || t.mtype.Event?
  {
    var canId := PayloadCanId(t.payload);
    RawRecord(t.number, t.offsetUs, t.mtype, t.bus, canId, t.direction, t.length, BytesText(PayloadBytes(t.payload)))
  }

  /** Decoding undoes encoding: every valid record survives being written as
      row fields and read back. */
  lemma DecodeEncode(t: TraceRecord, kind: LengthKind)
    requires ValidTraceRecord(t, kind)
    ensures DecodeRecord(EncodeRecord(t), kind) == Success(t)
  {
    var raw := EncodeRecord(t);
    var bytes := PayloadBytes(t.payload);
    assert DecodeBytes(raw.data) == Some(bytes) by {
      BytesRoundTrip(bytes);
    }
    assert DecodePayload(raw.mtype, raw.canId, bytes, raw.length, kind) == Success(t.payload) by {
      PayloadRoundTrip(t, kind);
    }
    DecodeRecordOf(raw, kind, bytes, t.payload);
  }

  /** A row decodes to its columns and its payload once its bytes and its
      payload decode. */
  lemma DecodeRecordOf(raw: RawRecord, kind: LengthKind, bytes: seq<Byte>, payload: Payload)
    requires !raw.mtype.Event? && LengthInRange(raw.length, kind)
    requires DecodeBytes(raw.data) == Some(bytes)
    requires DecodePayload(raw.mtype, raw.canId, bytes, raw.length, kind) == Success(payload)
    ensures DecodeRecord(raw, kind)
            == Success(TraceRecord(raw.number, raw.offsetUs, raw.mtype, raw.bus, raw.direction, raw.length, payload))
  {
  }

  lemma PayloadRoundTrip(t: TraceRecord, kind: LengthKind)
    requires ValidTraceRecord(t, kind)
    ensures DecodePayload(t.mtype, PayloadCanId(t.payload), PayloadBytes(t.payload), t.length, kind) == Success(t.payload)
  {
    if HasNoCanId(t.mtype) {
      FixedPayloadRoundTrip(t.mtype, t.payload, t.length, kind);
    } else {
      FramePayloadRoundTrip(t.mtype, t.payload, t.length, kind);
    }
  }

  lemma FixedPayloadRoundTrip(mtype: MessageType, p: Payload, length: nat, kind: LengthKind)
    requires HasNoCanId(mtype)
    requires mtype.HwStatusChange? ==> p.StatusCode? && p.code < 0x1_0000_0000
    requires mtype.ErrorCounterChange? ==> p.ErrorCounters?
    requires mtype.ErrorFrame? ==> p.ErrorFrameInfo? && |p.info| == ErrorFrameSize
    requires kind == DataLength ==> length == FixedPayloadSize(mtype)
    ensures DecodePayload(mtype, PayloadCanId(p), PayloadBytes(p), length, kind) == Success(p)
  {
    if p.StatusCode? {
      StatusCodeOfBytes(StatusBytes(p.code));
    }
  }

  lemma FramePayloadRoundTrip(mtype: MessageType, p: Payload, length: nat, kind: LengthKind)
    requires !HasNoCanId(mtype) && !mtype.Event?
    requires mtype.RtrFrame? ==> p.RemoteRequest? && ValidCanId(p.id)
    requires !mtype.RtrFrame? ==> p.FrameData? && ValidCanId(p.id) && (kind == DataLength ==> |p.bytes| == length)
    ensures DecodePayload(mtype, PayloadCanId(p), PayloadBytes(p), length, kind) == Success(p)
  {
    CanIdRoundTrip(p.id);
  }

  /** A valid record written as a data line is read back by the grammar and
      decoded into the same record. */
  lemma TraceLineRoundTrip(t: TraceRecord, kind: LengthKind)
    requires ValidTraceRecord(t, kind)
    ensures ParseDataLine(RenderDataLine(EncodeRecord(t))) == Some(EncodeRecord(t))
    ensures DecodeRecord(ParseDataLine(RenderDataLine(EncodeRecord(t))).value, kind) == Success(t)
  {
    DataLineRoundTrip(EncodeRecord(t));
    DecodeEncode(t, kind);
  }
}
