/** The data-line grammar of a version 2.1 trace: nine fields in the fixed
    order message number, time offset, type, bus, CAN-ID, direction,
    reserved, length and data, separated by white space, the data being hex
    words separated by single blanks. */
module TrcRecord {
  import opened Wrappers
  import opened Lexical

  // ---------------------------------------------------------------------
  // T: message type
  // ---------------------------------------------------------------------

  /** The message types of the T column. */
  datatype MessageType =
    | CanDataFrame        // "DT": CAN or J1939 data frame
    | CanFdFrame          // "FD": CAN FD data frame
    | CanFdBrsFrame       // "FB": CAN FD data frame, Bit Rate Switch set
    | CanFdEsiFrame       // "FE": CAN FD data frame, Error State Indicator set
    | CanFdBrsEsiFrame    // "BI": CAN FD data frame, BRS and ESI set
    | RtrFrame            // "RR": remote request frame
    | HwStatusChange      // "ST": hardware status change
    | ErrorCounterChange  // "EC": error counter change
    | ErrorFrame          // "ER": error frame
    | Event               // "EV": user-defined event text

  function TypeTag(t: MessageType): string
  {
    match t
    case CanDataFrame => "DT"
    case CanFdFrame => "FD"
    case CanFdBrsFrame => "FB"
    case CanFdEsiFrame => "FE"
    case CanFdBrsEsiFrame => "BI"
    case RtrFrame => "RR"
    case HwStatusChange => "ST"
    case ErrorCounterChange => "EC"
    case ErrorFrame => "ER"
    case Event => "EV"
  }

  /** The type token of a data line: one of nine tags. The grammar has no
      alternative for "EV", so an event line is never a data line. */
  function ParseMessageType(tok: string): (r: Option<MessageType>)
    ensures r.Some? ==> TypeTag(r.value) == tok && r.value != Event
  {
    if tok == "DT" then Some(CanDataFrame)
    else if tok == "FD" then Some(CanFdFrame)
    else if tok == "FB" then Some(CanFdBrsFrame)
    else if tok == "FE" then Some(CanFdEsiFrame)
    else if tok == "BI" then Some(CanFdBrsEsiFrame)
    else if tok == "RR" then Some(RtrFrame)
    else if tok == "ST" then Some(HwStatusChange)
    else if tok == "EC" then Some(ErrorCounterChange)
    else if tok == "ER" then Some(ErrorFrame)
    else None
  }

  /** Every type but Event is read back from its tag; "EV" is refused. */
  lemma MessageTypeTags(t: MessageType)
    ensures ParseMessageType(TypeTag(t)) == if t == Event then None else Some(t)
  {
  }

  // ---------------------------------------------------------------------
  // d: direction
  // ---------------------------------------------------------------------

  datatype Direction = Rx | Tx

  function DirectionTag(d: Direction): string
  {
    match d
    case Rx => "Rx"
    case Tx => "Tx"
  }

  /** "Rx" (received) or "Tx" (transmitted), nothing else. */
  function ParseDirection(tok: string): (r: Option<Direction>)
    ensures r.Some? <==> tok == "Rx" || tok == "Tx"
    ensures r.Some? ==> DirectionTag(r.value) == tok
  {
    if tok == "Rx" then Some(Rx) else if tok == "Tx" then Some(Tx) else None
  }

  // ---------------------------------------------------------------------
  // B: bus
  // ---------------------------------------------------------------------

  /** A bus 1..16, or `-` for a row that is not tied to a specific bus. */
  datatype Bus = Bus(number: nat) | NoBus

  predicate ValidBus(b: Bus) { b.Bus? ==> 1 <= b.number <= 16 }

  function BusText(b: Bus): string
  {
    match b
    case Bus(n) => NatText(n)
    case NoBus => "-"
  }

  /** The bus token: exactly one of "1" .. "16" or "-". */
  function ParseBus(tok: string): (r: Option<Bus>)
    ensures r.Some? ==> ValidBus(r.value) && BusText(r.value) == tok
  {
    if tok == "-" then Some(NoBus)
    else if IsNumber(tok) && |tok| <= 2 && 1 <= DecimalValue(tok) <= 16 && NatText(DecimalValue(tok)) == tok
    then Some(Bus(DecimalValue(tok)))
    else None
  }

  lemma NatTextShort(n: nat)
    requires n < 100
    ensures |NatText(n)| <= 2
  {
  }

  /** Every valid bus is read back from its token. */
  lemma ParseBusOf(b: Bus)
    requires ValidBus(b)
    ensures ParseBus(BusText(b)) == Some(b)
  {
    if b.Bus? {
      NatTextShort(b.number);
      assert NatText(b.number) != "-" by {
        assert IsDigit(NatText(b.number)[0]);
      }
    }
  }

  // ---------------------------------------------------------------------
  // N, L/l: decimal numbers; O: time offset
  // ---------------------------------------------------------------------

  /** `Word(nums)`, read as a number. */
  function ParseNumber(tok: string): (r: Option<nat>)
    ensures r.Some? <==> IsNumber(tok)
    ensures r.Some? ==> NatText(r.value) == tok || tok[0] == '0'
  {
    if IsNumber(tok) then
      NatTextCanonical(tok);
      Some(DecimalValue(tok))
    else None
  }

  /** A numeral without a leading zero is the shortest numeral of its value. */
  lemma {:induction false} NatTextCanonical(s: string)
    requires IsNumber(s)
    ensures s[0] != '0' ==> NatText(DecimalValue(s)) == s
    decreases |s|
  {
    if s[0] != '0' && |s| > 1 {
      var front := s[..|s| - 1];
      assert front[0] == s[0];
      NatTextCanonical(front);
      var n := DecimalValue(s);
      assert n == DecimalValue(front) * 10 + DigitValue(s[|s| - 1]);
      assert DecimalValue(front) != 0 by {
        assert NatText(0) == "0";
      }
      assert n / 10 == DecimalValue(front) && n % 10 == DigitValue(s[|s| - 1]);
      assert DigitChar(DigitValue(s[|s| - 1])) == s[|s| - 1];
      assert s == front + [s[|s| - 1]];
    } else if s[0] != '0' {
      assert DigitChar(DigitValue(s[0])) == s[0];
    }
  }

  /** The token "0" reads as zero. */
  lemma ParseNumberZero()
    ensures ParseNumber("0") == Some(0)
  {
    assert "0"[..0] == [];
  }

  /** A leading zero does not change what a number token reads as; with
      NatTextCanonical and ParseNumberZero this fixes the value of every
      number token. */
  lemma ParseNumberLeadingZero(t: string)
    requires IsNumber(t)
    ensures ParseNumber("0" + t) == ParseNumber(t)
  {
    assert forall i | 0 <= i < |"0" + t| :: IsDigit(("0" + t)[i]) by {
      forall i | 0 <= i < |"0" + t| ensures IsDigit(("0" + t)[i]) {
        if i > 0 {
          assert ("0" + t)[i] == t[i - 1];
        }
      }
    }
    LeadingZeroValue(t);
  }

  lemma {:induction false} LeadingZeroValue(t: string)
    requires AllDigits(t) && AllDigits("0" + t)
    ensures DecimalValue("0" + t) == DecimalValue(t)
    decreases |t|
  {
    var z := "0" + t;
    if t == [] {
      assert z[..0] == [];
    } else {
      var front := t[..|t| - 1];
      assert z[..|z| - 1] == "0" + front;
      assert z[|z| - 1] == t[|t| - 1];
      assert AllDigits(front) && AllDigits("0" + front) by {
        assert forall i | 0 <= i < |front| :: front[i] == t[i];
        assert forall i | 0 <= i < |"0" + front| :: ("0" + front)[i] == z[i];
      }
      LeadingZeroValue(front);
    }
  }

  /** Microseconds in a millisecond: the time offset is `ms.µµµ`. */
  const MicrosPerMilli: nat := 1000

  /** The time offset token `ms.frac`, both digit runs non-empty, in whole
      microseconds: the milliseconds times 1000 plus the fraction read as
      thousandths of a millisecond (rounded down past the third digit). */
  function ParseTimeOffset(tok: string): (r: Option<nat>)
    ensures r.Some? ==> SplitAtFirst(tok, '.').Some?
    ensures r.Some? ==>
              var ms := SplitAtFirst(tok, '.').value.0;
              var frac := SplitAtFirst(tok, '.').value.1;
              && tok == ms + "." + frac && IsNumber(ms) && IsNumber(frac)
              && r.value / MicrosPerMilli == DecimalValue(ms)
              && r.value % MicrosPerMilli == ScaledFraction(frac, MicrosPerMilli)
  {
    match SplitAtFirst(tok, '.')
    case None => None
    case Some((ms, frac)) =>
      if IsNumber(ms) && IsNumber(frac) then
        MillisOfMicros(DecimalValue(ms), ScaledFraction(frac, MicrosPerMilli));
        Some(OffsetMicros(ms, frac))
      else None
  }

  /** The microseconds of the two digit runs of a time offset. */
  function OffsetMicros(ms: string, frac: string): nat
    requires AllDigits(ms) && AllDigits(frac)
  {
    DecimalValue(ms) * MicrosPerMilli + ScaledFraction(frac, MicrosPerMilli)
  }

  /** A time offset is one or more digits, a '.' and one or more digits;
      nothing else is one. */
  lemma TimeOffsetShape(tok: string)
    ensures ParseTimeOffset(tok).Some? <==> IsDotted(tok, true)
  {
    DottedBySplit(tok, true);
  }

  lemma Pow10Three()
    ensures Pow(10, 3) == 1000
  {
    assert Pow(10, 1) == 10;
    assert Pow(10, 2) == 100;
  }

  lemma MillisOfMicros(m: nat, u: nat)
    requires u < 1000
    ensures (m * 1000 + u) / 1000 == m && (m * 1000 + u) % 1000 == u
  {
  }

  lemma ThreeFractionDigits(frac: string)
    requires AllDigits(frac) && |frac| == 3
    ensures ScaledFraction(frac, MicrosPerMilli) == DecimalValue(frac)
  {
    Pow10Three();
    var u := ScaledFraction(frac, MicrosPerMilli);
    assert u * 1000 <= DecimalValue(frac) * 1000 < (u + 1) * 1000;
  }

  lemma ParseTimeOffsetOf(ms: string, frac: string)
    requires IsNumber(ms) && IsNumber(frac)
    ensures ParseTimeOffset(ms + ['.'] + frac) == Some(OffsetMicros(ms, frac))
  {
    assert SplitAtFirst(ms + ['.'] + frac, '.') == Some((ms, frac)) by {
      NoDotInDigits(ms);
      SplitAtFirstOf(ms, frac, '.');
    }
  }

  /** The offset `m.u` decodes to non-negative microseconds whose millisecond
      part is m; with the documented three fraction digits it is exactly
      m * 1000 + u. */
  lemma TimeOffsetDecodes(ms: string, frac: string)
    requires IsNumber(ms) && IsNumber(frac)
    ensures ParseTimeOffset(ms + "." + frac).Some?
    ensures var us := ParseTimeOffset(ms + "." + frac).value;
            && us / MicrosPerMilli == DecimalValue(ms)
            && (|frac| == 3 ==> us == DecimalValue(ms) * 1000 + DecimalValue(frac))
  {
    assert ms + "." + frac == ms + ['.'] + frac;
    ParseTimeOffsetOf(ms, frac);
    var u := ScaledFraction(frac, MicrosPerMilli);
    MillisOfMicros(DecimalValue(ms), u);
    if |frac| == 3 {
      ThreeFractionDigits(frac);
    }
  }

  /** Three decimal digits for a value below 1000, leading zeros kept. */
  function Pad3(x: nat): (s: string)
    requires x < 1000
    ensures |s| == 3 && AllDigits(s) && DecimalValue(s) == x
  {
    var h, t, u := x / 100, x / 10 % 10, x % 10;
    ThreeDigits(x);
    var s := [DigitChar(h), DigitChar(t), DigitChar(u)];
    assert s[..2][..1] == s[..1] && s[..1][..0] == [];
    assert DecimalValue(s[..1]) == h;
    assert DecimalValue(s[..2]) == h * 10 + t;
    s
  }

  lemma ThreeDigits(x: nat)
    requires x < 1000
    ensures x / 100 < 10 && x / 10 % 10 < 10
    ensures (x / 100 * 10 + x / 10 % 10) * 10 + x % 10 == x
  {
    assert x / 10 == x / 100 * 10 + x / 10 % 10;
  }

  /** The `ms.µµµ` text of a time offset. */
  function OffsetText(us: nat): string
  {
    NatText(us / MicrosPerMilli) + "." + Pad3(us % MicrosPerMilli)
  }

  /** Every time offset is read back from its text. */
  lemma TimeOffsetRoundTrip(us: nat)
    ensures ParseTimeOffset(OffsetText(us)) == Some(us)
  {
    TimeOffsetDecodes(NatText(us / MicrosPerMilli), Pad3(us % MicrosPerMilli));
  }

  // ---------------------------------------------------------------------
  // I: CAN-ID
  // ---------------------------------------------------------------------

  /** The CAN-ID token: hex digits, or the placeholder `-`. */
  datatype CanIdToken = HexId(digits: string) | NoId

  function CanIdTokenText(t: CanIdToken): string
  {
    match t
    case HexId(d) => d
    case NoId => "-"
  }

  /** The CAN-ID token, as hex digits and, when `dashAllowed`, as the `-`
      that the types EC, ER and ST carry. */
  function ParseCanIdToken(tok: string, dashAllowed: bool): (r: Option<CanIdToken>)
    ensures r.Some? ==> CanIdTokenText(r.value) == tok
    ensures r.Some? && r.value.HexId? ==> IsHexWord(r.value.digits)
    ensures r.Some? && r.value.NoId? ==> dashAllowed
    ensures IsHexWord(tok) ==> r == Some(HexId(tok))
  {
    if IsHexWord(tok) then Some(HexId(tok))
    else if dashAllowed && tok == "-" then Some(NoId)
    else None
  }

  /** Every CAN-ID token the rule can produce is read back from its text. */
  lemma ParseCanIdTokenOf(t: CanIdToken, dashAllowed: bool)
    requires t.HexId? ==> IsHexWord(t.digits)
    requires t.NoId? ==> dashAllowed
    ensures ParseCanIdToken(CanIdTokenText(t), dashAllowed) == Some(t)
  {
    if t.NoId? {
      assert !IsHexWord("-") by {
        assert !IsHexDigit("-"[0]);
      }
    }
  }

  // ---------------------------------------------------------------------
  // D: data
  // ---------------------------------------------------------------------

  /** The data column: the rest of the line, which is empty or hex words
      separated by single blanks (white space around it is skipped). */
  function ParseDataField(rest: string): (r: Option<seq<string>>)
    ensures r.Some? ==> forall i | 0 <= i < |r.value| :: IsHexWord(r.value[i])
    ensures r.Some? ==> TrimEnd(SkipSpaces(rest)) == Join(r.value, ' ')
  {
    var t := TrimEnd(SkipSpaces(rest));
    if t == "" then Some([])
    else
      var words := Split(t, ' ');
      if forall i | 0 <= i < |words| :: IsHexWord(words[i]) then Some(words) else None
  }

  // ---------------------------------------------------------------------
  // A data line
  // ---------------------------------------------------------------------

  /** The fields of one data line, as the grammar reads them. The reserved
      column is always `-` and so is not kept. */
  datatype RawRecord = RawRecord(
    number: nat,
    offsetUs: nat,
    mtype: MessageType,
    bus: Bus,
    canId: CanIdToken,
    direction: Direction,
    length: nat,
    data: seq<string>)

  /** What every data line the grammar accepts satisfies. */
  predicate ValidRaw(r: RawRecord)
  {
    && r.mtype != Event
    && ValidBus(r.bus)
    && (r.canId.HexId? ==> IsHexWord(r.canId.digits))
    && (forall i | 0 <= i < |r.data| :: IsHexWord(r.data[i]))
  }

  /** The first four fields of a data line (number, offset, type, bus) and
      the text behind them. */
  function ParseLeading(line: string): (r: Option<(nat, nat, MessageType, Bus, string)>)
    ensures r.Some? ==> r.value.2 != Event && ValidBus(r.value.3)
    ensures var p := TakeTokens(line, 4);
            r.Some? ==>
              && ParseNumber(p.0[0]) == Some(r.value.0) && ParseTimeOffset(p.0[1]) == Some(r.value.1)
              && TypeTag(r.value.2) == p.0[2] && BusText(r.value.3) == p.0[3] && r.value.4 == p.1
  {
    var p := TakeTokens(line, 4);
    var number :- ParseNumber(p.0[0]);
    var offset :- ParseTimeOffset(p.0[1]);
    var mtype :- ParseMessageType(p.0[2]);
    var bus :- ParseBus(p.0[3]);
    Some((number, offset, mtype, bus, p.1))
  }

  /** The last five fields of a data line (CAN-ID, direction, reserved,
      length, data). */
  function ParseTrailing(s: string, dashAllowed: bool): (r: Option<(CanIdToken, Direction, nat, seq<string>)>)
    ensures r.Some? && r.value.0.HexId? ==> IsHexWord(r.value.0.digits)
    ensures r.Some? && !dashAllowed ==> r.value.0.HexId?
    ensures r.Some? ==> forall i | 0 <= i < |r.value.3| :: IsHexWord(r.value.3[i])
    ensures var p := TakeTokens(s, 4);
            r.Some? ==>
              && CanIdTokenText(r.value.0) == p.0[0] && DirectionTag(r.value.1) == p.0[1]
              && p.0[2] == "-" && ParseNumber(p.0[3]) == Some(r.value.2)
              && ParseDataField(p.1) == Some(r.value.3)
  {
    var p := TakeTokens(s, 4);
    var canId :- ParseCanIdToken(p.0[0], dashAllowed);
    var direction :- ParseDirection(p.0[1]);
    if p.0[2] != "-" then None
    else
      var length :- ParseNumber(p.0[3]);
      var data :- ParseDataField(p.1);
      Some((canId, direction, length, data))
  }

  /** A data line: the nine fields in their fixed order. This order does
      not depend on the COLUMNS line. */
  function ParseLineData(line: string, dashAllowed: bool): (r: Option<RawRecord>)
    ensures r.Some? ==> ValidRaw(r.value)
    ensures r.Some? && !dashAllowed ==> r.value.canId.HexId?
  {
    var lead :- ParseLeading(line);
    var trail :- ParseTrailing(lead.4, dashAllowed);
    Some(RawRecord(lead.0, lead.1, lead.2, lead.3, trail.0, trail.1, trail.2, trail.3))
  }

  /** A line is a data line exactly when each of its first eight tokens is
      read by its field's rule, the seventh being the reserved `-`, and the
      text behind them is a data field; the record's fields are then those
      readings, in the order of the tokens. */
  lemma DataLineFields(line: string, dashAllowed: bool)
    ensures var r := ParseLineData(line, dashAllowed);
            var p := TakeTokens(line, 8);
            && (r.Some? <==>
                  && ParseNumber(p.0[0]).Some? && ParseTimeOffset(p.0[1]).Some?
                  && ParseMessageType(p.0[2]).Some? && ParseBus(p.0[3]).Some?
                  && ParseCanIdToken(p.0[4], dashAllowed).Some? && ParseDirection(p.0[5]).Some?
                  && p.0[6] == "-" && ParseNumber(p.0[7]).Some? && ParseDataField(p.1).Some?)
            && (r.Some? ==>
                  && ParseNumber(p.0[0]) == Some(r.value.number)
                  && ParseTimeOffset(p.0[1]) == Some(r.value.offsetUs)
                  && TypeTag(r.value.mtype) == p.0[2] && BusText(r.value.bus) == p.0[3]
                  && CanIdTokenText(r.value.canId) == p.0[4]
                  && DirectionTag(r.value.direction) == p.0[5] && p.0[6] == "-"
                  && ParseNumber(p.0[7]) == Some(r.value.length)
                  && ParseDataField(p.1) == Some(r.value.data))
  {
    EightTokens(line);
  }

  /** The eight tokens of a data line are the four the leading fields are
      read from and then the four of the trailing fields. */
  lemma EightTokens(line: string)
    ensures var a := TakeTokens(line, 4);
            var b := TakeTokens(a.1, 4);
            var p := TakeTokens(line, 8);
            && p.1 == b.1
            && p.0[0] == a.0[0] && p.0[1] == a.0[1] && p.0[2] == a.0[2] && p.0[3] == a.0[3]
            && p.0[4] == b.0[0] && p.0[5] == b.0[1] && p.0[6] == b.0[2] && p.0[7] == b.0[3]
  {
    TakeTokensSplit(line, 4, 4);
  }

  /** The data-line rule with the CAN-ID as documented: hex, or `-`. */
  function ParseDataLine(line: string): (r: Option<RawRecord>)
    ensures r.Some? ==> ValidRaw(r.value)
  {
    ParseLineData(line, true)
  }

  /** The data-line rule as the grammar writes it: the CAN-ID is hex only. */
  function ParseDataLineAsWritten(line: string): (r: Option<RawRecord>)
    ensures r.Some? ==> ValidRaw(r.value) && r.value.canId.HexId?
  {
    ParseLineData(line, false)
  }

  /** The tokens of a data line written with one blank between fields. */
  function RecordTokens(r: RawRecord): seq<string>
  {
    [ NatText(r.number), OffsetText(r.offsetUs), TypeTag(r.mtype), BusText(r.bus),
      CanIdTokenText(r.canId), DirectionTag(r.direction), "-", NatText(r.length) ]
    + r.data
  }

  /** The text of a data line in the layout N,O,T,B,I,d,R,l|L,D. */
  function RenderDataLine(r: RawRecord): string
  {
    Join(RecordTokens(r), ' ')
  }

  lemma DataFieldOf(data: seq<string>)
    requires forall i | 0 <= i < |data| :: IsHexWord(data[i])
    ensures ParseDataField(Rest(data)) == Some(data)
  {
    if data != [] {
      forall i | 0 <= i < |data| ensures IsToken(data[i]) && ' ' !in data[i] {
        assert forall j | 0 <= j < |data[i]| :: IsHexDigit(data[i][j]);
      }
      SkipBlankBeforeToken(data);
      JoinEndsWithToken(data);
      SplitOfJoin(data, ' ');
    }
  }

  /** The data column is read whatever white space pads it on either side,
      as when a writer aligns the data words in a column of their own. */
  lemma DataFieldPadded(pre: string, data: seq<string>, post: string)
    requires IsBlank(pre) && IsBlank(post)
    requires forall i | 0 <= i < |data| :: IsHexWord(data[i])
    ensures ParseDataField(pre + Join(data, ' ') + post) == Some(data)
  {
    var j := Join(data, ' ');
    assert TrimEnd(SkipSpaces(pre + j + post)) == j by {
      PaddedJoin(pre, data, post);
    }
    if data != [] {
      HexWordsSplit(data);
    }
  }

  /** The padding around joined hex words is stripped on both sides. */
  lemma PaddedJoin(pre: string, data: seq<string>, post: string)
    requires IsBlank(pre) && IsBlank(post)
    requires forall i | 0 <= i < |data| :: IsHexWord(data[i])
    ensures TrimEnd(SkipSpaces(pre + Join(data, ' ') + post)) == Join(data, ' ')
  {
    if data == [] {
      PaddedNothing(pre, post);
    } else {
      forall i | 0 <= i < |data| ensures IsToken(data[i]) {
        HexWordIsToken(data[i]);
      }
      JoinEndsWithToken(data);
      PaddedToken(pre, Join(data, ' '), post);
    }
  }

  lemma PaddedNothing(pre: string, post: string)
    requires IsBlank(pre) && IsBlank(post)
    ensures TrimEnd(SkipSpaces(pre + "" + post)) == ""
  {
    assert IsBlank(pre + post);
    SkipSpacesOfBlank(pre + post, "");
    assert pre + "" + post == pre + post + "";
  }

  lemma PaddedToken(pre: string, j: string, post: string)
    requires IsBlank(pre) && IsBlank(post)
    requires |j| > 0 && !IsSpace(j[0]) && !IsSpace(j[|j| - 1])
    ensures TrimEnd(SkipSpaces(pre + j + post)) == j
  {
    assert pre + j + post == pre + (j + post);
    SkipSpacesOfBlank(pre, j + post);
    TrimEndOfBlank(j, post);
  }

  /** Hex words joined by blanks split back into themselves. */
  lemma HexWordsSplit(data: seq<string>)
    requires |data| > 0
    requires forall i | 0 <= i < |data| :: IsHexWord(data[i])
    ensures Split(Join(data, ' '), ' ') == data
  {
    forall i | 0 <= i < |data| ensures ' ' !in data[i] {
      assert forall k | 0 <= k < |data[i]| :: IsHexDigit(data[i][k]);
    }
    SplitOfJoin(data, ' ');
  }

  lemma HexWordIsToken(s: string)
    requires IsHexWord(s)
    ensures IsToken(s)
  {
    assert forall j | 0 <= j < |s| :: IsHexDigit(s[j]);
  }

  lemma NumberIsToken(s: string)
    requires IsNumber(s)
    ensures IsToken(s)
  {
    assert forall j | 0 <= j < |s| :: IsDigit(s[j]);
  }

  lemma OffsetTextIsToken(us: nat)
    ensures IsToken(OffsetText(us))
  {
    var m := NatText(us / MicrosPerMilli);
    var f := Pad3(us % MicrosPerMilli);
    var o := OffsetText(us);
    assert o == m + "." + f;
    forall j | 0 <= j < |o| ensures !IsSpace(o[j]) {
      if j < |m| {
        assert IsDigit(m[j]);
      } else if j > |m| {
        assert o[j] == f[j - |m| - 1] && IsDigit(f[j - |m| - 1]);
      }
    }
  }

  lemma TokensOfRecord(r: RawRecord)
    requires ValidRaw(r)
    ensures forall i | 0 <= i < |RecordTokens(r)| :: IsToken(RecordTokens(r)[i])
  {
    var head := [ NatText(r.number), OffsetText(r.offsetUs), TypeTag(r.mtype), BusText(r.bus),
                  CanIdTokenText(r.canId), DirectionTag(r.direction), "-", NatText(r.length) ];
    assert RecordTokens(r) == head + r.data;
    NumberIsToken(head[0]);
    OffsetTextIsToken(r.offsetUs);
    if r.bus.Bus? {
      NumberIsToken(head[3]);
    }
    if r.canId.HexId? {
      HexWordIsToken(head[4]);
    }
    NumberIsToken(head[7]);
    assert forall i | 0 <= i < |head| :: IsToken(head[i]);
    forall i | 0 <= i < |r.data| ensures IsToken(r.data[i]) {
      HexWordIsToken(r.data[i]);
    }
  }


  /** The first four fields, read from a line of tokens whose first four
      the field rules accept. */
  lemma LeadingOfTokens(ts: seq<string>, number: nat, offset: nat, mtype: MessageType, bus: Bus)
    requires |ts| >= 4
    requires forall i | 0 <= i < |ts| :: IsToken(ts[i])
    requires ParseNumber(ts[0]) == Some(number)
    requires ParseTimeOffset(ts[1]) == Some(offset)
    requires ParseMessageType(ts[2]) == Some(mtype)
    requires ParseBus(ts[3]) == Some(bus)
    ensures ParseLeading(Join(ts, ' ')) == Some((number, offset, mtype, bus, Rest(ts[4..])))
  {
    TakeTokensOfLine(ts, 4);
    var f := ts[..4];
    assert f[0] == ts[0] && f[1] == ts[1] && f[2] == ts[2] && f[3] == ts[3];
  }

  /** The last five fields, read from the text behind a token list whose
      fields the rules accept. */
  lemma TrailingOfTokens(ts: seq<string>, dashAllowed: bool, canId: CanIdToken, direction: Direction, length: nat)
    requires |ts| >= 4
    requires forall i | 0 <= i < |ts| :: IsToken(ts[i])
    requires ParseCanIdToken(ts[0], dashAllowed) == Some(canId)
    requires ParseDirection(ts[1]) == Some(direction)
    requires ts[2] == "-"
    requires ParseNumber(ts[3]) == Some(length)
    requires ParseDataField(Rest(ts[4..])) == Some(ts[4..])
    ensures ParseTrailing(Rest(ts), dashAllowed) == Some((canId, direction, length, ts[4..]))
  {
    TakeTokensOfRest(ts, 4);
    var f := ts[..4];
    assert f[0] == ts[0] && f[1] == ts[1] && f[2] == ts[2] && f[3] == ts[3];
  }

  lemma LeadingOf(r: RawRecord)
    requires ValidRaw(r)
    ensures ParseLeading(RenderDataLine(r)) == Some((r.number, r.offsetUs, r.mtype, r.bus, Rest(RecordTokens(r)[4..])))
  {
    var ts := RecordTokens(r);
    TokensOfRecord(r);
    var number, offset, mtype, bus := NatText(r.number), OffsetText(r.offsetUs), TypeTag(r.mtype), BusText(r.bus);
    NatTextCanonical(number);
    TimeOffsetRoundTrip(r.offsetUs);
    MessageTypeTags(r.mtype);
    ParseBusOf(r.bus);
    assert ts[0] == number && ts[1] == offset && ts[2] == mtype && ts[3] == bus;
    LeadingOfTokens(ts, r.number, r.offsetUs, r.mtype, r.bus);
  }

  lemma TrailingOf(r: RawRecord, dashAllowed: bool)
    requires ValidRaw(r)
    requires r.canId.NoId? ==> dashAllowed
    ensures ParseTrailing(Rest(RecordTokens(r)[4..]), dashAllowed) == Some((r.canId, r.direction, r.length, r.data))
  {
    var tail := RecordTokens(r)[4..];
    assert forall i | 0 <= i < |tail| :: IsToken(tail[i]) by {
      TokensOfRecord(r);
    }
    assert tail[4..] == r.data;
    assert ParseCanIdToken(tail[0], dashAllowed) == Some(r.canId) by {
      assert tail[0] == CanIdTokenText(r.canId);
      ParseCanIdTokenOf(r.canId, dashAllowed);
    }
    assert ParseDirection(tail[1]) == Some(r.direction);
    assert ParseNumber(tail[3]) == Some(r.length) by {
      NatTextCanonical(NatText(r.length));
    }
    DataFieldOf(r.data);
    TrailingOfTokens(tail, dashAllowed, r.canId, r.direction, r.length);
  }

  /** Every record the grammar can produce, written out with single blanks,
      is read back as the same record; with the postcondition of
      ParseDataLine this makes the rule and the writer inverse. */
  lemma DataLineRoundTrip(r: RawRecord)
    requires ValidRaw(r)
    ensures ParseDataLine(RenderDataLine(r)) == Some(r)
  {
    LeadingOf(r);
    TrailingOf(r, true);
  }

  /** The grammar as written never reads more than the documented rule: what
      it accepts, the documented rule accepts the same way. */
  lemma AsWrittenWithinDocumented(line: string)
    ensures ParseDataLineAsWritten(line).Some? ==> ParseDataLine(line) == ParseDataLineAsWritten(line)
  {
    var lead := ParseLeading(line);
    if lead.Some? {
      TrailingAsWrittenWithinDocumented(lead.value.4);
    }
  }

  lemma TrailingAsWrittenWithinDocumented(s: string)
    ensures ParseTrailing(s, false).Some? ==> ParseTrailing(s, true) == ParseTrailing(s, false)
  {
    var tok := TakeTokens(s, 4).0[0];
    if ParseCanIdToken(tok, false).Some? {
      assert ParseCanIdToken(tok, true) == ParseCanIdToken(tok, false);
    }
  }

  /** A line for an EC, ER or ST row written as documented, with `-` as its
      CAN-ID, is refused by the grammar as written. */
  lemma PlaceholderRowRefusedAsWritten(r: RawRecord)
    requires ValidRaw(r) && r.canId == NoId
    ensures ParseDataLine(RenderDataLine(r)) == Some(r)
    ensures ParseDataLineAsWritten(RenderDataLine(r)) == None
  {
    DataLineRoundTrip(r);
    AsWrittenWithinDocumented(RenderDataLine(r));
  }
}
