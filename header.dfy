/** The three control lines that open a version 2.1 trace, in their fixed
    order: `;$FILEVERSION=`, `;$STARTTIME=` and `;$COLUMNS=`. */
module TrcHeader {
  import opened Wrappers
  import opened Lexical
  import TrcVersion

  const StartTimePrefix: string := ";$STARTTIME="
  const ColumnsPrefix: string := ";$COLUMNS="

  /** Milliseconds in a 24-hour day, the unit of the STARTTIME fraction. */
  const MsPerDay: nat := 86400000

  // ---------------------------------------------------------------------
  // ;$FILEVERSION=<digits>.<digits>
  // ---------------------------------------------------------------------

  /** The version number of a FILEVERSION line, kept as text. */
  function ParseFileVersion(line: string): (r: Option<string>)
    ensures r.Some? ==> line == TrcVersion.FileVersionPrefix + r.value
  {
    if !(TrcVersion.FileVersionPrefix <= line) then None
    else
      var v := line[|TrcVersion.FileVersionPrefix|..];
      match SplitAtFirst(v, '.')
      case None => None
      case Some((major, minor)) =>
        if IsNumber(major) && IsNumber(minor) then Some(v) else None
  }

  /** The line of version `major.minor` is read as that version. */
  lemma FileVersionOf(major: string, minor: string)
    requires IsNumber(major) && IsNumber(minor)
    ensures ParseFileVersion(TrcVersion.FileVersionPrefix + major + "." + minor) == Some(major + "." + minor)
  {
    var line := TrcVersion.FileVersionPrefix + major + "." + minor;
    assert line[|TrcVersion.FileVersionPrefix|..] == major + ['.'] + minor;
    NoDotInDigits(major);
    SplitAtFirstOf(major, minor, '.');
  }

  /** A FILEVERSION line is the prefix and then one or more digits, a '.'
      and one or more digits; nothing else is one. */
  lemma FileVersionShape(line: string)
    ensures ParseFileVersion(line).Some? <==>
              TrcVersion.FileVersionPrefix <= line
              && IsDotted(line[|TrcVersion.FileVersionPrefix|..], true)
  {
    if TrcVersion.FileVersionPrefix <= line {
      DottedBySplit(line[|TrcVersion.FileVersionPrefix|..], true);
    }
  }

  // ---------------------------------------------------------------------
  // ;$STARTTIME=<digits>*.<digits>*
  // ---------------------------------------------------------------------

  /** The absolute start of a trace: whole days since 1899-12-30 and the
      milliseconds elapsed of the following day. */
  datatype StartTime = StartTime(days: nat, msOfDay: nat)

  /** The milliseconds a decimal day fraction `.frac` stands for, rounded
      down to the 1 ms resolution of the header. */
  function DayFractionMs(frac: string): (ms: nat)
    requires AllDigits(frac)
    ensures ms < MsPerDay
    ensures ms * Pow(10, |frac|) <= DecimalValue(frac) * MsPerDay < (ms + 1) * Pow(10, |frac|)
  {
    ScaledFraction(frac, MsPerDay)
  }

  /** The start time of a STARTTIME line; either digit run may be empty. */
  function ParseStartTime(line: string): (r: Option<StartTime>)
    ensures r.Some? ==> StartTimePrefix <= line && r.value.msOfDay < MsPerDay
  {
    if !(StartTimePrefix <= line) then None
    else
      var v := line[|StartTimePrefix|..];
      match SplitAtFirst(v, '.')
      case None => None
      case Some((whole, frac)) =>
        if AllDigits(whole) && AllDigits(frac)
        then Some(StartTime(DecimalValue(whole), DayFractionMs(frac)))
        else None
  }

  /** A STARTTIME line is the prefix and then digits, a '.' and digits,
      either run possibly empty; nothing else is one. */
  lemma StartTimeShape(line: string)
    ensures ParseStartTime(line).Some? <==>
              StartTimePrefix <= line && IsDotted(line[|StartTimePrefix|..], false)
  {
    if StartTimePrefix <= line {
      DottedBySplit(line[|StartTimePrefix|..], false);
    }
  }

  /** The value `days.frac` of a STARTTIME line decodes to the days and to
      the fraction of a day in whole milliseconds. */
  lemma StartTimeDecodes(days: string, frac: string)
    requires AllDigits(days) && AllDigits(frac)
    ensures ParseStartTime(StartTimePrefix + days + "." + frac)
            == Some(StartTime(DecimalValue(days), DayFractionMs(frac)))
  {
    var line := StartTimePrefix + days + "." + frac;
    assert line[|StartTimePrefix|..] == days + ['.'] + frac;
    assert SplitAtFirst(days + ['.'] + frac, '.') == Some((days, frac)) by {
      NoDotInDigits(days);
      SplitAtFirstOf(days, frac, '.');
    }
  }

  // ---------------------------------------------------------------------
  // ;$COLUMNS=[N,]O,T,[B,]I,d,[R,]l|L,D
  // ---------------------------------------------------------------------

  /** The ten column letters: N (message number), O (time offset), T (type),
      B (bus), I (CAN-ID), d (direction), R (reserved), l (data length),
      L (data length code) and D (data). */
  datatype ColumnTag =
    | NumberColumn | OffsetColumn | TypeColumn | BusColumn | IdColumn
    | DirectionColumn | ReservedColumn | LengthColumn | DlcColumn | DataColumn

  function TagLetter(t: ColumnTag): char
  {
    match t
    case NumberColumn => 'N'
    case OffsetColumn => 'O'
    case TypeColumn => 'T'
    case BusColumn => 'B'
    case IdColumn => 'I'
    case DirectionColumn => 'd'
    case ReservedColumn => 'R'
    case LengthColumn => 'l'
    case DlcColumn => 'L'
    case DataColumn => 'D'
  }

  /** The column a one-letter piece of the COLUMNS value names. */
  function ParseTag(piece: string): (r: Option<ColumnTag>)
    ensures r.Some? ==> piece == [TagLetter(r.value)]
    ensures forall t :: piece == [TagLetter(t)] ==> r == Some(t)
  {
    if |piece| != 1 then None
    else
      match piece[0]
      case 'N' => Some(NumberColumn)
      case 'O' => Some(OffsetColumn)
      case 'T' => Some(TypeColumn)
      case 'B' => Some(BusColumn)
      case 'I' => Some(IdColumn)
      case 'd' => Some(DirectionColumn)
      case 'R' => Some(ReservedColumn)
      case 'l' => Some(LengthColumn)
      case 'L' => Some(DlcColumn)
      case 'D' => Some(DataColumn)
      case _ => None
  }

  /** The texts of a list of column tags. */
  function TagTexts(tags: seq<ColumnTag>): (r: seq<string>)
    ensures |r| == |tags|
    ensures forall i | 0 <= i < |tags| :: r[i] == [TagLetter(tags[i])]
  {
    seq(|tags|, i requires 0 <= i < |tags| => [TagLetter(tags[i])])
  }

  /** The columns named by the comma-separated pieces, one per piece. */
  function ParseTagList(pieces: seq<string>): (r: Option<seq<ColumnTag>>)
    ensures r.Some? ==> TagTexts(r.value) == pieces
    decreases |pieces|
  {
    if |pieces| == 0 then Some([])
    else
      match ParseTag(pieces[0])
      case None => None
      case Some(t) =>
        match ParseTagList(pieces[1..])
        case None => None
        case Some(ts) =>
          TagTextsCons(t, ts, pieces);
          Some([t] + ts)
  }

  lemma TagTextsCons(t: ColumnTag, ts: seq<ColumnTag>, pieces: seq<string>)
    requires |pieces| > 0 && pieces[0] == [TagLetter(t)] && TagTexts(ts) == pieces[1..]
    ensures TagTexts([t] + ts) == pieces
  {
    var r := TagTexts([t] + ts);
    assert r[0] == pieces[0];
    forall i | 1 <= i < |r| ensures r[i] == pieces[i] {
      assert ([t] + ts)[i] == ts[i - 1];
      assert pieces[1..][i - 1] == pieces[i];
    }
  }

  lemma {:induction false} ParseTagListOf(tags: seq<ColumnTag>)
    ensures ParseTagList(TagTexts(tags)) == Some(tags)
    decreases |tags|
  {
    if |tags| > 0 {
      assert TagTexts(tags)[1..] == TagTexts(tags[1..]);
      ParseTagListOf(tags[1..]);
      assert [tags[0]] + tags[1..] == tags;
    }
  }

  /** The two ways a record can state its size: `l`, the number of data
      bytes (0..1785), or `L`, the Data Length Code (0..15). */
  datatype LengthKind = DataLength | DataLengthCode

  /** Which optional columns a file declares, and which length column. */
  datatype ColumnLayout = ColumnLayout(
    hasNumber: bool,
    hasBus: bool,
    hasReserved: bool,
    lengthKind: LengthKind)

  function LengthTag(k: LengthKind): ColumnTag
  {
    match k
    case DataLength => LengthColumn
    case DataLengthCode => DlcColumn
  }

  function Optionally(present: bool, t: ColumnTag): seq<ColumnTag>
  {
    if present then [t] else []
  }

  /** The columns of a layout, in the one order the grammar accepts. */
  function ColumnTags(layout: ColumnLayout): seq<ColumnTag>
  {
    Optionally(layout.hasNumber, NumberColumn)
    + ([OffsetColumn, TypeColumn]
    + (Optionally(layout.hasBus, BusColumn)
    + ([IdColumn, DirectionColumn]
    + (Optionally(layout.hasReserved, ReservedColumn)
    + [LengthTag(layout.lengthKind), DataColumn]))))
  }

  /** The text a COLUMNS line carries for a layout. */
  function ColumnsText(layout: ColumnLayout): string
  {
    Join(TagTexts(ColumnTags(layout)), ',')
  }

  /** An optional column: consumed when it is next. */
  function OptionalTag(tags: seq<ColumnTag>, t: ColumnTag): (r: (bool, seq<ColumnTag>))
    ensures tags == Optionally(r.0, t) + r.1
    ensures r.0 <==> |tags| > 0 && tags[0] == t
  {
    if |tags| > 0 && tags[0] == t then (true, tags[1..]) else (false, tags)
  }

  lemma OptionalTagOf(present: bool, t: ColumnTag, rest: seq<ColumnTag>)
    requires |rest| > 0 && rest[0] != t
    ensures OptionalTag(Optionally(present, t) + rest, t) == (present, rest)
  {
    if present {
      assert ([t] + rest)[1..] == rest;
    } else {
      assert [] + rest == rest;
    }
  }

  /** The layout declared by a list of columns, which must be exactly those
      of some layout: N, O, T, B, I, d, R, l or L, D in this order, with N, B
      and R optional and exactly one of l and L. */
  function ParseColumnTags(tags: seq<ColumnTag>): (r: Option<ColumnLayout>)
    ensures r.Some? ==> tags == ColumnTags(r.value)
  {
    var (hasNumber, t0) := OptionalTag(tags, NumberColumn);
    var t1 :- StripPrefix(t0, [OffsetColumn, TypeColumn]);
    var (hasBus, t2) := OptionalTag(t1, BusColumn);
    var t3 :- StripPrefix(t2, [IdColumn, DirectionColumn]);
    var (hasReserved, t4) := OptionalTag(t3, ReservedColumn);
    if t4 == [LengthColumn, DataColumn] then
      Some(ColumnLayout(hasNumber, hasBus, hasReserved, DataLength))
    else if t4 == [DlcColumn, DataColumn] then
      Some(ColumnLayout(hasNumber, hasBus, hasReserved, DataLengthCode))
    else None
  }

  /** Every layout's own column list is accepted, and gives that layout back. */
  lemma ParseColumnTagsOf(layout: ColumnLayout)
    ensures ParseColumnTags(ColumnTags(layout)) == Some(layout)
  {
    var t4 := [LengthTag(layout.lengthKind), DataColumn];
    var t3 := Optionally(layout.hasReserved, ReservedColumn) + t4;
    var t2 := [IdColumn, DirectionColumn] + t3;
    var t1 := Optionally(layout.hasBus, BusColumn) + t2;
    var t0 := [OffsetColumn, TypeColumn] + t1;
    assert ColumnTags(layout) == Optionally(layout.hasNumber, NumberColumn) + t0;
    OptionalTagOf(layout.hasNumber, NumberColumn, t0);
    StripPrefixOf([OffsetColumn, TypeColumn], t1);
    OptionalTagOf(layout.hasBus, BusColumn, t2);
    StripPrefixOf([IdColumn, DirectionColumn], t3);
    OptionalTagOf(layout.hasReserved, ReservedColumn, t4);
    match layout.lengthKind {
      case DataLength =>
        assert t4 == [LengthColumn, DataColumn];
      case DataLengthCode =>
        assert t4 == [DlcColumn, DataColumn];
        assert t4 != [LengthColumn, DataColumn];
    }
  }

  /** The columns a COLUMNS line names, when every piece of its value is one
      of the ten letters. */
  function DeclaredTags(line: string): (r: Option<seq<ColumnTag>>)
    ensures r.Some? ==> ColumnsPrefix <= line && TagTexts(r.value) == Split(line[|ColumnsPrefix|..], ',')
  {
    var v :- StripPrefix(line, ColumnsPrefix);
    ParseTagList(Split(v, ','))
  }

  /** The layout of a COLUMNS line. */
  function ParseColumns(line: string): (r: Option<ColumnLayout>)
    ensures r.Some? ==> line == ColumnsPrefix + ColumnsText(r.value)
    ensures r.Some? ==> DeclaredTags(line) == Some(ColumnTags(r.value))
  {
    var tags :- DeclaredTags(line);
    var layout :- ParseColumnTags(tags);
    assert line == ColumnsPrefix + line[|ColumnsPrefix|..];
    Some(layout)
  }

  /** A COLUMNS line written for a layout is accepted and gives that layout;
      with the postcondition of ParseColumns, a line is accepted exactly when
      it is the canonical line of some layout. */
  lemma ColumnsRoundTrip(layout: ColumnLayout)
    ensures ParseColumns(ColumnsPrefix + ColumnsText(layout)) == Some(layout)
  {
    var line := ColumnsPrefix + ColumnsText(layout);
    assert line[|ColumnsPrefix|..] == ColumnsText(layout);
    var texts := TagTexts(ColumnTags(layout));
    forall i | 0 <= i < |texts| ensures ',' !in texts[i] {
      assert texts[i] == [TagLetter(ColumnTags(layout)[i])];
    }
    SplitOfJoin(texts, ',');
    ParseTagListOf(ColumnTags(layout));
    ParseColumnTagsOf(layout);
  }

  /** The columns every layout declares. */
  lemma MandatoryMembers(l: ColumnLayout)
    ensures var tags := ColumnTags(l);
            && OffsetColumn in tags && TypeColumn in tags && IdColumn in tags
            && DirectionColumn in tags && DataColumn in tags
  {
    var tags := ColumnTags(l);
    var n := Optionally(l.hasNumber, NumberColumn);
    var b := Optionally(l.hasBus, BusColumn);
    var rr := Optionally(l.hasReserved, ReservedColumn);
    assert tags[|n|] == OffsetColumn && tags[|n| + 1] == TypeColumn;
    assert tags[|n| + 2 + |b|] == IdColumn && tags[|n| + 3 + |b|] == DirectionColumn;
    assert tags[|tags| - 1] == DataColumn;
  }

  /** A tag of the optional part appears exactly when its flag is set. */
  lemma OptionalMember(l: ColumnLayout, x: ColumnTag)
    requires x !in {OffsetColumn, TypeColumn, IdColumn, DirectionColumn, DataColumn}
    ensures x in ColumnTags(l)
            <==> x in Optionally(l.hasNumber, NumberColumn) || x in Optionally(l.hasBus, BusColumn)
                 || x in Optionally(l.hasReserved, ReservedColumn) || x == LengthTag(l.lengthKind)
  {
  }

  /** Which columns a layout's column list holds. */
  lemma ColumnTagsMembers(l: ColumnLayout)
    ensures var tags := ColumnTags(l);
            && OffsetColumn in tags && TypeColumn in tags && IdColumn in tags
            && DirectionColumn in tags && DataColumn in tags
            && (NumberColumn in tags <==> l.hasNumber)
            && (BusColumn in tags <==> l.hasBus)
            && (ReservedColumn in tags <==> l.hasReserved)
            && (LengthColumn in tags <==> l.lengthKind == DataLength)
            && (DlcColumn in tags <==> l.lengthKind == DataLengthCode)
  {
    MandatoryMembers(l);
    OptionalMember(l, NumberColumn);
    OptionalMember(l, BusColumn);
    OptionalMember(l, ReservedColumn);
    OptionalMember(l, LengthColumn);
    OptionalMember(l, DlcColumn);
  }

  /** What an accepted COLUMNS line declares: O, T, I, d and D all appear;
      N, B and R appear exactly when the layout records them; and of l and L
      exactly the one named by the length kind appears. So a line naming
      both l and L, or neither, is refused. */
  lemma ColumnsDeclared(line: string)
    requires DeclaredTags(line).Some?
    ensures var tags := DeclaredTags(line).value;
            var r := ParseColumns(line);
            && ((LengthColumn in tags) == (DlcColumn in tags) ==> r.None?)
            && (r.Some? ==>
                  && OffsetColumn in tags && TypeColumn in tags && IdColumn in tags
                  && DirectionColumn in tags && DataColumn in tags
                  && (NumberColumn in tags <==> r.value.hasNumber)
                  && (BusColumn in tags <==> r.value.hasBus)
                  && (ReservedColumn in tags <==> r.value.hasReserved)
                  && (LengthColumn in tags <==> r.value.lengthKind == DataLength)
                  && (DlcColumn in tags <==> r.value.lengthKind == DataLengthCode))
  {
    var r := ParseColumns(line);
    if r.Some? {
      assert DeclaredTags(line).value == ColumnTags(r.value);
      ColumnTagsMembers(r.value);
    }
  }

  // ---------------------------------------------------------------------
  // The header as a whole
  // ---------------------------------------------------------------------

  /** A trace header: version number, start time and column layout. */
  datatype Header = Header(version: string, startTime: StartTime, layout: ColumnLayout)

  datatype HeaderError = MissingHeaderLine | BadFileVersion | BadStartTime | BadColumns

  /** A line is a control line when one of the three header rules accepts it. */
  predicate IsControlLine(line: string)
  {
    ParseFileVersion(line).Some? || ParseStartTime(line).Some? || ParseColumns(line).Some?
  }

  /** The three control prefixes differ in their third character. */
  lemma ControlPrefixesDisjoint(line: string)
    ensures !(TrcVersion.FileVersionPrefix <= line && StartTimePrefix <= line)
    ensures !(TrcVersion.FileVersionPrefix <= line && ColumnsPrefix <= line)
    ensures !(StartTimePrefix <= line && ColumnsPrefix <= line)
  {
    assert TrcVersion.FileVersionPrefix[2] == 'F';
    assert StartTimePrefix[2] == 'S';
    assert ColumnsPrefix[2] == 'C';
    if TrcVersion.FileVersionPrefix <= line { assert line[2] == 'F'; }
    if StartTimePrefix <= line { assert line[2] == 'S'; }
    if ColumnsPrefix <= line { assert line[2] == 'C'; }
  }

  /** The three control kinds never share a line. */
  lemma ControlKindsDisjoint(line: string)
    ensures !(ParseFileVersion(line).Some? && ParseStartTime(line).Some?)
    ensures !(ParseFileVersion(line).Some? && ParseColumns(line).Some?)
    ensures !(ParseStartTime(line).Some? && ParseColumns(line).Some?)
  {
    ControlPrefixesDisjoint(line);
    var c := ParseColumns(line);
    if c.Some? {
      assert line == ColumnsPrefix + ColumnsText(c.value);
      assert ColumnsPrefix <= line;
    }
  }

  /** The header read from the first three significant lines: FILEVERSION,
      then STARTTIME, then COLUMNS. */
  function ParseHeader(lines: seq<string>): (r: Result<Header, HeaderError>)
    ensures |lines| < 3 ==> r == Failure(MissingHeaderLine)
    ensures r.Success? ==>
              && |lines| >= 3
              && lines[0] == TrcVersion.FileVersionPrefix + r.value.version
              && ParseFileVersion(lines[0]) == Some(r.value.version)
              && ParseStartTime(lines[1]) == Some(r.value.startTime)
              && lines[2] == ColumnsPrefix + ColumnsText(r.value.layout)
    ensures |lines| >= 3 && ParseFileVersion(lines[0]).Some? && ParseStartTime(lines[1]).Some?
            && ParseColumns(lines[2]).Some? ==>
              r == Success(Header(ParseFileVersion(lines[0]).value, ParseStartTime(lines[1]).value,
                                  ParseColumns(lines[2]).value))
  {
    if |lines| < 3 then Failure(MissingHeaderLine)
    else
      var version :- ParseFileVersion(lines[0]).ToResult(BadFileVersion);
      var start :- ParseStartTime(lines[1]).ToResult(BadStartTime);
      var layout :- ParseColumns(lines[2]).ToResult(BadColumns);
      assert version == lines[0][|TrcVersion.FileVersionPrefix|..];
      Success(Header(version, start, layout))
  }

  /** Only the first three lines are looked at. */
  lemma HeaderFirstThree(lines: seq<string>)
    requires |lines| >= 3
    ensures ParseHeader(lines) == ParseHeader(lines[..3])
  {
    var h := lines[..3];
    assert h[0] == lines[0] && h[1] == lines[1] && h[2] == lines[2];
  }

  /** The order is fixed: a header whose first line is a STARTTIME or
      COLUMNS line, or whose second line is a FILEVERSION or COLUMNS line,
      is refused. */
  lemma HeaderOrderFixed(lines: seq<string>)
    requires |lines| >= 3
    requires ParseStartTime(lines[0]).Some? || ParseColumns(lines[0]).Some?
             || ParseFileVersion(lines[1]).Some? || ParseColumns(lines[1]).Some?
    ensures ParseHeader(lines).Failure?
  {
    ControlKindsDisjoint(lines[0]);
    ControlKindsDisjoint(lines[1]);
  }

  /** The header a 2.1 trace is written with is read back: the version 2.1,
      the start time `days.frac` and the layout of the COLUMNS line. */
  lemma HeaderOfLines(days: string, frac: string, layout: ColumnLayout)
    requires AllDigits(days) && AllDigits(frac)
    ensures ParseHeader([TrcVersion.VersionHeaderLine(TrcVersion.SupportedVersion),
                         StartTimePrefix + days + "." + frac,
                         ColumnsPrefix + ColumnsText(layout)])
            == Success(Header(TrcVersion.SupportedVersion, StartTime(DecimalValue(days), DayFractionMs(frac)), layout))
  {
    GateLineVersion();
    StartTimeDecodes(days, frac);
    ColumnsRoundTrip(layout);
  }

  /** The version 2.1 FILEVERSION line is read as version 2.1. */
  lemma GateLineVersion()
    ensures ParseFileVersion(TrcVersion.VersionHeaderLine(TrcVersion.SupportedVersion)) == Some(TrcVersion.SupportedVersion)
  {
    assert TrcVersion.VersionHeaderLine(TrcVersion.SupportedVersion) == TrcVersion.FileVersionPrefix + "2" + "." + "1";
    assert TrcVersion.SupportedVersion == "2" + "." + "1";
    FileVersionOf("2", "1");
  }
}
