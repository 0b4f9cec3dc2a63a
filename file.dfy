/** A whole TRC text: the version gate of the loader, the three header
    lines, then comment lines and data lines for as long as one of the two
    rules reads the next line. What follows the first line neither rule
    reads is kept, unread, as the unparsed tail. Blank lines and the white
    space around each line are skipped. */
module TrcFile {
  import opened Wrappers
  import opened Lexical
  import opened TrcVersion
  import opened TrcHeader
  import opened TrcRecord

  // ---------------------------------------------------------------------
  // Significant lines
  // ---------------------------------------------------------------------

  /** A non-empty text that neither begins nor ends with white space. */
  predicate IsTrimmed(t: string)
  {
    t != [] && !IsSpace(t[0]) && !IsSpace(t[|t| - 1])
  }

  /** A line without the white space before and after its text. */
  function Trimmed(line: string): (t: string)
    ensures t == [] <==> IsBlank(line)
    ensures t != [] ==> IsTrimmed(t)
    decreases |line|
  {
    if |line| > 0 && IsSpace(line[0]) then
      assert forall i | 1 <= i < |line| :: line[1..][i - 1] == line[i];
      Trimmed(line[1..])
    else
      TrimEnd(line)
  }

  /** What is kept is the line's own text: only white space is cut before
      and after it. */
  lemma {:induction false} TrimmedSpan(line: string)
    ensures exists i, j | 0 <= i <= j <= |line| ::
              Trimmed(line) == line[i..j] && IsBlank(line[..i]) && IsBlank(line[j..])
    decreases |line|
  {
    if |line| > 0 && IsSpace(line[0]) {
      var tail := line[1..];
      TrimmedSpan(tail);
      var i, j :| 0 <= i <= j <= |tail| && Trimmed(tail) == tail[i..j]
                  && IsBlank(tail[..i]) && IsBlank(tail[j..]);
      SpanAfterBlank(line, i, j);
      assert Trimmed(line) == line[i + 1..j + 1];
    } else {
      SpanOfTrimEnd(line);
      assert Trimmed(line) == line[0..|TrimEnd(line)|];
    }
  }

  lemma SpanAfterBlank(line: string, i: nat, j: nat)
    requires |line| > 0 && IsSpace(line[0]) && i <= j <= |line| - 1
    requires IsBlank(line[1..][..i]) && IsBlank(line[1..][j..])
    ensures line[1..][i..j] == line[i + 1..j + 1]
    ensures IsBlank(line[..i + 1]) && IsBlank(line[j + 1..])
  {
    var tail := line[1..];
    assert tail[i..j] == line[i + 1..j + 1] by {
      forall k | 0 <= k < j - i ensures tail[i..j][k] == line[i + 1..j + 1][k] {
        assert tail[i..j][k] == tail[i + k] == line[i + 1 + k];
      }
    }
    var pre := line[..i + 1];
    forall k | 0 <= k < |pre| ensures IsSpace(pre[k]) {
      if k > 0 {
        assert pre[k] == tail[..i][k - 1];
      }
    }
    assert tail[j..] == line[j + 1..];
  }

  lemma SpanOfTrimEnd(line: string)
    ensures IsBlank(line[..0]) && IsBlank(line[|TrimEnd(line)|..])
    ensures TrimEnd(line) == line[0..|TrimEnd(line)|]
  {
    var t := TrimEnd(line);
    var post := line[|t|..];
    forall k | 0 <= k < |post| ensures IsSpace(post[k]) {
      assert post[k] == line[|t| + k];
    }
  }

  /** A line that is already trimmed stays as it is. */
  lemma TrimmedOfTrimmed(line: string)
    requires IsTrimmed(line)
    ensures Trimmed(line) == line
  {
  }

  /** The lines that hold text, trimmed, in their order. */
  function Significant(lines: seq<string>): (r: seq<string>)
    ensures |r| <= |lines|
    decreases |lines|
  {
    if lines == [] then []
    else
      var t := Trimmed(lines[0]);
      var rest := Significant(lines[1..]);
      if t == [] then rest else [t] + rest
  }

  /** A single line is dropped when it is blank and is otherwise kept as its
      trimmed text; with SignificantAppend this determines the significant
      lines of any list. */
  lemma SignificantOne(line: string)
    ensures Significant([line]) == if IsBlank(line) then [] else [Trimmed(line)]
  {
    assert [line][1..] == [];
  }

  /** Every significant line holds text and has no white space around it. */
  lemma {:induction false} SignificantTrimmed(lines: seq<string>)
    ensures forall i | 0 <= i < |Significant(lines)| :: IsTrimmed(Significant(lines)[i])
    decreases |lines|
  {
    if lines != [] {
      SignificantTrimmed(lines[1..]);
      var t := Trimmed(lines[0]);
      var rest := Significant(lines[1..]);
      if t != [] {
        var r := [t] + rest;
        assert Significant(lines) == r;
        forall i | 1 <= i < |r| ensures IsTrimmed(r[i]) {
          assert r[i] == rest[i - 1];
        }
      }
    }
  }

  lemma {:induction false} SignificantAppend(a: seq<string>, b: seq<string>)
    ensures Significant(a + b) == Significant(a) + Significant(b)
    decreases |a|
  {
    if a != [] {
      assert (a + b)[1..] == a[1..] + b;
      SignificantAppend(a[1..], b);
    } else {
      assert a + b == b;
    }
  }

  /** Blank lines anywhere in a file change nothing about what is read. */
  lemma BlankLineIgnored(a: seq<string>, blank: string, b: seq<string>)
    requires IsBlank(blank)
    ensures Significant(a + [blank] + b) == Significant(a + b)
  {
    assert Significant([blank]) == [] by {
      assert [blank][1..] == [];
    }
    calc {
      Significant(a + [blank] + b);
      { SignificantAppend(a + [blank], b); }
      Significant(a + [blank]) + Significant(b);
      { SignificantAppend(a, [blank]); }
      Significant(a) + Significant(b);
      { SignificantAppend(a, b); }
      Significant(a + b);
    }
  }

  // ---------------------------------------------------------------------
  // Body lines
  // ---------------------------------------------------------------------

  /** One line of the body: a comment (kept as the text after its `;`) or a
      data row. */
  datatype TraceLine = Comment(text: string) | Record(raw: RawRecord)

  /** The comment rule as the grammar writes it: a `;`, and then no control
      line. The test for a control line is made on what follows the `;`
      (white space around it skipped), so `;` followed by a control line is
      not a comment, while a control line itself, whose own `;` has just been
      consumed, is one. */
  predicate IsLineCommentAsWritten(line: string)
  {
    |line| > 0 && line[0] == ';' && !IsControlLine(Trimmed(line[1..]))
  }

  /** The comment rule as intended: a line that begins with `;` and is not a
      FILEVERSION, STARTTIME or COLUMNS line. */
  predicate IsLineComment(line: string)
  {
    |line| > 0 && line[0] == ';' && !IsControlLine(line)
  }

  /** No control line starts with anything but `;`. */
  lemma ControlLineStartsWithSemicolon(line: string)
    requires IsControlLine(line)
    ensures |line| > 0 && line[0] == ';'
  {
    if ParseFileVersion(line).Some? {
      assert TrcVersion.FileVersionPrefix <= line;
    } else if ParseStartTime(line).Some? {
      assert StartTimePrefix <= line;
    } else {
      var c := ParseColumns(line).value;
      assert line == ColumnsPrefix + ColumnsText(c);
    }
  }

  /** A control line whose second character is not `;` is no longer one
      once its `;` is removed. */
  lemma NotControlAfterSemicolon(line: string)
    requires IsTrimmed(line) && |line| > 1 && line[1] != ';' && !IsSpace(line[1])
    ensures Trimmed(line[1..]) == line[1..] && !IsControlLine(line[1..])
  {
    TrimmedOfTrimmed(line[1..]);
    if IsControlLine(line[1..]) {
      ControlLineStartsWithSemicolon(line[1..]);
    }
  }

  /** What follows a leading `;` is the trimmed line behind it. */
  lemma SemicolonBefore(line: string)
    requires IsTrimmed(line)
    ensures Trimmed((";" + line)[1..]) == line
  {
    assert (";" + line)[1..] == line;
    TrimmedOfTrimmed(line);
  }

  /** A second STARTTIME line, as it would be repeated in a body. */
  const RepeatedStartTime: string := StartTimePrefix + "1" + "." + "5"

  lemma RepeatedStartTimeIsControl()
    ensures ParseStartTime(RepeatedStartTime).Some?
  {
    StartTimeDecodes("1", "5");
  }

  lemma RepeatedStartTimeIsTrimmed()
    ensures IsTrimmed(RepeatedStartTime)
    ensures RepeatedStartTime[0] == ';' && RepeatedStartTime[1] == '$'
  {
    assert RepeatedStartTime == ";$STARTTIME=1.5";
  }

  /** A repeated header line, e.g. a second STARTTIME, is a comment to the
      rule as written and not a comment to the rule as intended. The rule as
      written does refuse a `;` followed by a whole control line. */
  lemma ControlLineReadAsComment()
    ensures IsLineCommentAsWritten(RepeatedStartTime)
    ensures !IsLineComment(RepeatedStartTime)
    ensures !IsLineCommentAsWritten(";" + RepeatedStartTime)
  {
    RepeatedStartTimeIsControl();
    RepeatedStartTimeIsTrimmed();
    NotControlAfterSemicolon(RepeatedStartTime);
    SemicolonBefore(RepeatedStartTime);
  }

  /** A line that begins with `;` is never read as a data row, so the two
      body rules never both accept a line. */
  lemma CommentIsNotData(line: string)
    requires |line| > 0 && line[0] == ';'
    ensures ParseDataLine(line) == None
  {
    assert SkipSpaces(line) == line;
    var w := TakeWord(line);
    assert w.0[0] == ';';
    assert TakeTokens(line, 4).0[0] == w.0;
    assert !IsNumber(w.0);
  }

  /** The entry a body line is read as, if either rule reads it. */
  function ParseBodyLine(line: string): Option<TraceLine>
  {
    if IsLineComment(line) then Some(Comment(line[1..]))
    else
      match ParseDataLine(line)
      case None => None
      case Some(raw) => Some(Record(raw))
  }

  /** A comment keeps the text behind its `;`, a data line its record, and a
      line is left unread only when neither rule reads it. */
  lemma BodyLineReading(line: string)
    ensures var r := ParseBodyLine(line);
            && (r.Some? && r.value.Comment? ==> IsLineComment(line) && line == ";" + r.value.text)
            && (r.Some? && r.value.Record? ==> ParseDataLine(line) == Some(r.value.raw))
            && (r.None? <==> !IsLineComment(line) && ParseDataLine(line).None?)
  {
    if IsLineComment(line) {
      assert line == [line[0]] + line[1..];
    }
  }

  /** The two body rules never both read a line, so a line has at most one
      reading and the order in which the rules are tried does not matter. */
  lemma BodyRulesDisjoint(line: string)
    ensures !(IsLineComment(line) && ParseDataLine(line).Some?)
    ensures !(IsLineCommentAsWritten(line) && ParseDataLine(line).Some?)
  {
    if |line| > 0 && line[0] == ';' {
      CommentIsNotData(line);
    }
  }

  /** The longest run of leading lines that the rule `read` accepts, as a
      repetition of one rule reads them, and the lines from the first one
      it refuses on. */
  function ReadRun<T>(lines: seq<string>, read: string -> Option<T>): (r: (seq<T>, seq<string>))
    ensures |r.0| <= |lines| && r.1 == lines[|r.0|..]
    decreases |lines|
  {
    if lines == [] then ([], [])
    else
      match read(lines[0])
      case None => ([], lines)
      case Some(entry) =>
        var rest := ReadRun(lines[1..], read);
        assert lines[1..][|rest.0|..] == lines[1 + |rest.0|..];
        ([entry] + rest.0, rest.1)
  }

  /** Each entry of a run is the reading of the line at its place, and the
      first line left over is one the rule refuses. */
  lemma {:induction false} ReadRunEntries<T>(lines: seq<string>, read: string -> Option<T>)
    ensures var r := ReadRun(lines, read);
            && (forall i | 0 <= i < |r.0| :: read(lines[i]) == Some(r.0[i]))
            && (r.1 != [] ==> read(r.1[0]).None?)
    decreases |lines|
  {
    if lines != [] && read(lines[0]).Some? {
      var tail := lines[1..];
      ReadRunEntries(tail, read);
      var rest := ReadRun(tail, read);
      var entries := [read(lines[0]).value] + rest.0;
      assert ReadRun(lines, read) == (entries, rest.1);
      forall i | 1 <= i < |entries| ensures read(lines[i]) == Some(entries[i]) {
        assert lines[i] == tail[i - 1] && entries[i] == rest.0[i - 1];
      }
    }
  }

  /** The body: the run of leading lines that the body rules read. */
  function ParseBody(lines: seq<string>): (r: (seq<TraceLine>, seq<string>))
    ensures |r.0| <= |lines| && r.1 == lines[|r.0|..]
  {
    ReadRun(lines, ParseBodyLine)
  }

  /** Each entry of the body is the reading of the line at its place, and
      the first line left unparsed is one neither rule reads. */
  lemma ParseBodyEntries(lines: seq<string>)
    ensures var r := ParseBody(lines);
            && (forall i | 0 <= i < |r.0| :: ParseBodyLine(lines[i]) == Some(r.0[i]))
            && (r.1 != [] ==> ParseBodyLine(r.1[0]).None?)
  {
    ReadRunEntries(lines, ParseBodyLine);
  }

  /** The body stops at a repeated control line: nothing from it on is read. */
  lemma ControlLineEndsBody(lines: seq<string>)
    requires lines != [] && IsControlLine(lines[0])
    ensures ParseBody(lines) == ([], lines)
  {
    var line := lines[0];
    if ParseDataLine(line).Some? {
      ControlLineIsNotData(line);
    }
  }

  /** Every control line begins with `;` and so is never a data line. */
  lemma ControlLineIsNotData(line: string)
    requires IsControlLine(line)
    ensures |line| > 0 && line[0] == ';'
    ensures ParseDataLine(line) == None
  {
    ControlLineStartsWithSemicolon(line);
    CommentIsNotData(line);
  }

  // ---------------------------------------------------------------------
  // Loading a text
  // ---------------------------------------------------------------------

  datatype TraceFile = TraceFile(header: Header, entries: seq<TraceLine>, unparsed: seq<string>)

  datatype LoadError = UnsupportedVersion(version: string) | BadHeader(error: HeaderError)

  /** The only first line the loader goes on from. */
  const GateLine: string := VersionHeaderLine(SupportedVersion)

  /** Loads a TRC text. The text is cut at each newline; unless its first
      line is exactly the version 2.1 FILEVERSION line the text is refused
      with the version it claims. Otherwise the header is read from the
      first three significant lines and the body from the rest. */
  function LoadString(s: string): (r: Result<TraceFile, LoadError>)
    ensures ResolveVersion(Split(s, '\n')) != SupportedVersion
            <==> r == Failure(UnsupportedVersion(ResolveVersion(Split(s, '\n'))))
    ensures r.Success? ==> s == GateLine || GateLine + "\n" <= s
    ensures r.Success? ==> r.value.header.version == SupportedVersion
    ensures r.Success? ==> ParseHeader(Significant(Split(s, '\n'))) == Success(r.value.header)
    ensures r.Success? ==> (r.value.entries, r.value.unparsed) == ParseBody(Significant(Split(s, '\n'))[3..])
    ensures ResolveVersion(Split(s, '\n')) == SupportedVersion && ParseHeader(Significant(Split(s, '\n'))).Failure?
            ==> r == Failure(BadHeader(ParseHeader(Significant(Split(s, '\n'))).error))
  {
    var lines := Split(s, '\n');
    var v := ResolveVersion(lines);
    if v != SupportedVersion then Failure(UnsupportedVersion(v))
    else
      var significant := Significant(lines);
      match ParseHeader(significant)
      case Failure(e) => Failure(BadHeader(e))
      case Success(header) =>
        GateLineStarts(s);
        var body := ParseBody(significant[3..]);
        Success(TraceFile(header, body.0, body.1))
  }

  /** When the gate passes, the gate line is the text's first line and its
      first significant line, so the header's version is 2.1. */
  lemma GateLineStarts(s: string)
    requires ResolveVersion(Split(s, '\n')) == SupportedVersion
    ensures s == GateLine || GateLine + "\n" <= s
    ensures Significant(Split(s, '\n'))[0] == GateLine
    ensures ParseHeader(Significant(Split(s, '\n'))).Success? ==>
              ParseHeader(Significant(Split(s, '\n'))).value.version == SupportedVersion
  {
    var lines := Split(s, '\n');
    assert lines[0] == GateLine;
    if |lines| > 1 {
      assert s == lines[0] + "\n" + Join(lines[1..], '\n');
    }
    assert GateLine[0] == ';' && GateLine[|GateLine| - 1] == '1';
    TrimmedOfTrimmed(GateLine);
    assert Significant(lines) == [GateLine] + Significant(lines[1..]);
    var significant := Significant(lines);
    var h := ParseHeader(significant);
    if h.Success? {
      assert GateLine == FileVersionPrefix + h.value.version;
      assert h.value.version == GateLine[|FileVersionPrefix|..];
    }
  }

  /** Whatever follows the first line, a text whose first line is not the
      2.1 FILEVERSION line is refused, and only for its version. */
  lemma OnlyVersion21Loads(s: string)
    ensures LoadString(s).Success? ==> Split(s, '\n')[0] == GateLine
    ensures Split(s, '\n')[0] != GateLine ==> LoadString(s).Failure? && LoadString(s).error.UnsupportedVersion?
  {
    var lines := Split(s, '\n');
    ResolveVersionExact(lines, SupportedVersion);
  }

  /** Lines that are already trimmed are all significant. */
  lemma {:induction false} SignificantOfTrimmed(lines: seq<string>)
    requires forall i | 0 <= i < |lines| :: IsTrimmed(lines[i])
    ensures Significant(lines) == lines
    decreases |lines|
  {
    if lines != [] {
      TrimmedOfTrimmed(lines[0]);
      SignificantOfTrimmed(lines[1..]);
      assert [lines[0]] + lines[1..] == lines;
    }
  }

  /** A text made of trimmed lines, the 2.1 header first and then lines the
      body rules read, is read completely: the header, one entry per body
      line in order, and nothing left unparsed. */
  lemma LoadReadsWholeText(lines: seq<string>, header: Header)
    requires |lines| >= 3 && lines[0] == GateLine
    requires forall i | 0 <= i < |lines| :: '\n' !in lines[i] && IsTrimmed(lines[i])
    requires ParseHeader(lines) == Success(header)
    requires forall i | 3 <= i < |lines| :: ParseBodyLine(lines[i]).Some?
    ensures LoadString(Join(lines, '\n')).Success?
    ensures var f := LoadString(Join(lines, '\n')).value;
            && f.header == header && f.unparsed == []
            && |f.entries| == |lines| - 3
            && forall i | 0 <= i < |f.entries| :: ParseBodyLine(lines[i + 3]) == Some(f.entries[i])
  {
    var text := Join(lines, '\n');
    TextOfLines(lines);
    ResolveVersionExact(lines, SupportedVersion);
    LoadStringOf(text, lines, header);
    BodyReadsAll(lines);
  }

  /** When the body rules read every line after the header, the body takes
      them all, one entry per line. */
  lemma BodyReadsAll(lines: seq<string>)
    requires |lines| >= 3
    requires forall i | 3 <= i < |lines| :: ParseBodyLine(lines[i]).Some?
    ensures var b := ParseBody(lines[3..]);
            && b.1 == [] && |b.0| == |lines| - 3
            && forall i | 0 <= i < |b.0| :: ParseBodyLine(lines[i + 3]) == Some(b.0[i])
  {
    var body := lines[3..];
    assert forall i | 0 <= i < |body| :: body[i] == lines[i + 3];
    ParseBodyReadsAll(body);
    ParseBodyEntries(body);
  }

  /** Trimmed lines joined at newlines are cut back into the same lines, all
      of them significant. */
  lemma TextOfLines(lines: seq<string>)
    requires |lines| >= 1
    requires forall i | 0 <= i < |lines| :: '\n' !in lines[i] && IsTrimmed(lines[i])
    ensures Split(Join(lines, '\n'), '\n') == lines
    ensures Significant(Split(Join(lines, '\n'), '\n')) == lines
  {
    SplitOfJoin(lines, '\n');
    SignificantOfTrimmed(lines);
  }

  /** When the body rules read every line, the body takes them all. */
  lemma ParseBodyReadsAll(body: seq<string>)
    requires forall i | 0 <= i < |body| :: ParseBodyLine(body[i]).Some?
    ensures ParseBody(body).1 == [] && |ParseBody(body).0| == |body|
  {
    ParseBodyEntries(body);
  }

  /** Once the gate passes and the header is read, the text loads to that
      header and the reading of the remaining significant lines. */
  lemma LoadStringOf(s: string, significant: seq<string>, header: Header)
    requires ResolveVersion(Split(s, '\n')) == SupportedVersion
    requires Significant(Split(s, '\n')) == significant
    requires ParseHeader(significant) == Success(header)
    ensures LoadString(s) == Success(TraceFile(header, ParseBody(significant[3..]).0, ParseBody(significant[3..]).1))
  {
  }

  /** A character that neither separates lines nor is white space. */
  predicate IsPlain(c: char) { c != '\n' && !IsSpace(c) }

  predicate PlainText(s: string) { forall i | 0 <= i < |s| :: IsPlain(s[i]) }

  lemma PlainAppend(a: string, b: string)
    requires PlainText(a) && PlainText(b)
    ensures PlainText(a + b)
  {
    forall i | 0 <= i < |a + b| ensures IsPlain((a + b)[i]) {
      if i >= |a| {
        assert (a + b)[i] == b[i - |a|];
      }
    }
  }

  lemma {:induction false} PlainJoin(parts: seq<string>, sep: char)
    requires IsPlain(sep)
    requires forall i | 0 <= i < |parts| :: PlainText(parts[i])
    ensures PlainText(Join(parts, sep))
    decreases |parts|
  {
    if |parts| > 1 {
      PlainJoin(parts[1..], sep);
      PlainAppend(parts[0], [sep]);
      PlainAppend(parts[0] + [sep], Join(parts[1..], sep));
    }
  }

  /** The three header lines of a written trace are each one trimmed line. */
  lemma HeaderLinesPlain(days: string, frac: string, layout: ColumnLayout)
    requires AllDigits(days) && AllDigits(frac)
    ensures PlainText(GateLine)
    ensures PlainText(StartTimePrefix + days + "." + frac)
    ensures PlainText(ColumnsPrefix + ColumnsText(layout))
  {
    assert PlainText(GateLine) by {
      forall i | 0 <= i < |GateLine| ensures IsPlain(GateLine[i]) {
        assert GateLine == ";$FILEVERSION=2.1";
      }
    }
    assert PlainText(StartTimePrefix) by {
      forall i | 0 <= i < |StartTimePrefix| ensures IsPlain(StartTimePrefix[i]) {
        assert StartTimePrefix == ";$STARTTIME=";
      }
    }
    assert PlainText(ColumnsPrefix) by {
      forall i | 0 <= i < |ColumnsPrefix| ensures IsPlain(ColumnsPrefix[i]) {
        assert ColumnsPrefix == ";$COLUMNS=";
      }
    }
    assert PlainText(days) && PlainText(frac) by {
      assert forall i | 0 <= i < |days| :: IsDigit(days[i]);
      assert forall i | 0 <= i < |frac| :: IsDigit(frac[i]);
    }
    PlainAppend(StartTimePrefix, days);
    PlainAppend(StartTimePrefix + days, ".");
    PlainAppend(StartTimePrefix + days + ".", frac);
    var texts := TagTexts(ColumnTags(layout));
    forall i | 0 <= i < |texts| ensures PlainText(texts[i]) {
      assert texts[i] == [TagLetter(ColumnTags(layout)[i])];
    }
    PlainJoin(texts, ',');
    PlainAppend(ColumnsPrefix, ColumnsText(layout));
  }

  lemma PlainIsTrimmed(line: string)
    requires |line| > 0 && PlainText(line)
    ensures '\n' !in line && IsTrimmed(line)
  {
    assert IsPlain(line[0]) && IsPlain(line[|line| - 1]);
  }

  /** The header lines a 2.1 trace is written with are read as its header
      whatever follows them. */
  lemma WrittenHeader(days: string, frac: string, layout: ColumnLayout, body: seq<string>)
    requires AllDigits(days) && AllDigits(frac)
    ensures var head := [GateLine, StartTimePrefix + days + "." + frac, ColumnsPrefix + ColumnsText(layout)];
            ParseHeader(head + body)
            == Success(Header(SupportedVersion, StartTime(DecimalValue(days), DayFractionMs(frac)), layout))
  {
    var head := [GateLine, StartTimePrefix + days + "." + frac, ColumnsPrefix + ColumnsText(layout)];
    HeaderOfLines(days, frac, layout);
    assert (head + body)[..3] == head;
    HeaderFirstThree(head + body);
  }

  /** Each header line of a written trace is one trimmed line. */
  lemma WrittenHeaderTrimmed(days: string, frac: string, layout: ColumnLayout)
    requires AllDigits(days) && AllDigits(frac)
    ensures var head := [GateLine, StartTimePrefix + days + "." + frac, ColumnsPrefix + ColumnsText(layout)];
            forall i | 0 <= i < 3 :: '\n' !in head[i] && IsTrimmed(head[i])
  {
    var head := [GateLine, StartTimePrefix + days + "." + frac, ColumnsPrefix + ColumnsText(layout)];
    HeaderLinesPlain(days, frac, layout);
    PlainIsTrimmed(head[0]);
    PlainIsTrimmed(head[1]);
    PlainIsTrimmed(head[2]);
  }

  lemma LinesOfAppend(head: seq<string>, body: seq<string>)
    requires |head| == 3
    requires forall i | 0 <= i < 3 :: '\n' !in head[i] && IsTrimmed(head[i])
    requires forall i | 0 <= i < |body| :: '\n' !in body[i] && IsTrimmed(body[i])
    requires forall i | 0 <= i < |body| :: ParseBodyLine(body[i]).Some?
    ensures var lines := head + body;
            && (forall i | 0 <= i < |lines| :: '\n' !in lines[i] && IsTrimmed(lines[i]))
            && (forall i | 3 <= i < |lines| :: ParseBodyLine(lines[i]).Some?)
            && (forall i | 0 <= i < |body| :: lines[i + 3] == body[i])
  {
  }

  /** A trace written as the format lays it out loads: the 2.1 header with
      its start time and layout, then one entry per body line, in order, with
      nothing left unparsed. */
  lemma WrittenTraceLoads(days: string, frac: string, layout: ColumnLayout, body: seq<string>)
    requires AllDigits(days) && AllDigits(frac)
    requires forall i | 0 <= i < |body| :: '\n' !in body[i] && IsTrimmed(body[i])
    requires forall i | 0 <= i < |body| :: ParseBodyLine(body[i]).Some?
    ensures var lines := [GateLine, StartTimePrefix + days + "." + frac, ColumnsPrefix + ColumnsText(layout)] + body;
            var r := LoadString(Join(lines, '\n'));
            && r.Success?
            && r.value.header == Header(SupportedVersion, StartTime(DecimalValue(days), DayFractionMs(frac)), layout)
            && r.value.unparsed == [] && |r.value.entries| == |body|
            && forall i | 0 <= i < |body| :: ParseBodyLine(body[i]) == Some(r.value.entries[i])
  {
    var head := [GateLine, StartTimePrefix + days + "." + frac, ColumnsPrefix + ColumnsText(layout)];
    WrittenHeader(days, frac, layout, body);
    WrittenHeaderTrimmed(days, frac, layout);
    LinesOfAppend(head, body);
    LoadReadsWholeText(head + body, Header(SupportedVersion, StartTime(DecimalValue(days), DayFractionMs(frac)), layout));
  }
}
