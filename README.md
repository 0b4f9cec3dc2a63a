# PCAN TRC trace format, version 2.1: recogniser and decoder

This project models the PCAN trace (TRC) reader of `canlogconvert` in Dafny
and proves properties of it. The reader works in two steps: a loader cuts the
text into lines and checks, from the first line alone, which TRC version the
file claims. Only version 2.1 goes on to be parsed:

- a header of three control lines in a fixed order:
  - `;$FILEVERSION=`, with a `digits.digits` number;
  - `;$STARTTIME=`, with days since 1899-12-30 and a fraction of a day;
  - `;$COLUMNS=`, with the column layout `[N],O,T,[B],I,d,[R],l|L,D`;
- then a body of free `;` comment lines and data lines.

A data line has nine fields in a fixed order: message number, time offset,
message type, bus, CAN-ID, direction, the reserved `-`, length, and hex data
words.

The modules follow the layers of the format:

- `Lexical`: character sets, numerals, the newline split and its inverse
  join, `digits.digits` values, and white-space separated tokens.
- `TrcVersion`: the FILEVERSION strings and version resolution.
- `TrcHeader`: the three control lines and the column layout they declare.
- `TrcRecord`: the token rules of a data line and the grammar of the whole
  line, both as the grammar writes it and with the CAN-ID `-` the layout
  documents.
- `TrcDecode`: what the documented fields mean:
  - 11- and 29-bit CAN-IDs at their 4 and 8 hex digits;
  - data bytes;
  - the payload of each message type (RR empty, ST a 4-byte big-endian status
    code, EC two error counters, ER five bytes);
  - the ranges of `l` and `L`.

  Each record writes back and reads in again as itself.
- `TrcFile`: the significant (non-blank, trimmed) lines, the two body rules,
  the body as the longest run of lines they read, and the loader
  `LoadString`.
- `Wrappers`: `Option` and `Result`.

The grammar is restated as functions over strings that return `Option` or
`Result`. Where the grammar and the documentation comments beside it
disagree in field order or in where the body ends, the model follows the
grammar:

- The data-line fields are read in one fixed order, whatever the COLUMNS line
  declares.
- The body is read for as long as one of its two rules accepts the next line.
  Whatever follows is kept, unread, as the `unparsed` tail, because the parse
  is not required to consume the whole text.

The two places where the grammar evidently does not do what was meant are
listed under Findings. Each rule is modelled twice, as written and as
intended; the loader `LoadString` reads the body with the intended rules.

## Model

| member | source | states |
|---|---|---|
| TrcVersion.ResolveVersion | canlogconvert/traces/formats/trc.py:247-261 | the result is always one of 1.0, 1.1, 1.2, 1.3, 2.0, 2.1; any result other than 1.0 means the first line is exactly that version's FILEVERSION line; 1.0 comes exactly when there are no lines or the first line is none of the five |
| TrcVersion.ResolveVersionExact | canlogconvert/traces/formats/trc.py:240-261 | for each of the five announced versions w, the text resolves to w if and only if its first line is `;$FILEVERSION=` followed by w |
| TrcVersion.ResolveVersionFirstLineOnly | canlogconvert/traces/formats/trc.py:247-261 | two line lists with the same first line, or two empty lists, resolve to the same version: nothing after the first line is looked at |
| TrcVersion.VersionHeaderLineInjective | canlogconvert/traces/formats/trc.py:240-244 | distinct versions have distinct FILEVERSION lines |
| Lexical.StripPrefix | canlogconvert/traces/formats/trc.py:21-25 | a literal that must come next is accepted exactly when the text starts with it, and what follows is the rest of the text; this serves the `;$KEYWORD=` of each control line and the mandatory columns of COLUMNS |
| TrcHeader.ParseFileVersion | canlogconvert/traces/formats/trc.py:22-28 | an accepted FILEVERSION line is the prefix followed by the returned version text |
| TrcHeader.FileVersionShape | canlogconvert/traces/formats/trc.py:22-28 | a line is a FILEVERSION line if and only if it is the prefix followed by one or more digits, `.`, and one or more digits |
| TrcHeader.ParseStartTime | canlogconvert/traces/formats/trc.py:29-39 | an accepted STARTTIME line starts with its prefix, and its milliseconds of the day are below 86400000 |
| TrcHeader.StartTimeShape | canlogconvert/traces/formats/trc.py:29-39 | a line is a STARTTIME line if and only if it is the prefix followed by digits, `.`, and digits, where either digit run may be empty |
| TrcHeader.DayFractionMs | canlogconvert/traces/formats/trc.py:264-272 | the fraction of a day, at 1 ms resolution, is the floor of fraction times 86400000, and lies in [0, 86400000) |
| TrcHeader.StartTimeDecodes | canlogconvert/traces/formats/trc.py:264-272 | every value `days.frac` is accepted and decodes to the whole days and the milliseconds of that fraction of the day |
| TrcHeader.ParseTag | canlogconvert/traces/formats/trc.py:44-71 | a piece of the COLUMNS value names a column exactly when it is that column's one letter, and the letter determines the column |
| TrcHeader.ParseTagList | canlogconvert/traces/formats/trc.py:44-71 | an accepted list of comma-separated pieces is exactly the letters of the returned columns |
| TrcHeader.ParseTagListOf | canlogconvert/traces/formats/trc.py:44-71 | any column list written as letters reads back as the same list |
| TrcHeader.OptionalTag | canlogconvert/traces/formats/trc.py:46 | an optional column is taken exactly when it is next, and otherwise nothing is consumed |
| TrcHeader.ParseColumnTags | canlogconvert/traces/formats/trc.py:44-71 | an accepted column list is exactly the list of the returned layout, in the canonical order `[N],O,T,[B],I,d,[R],l\|L,D` |
| TrcHeader.ParseColumnTagsOf | canlogconvert/traces/formats/trc.py:44-71 | every layout's canonical list is accepted and gives that layout back |
| TrcHeader.DeclaredTags | canlogconvert/traces/formats/trc.py:40-44 | the declared columns are the comma-separated letters after `;$COLUMNS=` |
| TrcHeader.ParseColumns | canlogconvert/traces/formats/trc.py:40-73 | an accepted COLUMNS line is exactly the prefix followed by the canonical text of the returned layout, and declares exactly that layout's columns |
| TrcHeader.ColumnsRoundTrip | canlogconvert/traces/formats/trc.py:40-73 | the canonical COLUMNS line of every layout is accepted and gives that layout back |
| TrcHeader.ColumnTagsMembers | canlogconvert/traces/formats/trc.py:9-10 | every layout holds O, T, I, d and D; it holds N, B or R exactly when its flag is set; it holds l exactly when the length kind is data length, and L exactly when it is the data length code |
| TrcHeader.ColumnsDeclared | canlogconvert/traces/formats/trc.py:40-73 | a COLUMNS line naming both l and L, or neither, is refused; an accepted line names all five mandatory columns, each of N, B and R exactly when the layout records it, and the one length column of its length kind |
| TrcHeader.IsControlLine | canlogconvert/traces/formats/trc.py:77 | a control line is one that the FILEVERSION, STARTTIME or COLUMNS rule accepts: the alternatives the comment rule must not see |
| TrcHeader.ControlKindsDisjoint | canlogconvert/traces/formats/trc.py:21-73 | no line is accepted by two of the FILEVERSION, STARTTIME and COLUMNS rules |
| TrcHeader.ParseHeader | canlogconvert/traces/formats/trc.py:83 | fewer than three lines is a missing header line; an accepted header has line 1 a FILEVERSION line carrying its version, line 2 a STARTTIME line giving its start time, and line 3 the canonical COLUMNS line of its layout; conversely, whenever the first three lines are read by the FILEVERSION, STARTTIME and COLUMNS rules in that order, the header is accepted with exactly those three readings |
| TrcHeader.HeaderFirstThree | canlogconvert/traces/formats/trc.py:83 | the header depends on the first three lines only |
| TrcHeader.FileVersionOf | canlogconvert/traces/formats/trc.py:22-28 | the FILEVERSION line of any version `major.minor` reads as that version |
| TrcHeader.HeaderOfLines | canlogconvert/traces/formats/trc.py:83 | the header a 2.1 trace is written with (the 2.1 FILEVERSION line, a STARTTIME line `days.frac`, the canonical COLUMNS line of a layout) is accepted as version 2.1 with that start time and that layout |
| TrcHeader.HeaderOrderFixed | canlogconvert/traces/formats/trc.py:83 | a header whose first line is a STARTTIME or COLUMNS line, or whose second is a FILEVERSION or COLUMNS line, is refused |
| TrcRecord.ParseMessageType | canlogconvert/traces/formats/trc.py:113-123 | an accepted type token is the tag of the returned type, and that type is never EV |
| TrcRecord.MessageTypeTags | canlogconvert/traces/formats/trc.py:153-173 | each of the nine tags DT, FD, FB, FE, BI, RR, ST, EC, ER reads back as its own type, and EV is refused |
| TrcRecord.ParseDirection | canlogconvert/traces/formats/trc.py:186-188 | a direction token is accepted if and only if it is `Rx` or `Tx`, and it reads as that direction |
| TrcRecord.ParseBus | canlogconvert/traces/formats/trc.py:88-106 | an accepted bus token is the text of the returned bus, which is 1..16 or `-` |
| TrcRecord.ParseBusOf | canlogconvert/traces/formats/trc.py:88-106 | each of `1` .. `16` and `-` reads back as its bus |
| TrcRecord.ParseNumber | canlogconvert/traces/formats/trc.py:125 | a number token is accepted if and only if it is one or more decimal digits; its value prints back as the token unless the token has a leading zero |
| TrcRecord.ParseNumberZero | canlogconvert/traces/formats/trc.py:125 | the token `0` reads as zero |
| TrcRecord.ParseNumberLeadingZero | canlogconvert/traces/formats/trc.py:125 | a leading zero does not change the value a number token reads as, so with NatTextCanonical every token of digits reads as its decimal value |
| TrcRecord.NatTextCanonical | canlogconvert/traces/formats/trc.py:132 | a numeral without a leading zero is the decimal text of its value |
| TrcRecord.ParseTimeOffset | canlogconvert/traces/formats/trc.py:127 | an accepted offset token is `ms.frac` with both digit runs non-empty; its whole milliseconds are the value of `ms` and its remaining microseconds the fraction `.frac` of a millisecond |
| TrcRecord.TimeOffsetShape | canlogconvert/traces/formats/trc.py:127 | a time offset is accepted if and only if it is one or more digits, `.`, and one or more digits |
| TrcRecord.TimeOffsetDecodes | canlogconvert/traces/formats/trc.py:15-17 | an offset `m.u` decodes to microseconds whose millisecond part is m; with the documented 3 fraction digits it is exactly m*1000 + u |
| TrcRecord.TimeOffsetRoundTrip | canlogconvert/traces/formats/trc.py:15-17 | every offset in microseconds, written as `ms.µµµ`, reads back as itself |
| TrcRecord.ParseCanIdToken | canlogconvert/traces/formats/trc.py:129 | an accepted CAN-ID token is the text it was read from: hex digits, or the `-` placeholder only where the placeholder is allowed; every hex word is accepted as hex |
| TrcRecord.ParseCanIdTokenOf | canlogconvert/traces/formats/trc.py:129 | every hex token, and `-` where allowed, reads back as itself |
| TrcRecord.ParseDataField | canlogconvert/traces/formats/trc.py:133-136 | accepted data is a list of hex words, and the trimmed rest of the line is exactly those words joined by single blanks |
| TrcRecord.DataFieldOf | canlogconvert/traces/formats/trc.py:133-136 | any list of hex words written with single blanks reads back as the same list |
| TrcRecord.DataFieldPadded | canlogconvert/traces/formats/trc.py:133-136 | hex words joined by single blanks read back as the same list whatever white space pads them on either side, as in a writer's aligned data column |
| TrcRecord.ParseLeading | canlogconvert/traces/formats/trc.py:139-142 | an accepted start of a line gives a type other than EV and a valid bus; the number and the offset are the readings of the first two tokens, the first four tokens are the texts of the type and the bus in that order, and the rest is the text behind the fourth token |
| TrcRecord.ParseTrailing | canlogconvert/traces/formats/trc.py:143-147 | the last five fields read give a hex CAN-ID or, only where the placeholder is allowed, `-`, and data made of hex words; the next four tokens are, in order, the CAN-ID, the direction, the reserved `-` and the length, and the data is the reading of the text behind them |
| TrcRecord.ParseLineData | canlogconvert/traces/formats/trc.py:138-149 | an accepted data line gives a well-formed record, whose CAN-ID is hex unless the placeholder is allowed |
| TrcRecord.DataLineFields | canlogconvert/traces/formats/trc.py:125-149 | a line is a data line if and only if its first eight tokens are read, in order, by the number, time-offset, type, bus, CAN-ID, direction rules, the reserved `-` and the length rule, and the text behind them by the data rule; the record is then made of exactly those readings |
| TrcRecord.ParseDataLine | canlogconvert/traces/formats/trc.py:138-149 | every accepted data line gives a record with a type other than EV, bus 1..16 or `-`, a hex CAN-ID or `-`, and hex data words |
| TrcRecord.ParseDataLineAsWritten | canlogconvert/traces/formats/trc.py:138-149 | as ParseDataLine, and the CAN-ID is always hex digits |
| TrcRecord.TokensOfRecord | canlogconvert/traces/formats/trc.py:138-149 | every field of a valid record is written as one token without white space |
| TrcRecord.DataLineRoundTrip | canlogconvert/traces/formats/trc.py:138-149 | every valid record written in the order N,O,T,B,I,d,R,l,D with single blanks is read back as the same record |
| TrcRecord.AsWrittenWithinDocumented | canlogconvert/traces/formats/trc.py:129 | whatever the hex-only rule accepts, the rule that also allows `-` accepts the same way |
| TrcRecord.PlaceholderRowRefusedAsWritten | canlogconvert/traces/formats/trc.py:180-183 | a row written as documented, with `-` as its CAN-ID, is read by the corrected rule and refused by the rule as written |
| TrcDecode.CanIdText | canlogconvert/traces/formats/trc.py:180-183 | a valid identifier is written as 4 hex digits (11-bit) or 8 (29-bit) whose value is the identifier |
| TrcDecode.DecodeCanId | canlogconvert/traces/formats/trc.py:180-183 | hex digits decode to an identifier if and only if they are 4 digits up to 0x7FF or 8 digits up to 0x1FFFFFFF; the identifier has that value and width |
| TrcDecode.CanIdRoundTrip | canlogconvert/traces/formats/trc.py:57-60 | every valid 11- or 29-bit identifier reads back as itself from its text |
| TrcDecode.CanIdBounds | canlogconvert/traces/formats/trc.py:57-60 | a decoded identifier is at most 0x1FFFFFFF, and at most 0x7FF when written with 4 digits |
| TrcDecode.DecodeBytes | canlogconvert/traces/formats/trc.py:202 | data words decode if and only if every word is exactly two hex digits, each giving the byte of its value |
| TrcDecode.BytesRoundTrip | canlogconvert/traces/formats/trc.py:202 | bytes written as two-digit hex words read back unchanged |
| TrcDecode.BigEndian | canlogconvert/traces/formats/trc.py:206-207 | the Motorola-order value of n bytes is below 256^n |
| TrcDecode.StatusCodeOfBytes | canlogconvert/traces/formats/trc.py:206-207 | a 4-byte status code weighs its bytes by 2^24, 2^16, 2^8 and 1, most significant byte first, and fits 32 bits |
| TrcDecode.StatusBytes | canlogconvert/traces/formats/trc.py:206-207 | every 32-bit status code has four bytes whose big-endian value is the code |
| TrcDecode.DecodePayload | canlogconvert/traces/formats/trc.py:202-212 | a payload decodes if and only if: ST, EC and ER carry `-` and exactly 4, 2 and 5 bytes, and under `l` exactly their length in bytes; other types carry a valid CAN-ID; RR carries no data; under `l` a data frame carries exactly its length in bytes. The payload is then the frame's identifier and bytes, the big-endian status code, the RX then TX error counters, or the five error bytes |
| TrcDecode.DecodeRecord | canlogconvert/traces/formats/trc.py:195-212 | a row decodes if and only if it is well formed: not EV, length in 0..1785 under `l` or 0..15 under `L`, two-digit hex bytes, under `l` as many bytes as the length column says (RR excepted, see below) and a payload that suits its type. The other columns are kept, and the payload is as DecodePayload states, in terms of the hex words of the row |
| TrcDecode.DataLengthIsByteCount | canlogconvert/traces/formats/trc.py:195-196 | under `l`, every decoded row other than RR has exactly as many data words as its length column says |
| TrcDecode.DecodeEncode | canlogconvert/traces/formats/trc.py:202-212 | every valid trace record written as row fields decodes to itself |
| TrcDecode.TraceLineRoundTrip | canlogconvert/traces/formats/trc.py:138-149 | every valid trace record written as a data line is read by the grammar and decodes to itself |
| TrcFile.Trimmed | canlogconvert/traces/formats/trc.py:150 | a line trims to nothing exactly when it is blank, and otherwise to text that neither starts nor ends with white space |
| TrcFile.TrimmedSpan | canlogconvert/traces/formats/trc.py:150 | the trimmed line is the line's own text between a blank prefix and a blank suffix |
| TrcFile.Significant | canlogconvert/traces/formats/trc.py:150 | the significant lines are no more than the lines (each is a trimmed non-blank line, by SignificantTrimmed, and blank lines are dropped, by BlankLineIgnored) |
| TrcFile.SignificantOne | canlogconvert/traces/formats/trc.py:150 | a single line is dropped when blank and otherwise kept as its trimmed text; with SignificantAppend this determines the significant lines of any text, so an indented line is read as its text |
| TrcFile.SignificantTrimmed | canlogconvert/traces/formats/trc.py:150 | every significant line is non-empty and trimmed |
| TrcFile.BlankLineIgnored | canlogconvert/traces/formats/trc.py:150 | a blank line anywhere in a text changes nothing about what is read |
| TrcFile.IsLineCommentAsWritten | canlogconvert/traces/formats/trc.py:75-80 | the comment rule as written: a `;`, and then no control line, tested on the trimmed text after that `;` |
| TrcFile.IsLineComment | canlogconvert/traces/formats/trc.py:75-80 | the comment rule as intended: a line beginning with `;` that is not itself a FILEVERSION, STARTTIME or COLUMNS line |
| TrcFile.ControlLineReadAsComment | canlogconvert/traces/formats/trc.py:75-80 | a repeated STARTTIME line is a comment to the rule as written and not to the rule as intended, while `;` followed by that line is refused by the rule as written |
| TrcFile.CommentIsNotData | canlogconvert/traces/formats/trc.py:75-80 | a line beginning with `;` is never a data line |
| TrcFile.ParseBodyLine | canlogconvert/traces/formats/trc.py:150 | a body line is read by the comment rule or else by the data rule; what each reading holds is stated by BodyLineReading |
| TrcFile.BodyLineReading | canlogconvert/traces/formats/trc.py:150 | a body line reads as a comment (the text after its `;`) only when the comment rule accepts it, and as a record only when that record is what the data rule reads; it is left unread if and only if neither rule accepts it |
| TrcFile.BodyRulesDisjoint | canlogconvert/traces/formats/trc.py:150 | no line is accepted by both the comment rule (as intended or as written) and the data rule, so the order in which the two rules are tried does not matter |
| TrcFile.ReadRun | canlogconvert/traces/formats/trc.py:150 | a repeated rule reads at most one entry per line, and leaves exactly the lines after those it read |
| TrcFile.ReadRunEntries | canlogconvert/traces/formats/trc.py:150 | each entry of a repeated rule is the reading of the line at its place, and the first line left over is one the rule refuses |
| TrcFile.ParseBody | canlogconvert/traces/formats/trc.py:150 | the body reads at most one entry per line, and the unparsed tail is exactly the lines after those read |
| TrcFile.ParseBodyEntries | canlogconvert/traces/formats/trc.py:150 | the i-th body entry is the reading of the i-th line, and the first unparsed line is one neither body rule reads |
| TrcFile.ParseBodyReadsAll | canlogconvert/traces/formats/trc.py:150 | when every line is read by a body rule, the body takes them all and leaves nothing unparsed |
| TrcFile.ControlLineEndsBody | canlogconvert/traces/formats/trc.py:75-80 | under the intended comment rule, a repeated control line ends the body: nothing from it on is read |
| TrcFile.ControlLineIsNotData | canlogconvert/traces/formats/trc.py:75-80 | every control line begins with `;` and is never a data line |
| TrcFile.LoadString | canlogconvert/traces/formats/trc.py:281-287 | the text is refused with its version if and only if that version is not 2.1; a loaded text starts with the 2.1 FILEVERSION line, its header has version 2.1 and is read from the first three significant lines, and its entries and unparsed tail are the body read from the remaining significant lines; once the gate passes, a header that is refused is reported as that same header error |
| TrcFile.GateLineStarts | canlogconvert/traces/formats/trc.py:281-284 | once the gate passes, the 2.1 FILEVERSION line is both the first line of the text and its first significant line |
| TrcFile.OnlyVersion21Loads | canlogconvert/traces/formats/trc.py:281-284 | a loaded text's first line is the 2.1 FILEVERSION line, and any text whose first line is not that line is refused as an unsupported version |
| Lexical.Split | canlogconvert/traces/formats/trc.py:282 | the pieces between newlines hold no newline, there is at least one, and joining them at newlines gives the text back |
| TrcFile.TextOfLines | canlogconvert/traces/formats/trc.py:282 | trimmed lines without newlines, joined at newlines, split back into the same lines, all of them significant |
| TrcFile.LoadStringOf | canlogconvert/traces/formats/trc.py:281-287 | once the gate passes and the header reads, the text loads to that header and the body of the remaining significant lines |
| TrcFile.BodyReadsAll | canlogconvert/traces/formats/trc.py:150 | when every line after the header is read by a body rule, the body has one entry per line, in order, and nothing is left unparsed |
| TrcFile.LoadReadsWholeText | canlogconvert/traces/formats/trc.py:281-287 | a text made of trimmed lines (the 2.1 header first, then lines the body rules read) loads completely: its header, one entry per body line in order, and an empty unparsed tail |
| TrcFile.WrittenTraceLoads | canlogconvert/traces/formats/trc.py:281-287 | a trace written as the format lays it out (the 2.1 FILEVERSION line, a STARTTIME line, the COLUMNS line of a layout, then trimmed lines the body rules read) loads with that version, start time and layout, one entry per body line in order, and nothing unparsed |

## Left out

- Printing: the pretty printer and the loop that prints every parsed token
  are output only. `TrcFile.LoadString` returns the parse result instead.
- TrcFile.LoadString: the body is read with the corrected CAN-ID rule, which
  also accepts the `-` of ST, EC and ER rows, and with the intended comment
  rule, under which a repeated control line ends the body. The grammar as
  written instead ends the body at a `-` CAN-ID row and reads a repeated
  control line as a comment. Both as-written rules are modelled
  (`TrcRecord.ParseDataLineAsWritten`, `TrcFile.IsLineCommentAsWritten`), but
  no loader is built from them.
- The exception the loader raises names a class that is never defined. It is
  modelled as the failure result `UnsupportedVersion`.
- The parsing library's own machinery is not modelled: token-list shapes,
  `Combine` adjacency and the longest-match choice of `Or`. The grammar is
  restated directly over strings, as follows.
  - Blank lines are skipped.
  - Each line is trimmed of spaces, tabs and carriage returns.
  - Fields of a data line are separated by runs of that white space.
  - Data words are separated by single blanks.
  - A control line must make up its whole line.
  - The library's skipping of newlines between tokens, which could spread one
    data line over several text lines, is not modelled. Its main effect in
    the source: the data column of a row with no data words that is not the
    last line (every RR row, every row of length 0) goes on into the next
    line and takes that row's number and the integer part of its offset as
    data words. After `1 0.000 RR 1 0100 Rx - 8`, the line
    `2 1.000 DT 1 0100 Rx - 1 00` gives the first row the data `2 1`, and
    both body rules then fail at `.000`, so the source ends the body there.
    The model reads each line on its own and goes on.
  - White space inside a control line is not skipped: the source accepts
    `;$STARTTIME = 1.5` and `;$COLUMNS=N, O, T, …`, and the model refuses
    them.
  - A bare `;` line is one comment with empty text. In the source its
    `.*` skips the newline and takes the next line as its text, so the two
    lines give one entry.
  - A comment keeps all the text after its `;`. The source drops the blanks
    at its start.
- TrcRecord.ParseDataField: the library matches the data column as a prefix
  and leaves the rest of the line to the next body rule. The model refuses
  the whole line instead. When the rest does not start with `;`, the next
  rule fails too, and both end the body with the same entries before it.
  When the rest starts with `;`, for example
  `1 0.000 DT 1 0100 Rx - 2 01 02 ;note`, the source reads a record and then
  a comment entry and goes on, because the comment rule is not tied to the
  start of a line; the model ends the body at that line.
- Within one data line the fields are read in the fixed order N,O,T,B,I,d,R,l,D
  whatever the COLUMNS line declares, as the grammar does. A file whose
  COLUMNS line omits N, B or R is therefore still read with all nine fields.
- EV (event) rows are refused by the type rule, as in the grammar.
- The J1939 meaning of the reserved column is not modelled: only `-` is
  accepted, as in the grammar.
- Message numbers with a `)` suffix are refused, as `Word(nums)` refuses them.
- J1939 data length codes: `L` is documented as 0..15 in one place and as up
  to 1785 for J1939 in another. The model follows the 0..15 range, so J1939
  `L` values 16..1785 are refused.
- TrcDecode.DecodeRecord: an RR row under `l` keeps the length it requests
  (the documented data column of RR is empty), so its length is not tied to
  its byte count; every other row under `l` must have as many bytes as its
  length says.
- The DLC-to-byte-count table of CAN FD does not appear in the source and is
  not modelled. Under `L` only the range 0..15 is checked, and the data
  length is not tied to the code.
- TrcHeader.DayFractionMs: the source computes nothing for STARTTIME (its
  helper returns nothing). The documented meaning is decoded with integers
  only: whole days, plus the day fraction rounded down to whole
  milliseconds. There is no floating point.
- TrcRecord.TimeOffsetDecodes: a fraction of other than the documented three
  digits is read as a decimal fraction of a millisecond, rounded down to whole
  microseconds. The exact value m*1000 + u is stated for three digits.
- Dead definitions are not modelled: the first, overwritten data-column rule,
  the `Comment` alias, the stub helpers for STARTTIME and COLUMNS, and the
  trailing notes.

## Findings

| source | as written | input that shows it | evidently intended | confidence | as-written member | corrected member |
|---|---|---|---|---|---|---|
| canlogconvert/traces/formats/trc.py:129 | the CAN-ID rule accepts hex digits only | `1 0.000 ST 1 - Rx - 4 00 00 00 00`, a status row written as the layout documents it, with `-` as its CAN-ID, is refused, and with it every line after it | ST, EC and ER rows carry `-` in the CAN-ID column (trc.py:57-60, 180-183), so the rule should accept `-` as well | not executed | TrcRecord.PlaceholderRowRefusedAsWritten | TrcRecord.DataLineRoundTrip |
| canlogconvert/traces/formats/trc.py:75-80 | the comment rule consumes `;` and only then tests that no control line follows. It tests the text after that `;`, so it refuses `;;$STARTTIME=1.5` but not a control line itself, whose own `;` it has just consumed | `;$STARTTIME=1.5` repeated in the body is read as a free comment | a comment is a `;` line that is not one of the three control lines | not executed | TrcFile.ControlLineReadAsComment | TrcFile.ControlLineEndsBody |
