/** Character classes, numerals and the line/token splitting that the trace
    grammar is built from. The grammar's `nums` and `hexnums` character sets,
    its white space, the `"\n"` split of the loader and the `" "`-separated
    hex words of the data column are all stated here once. */
module Lexical {
  import opened Wrappers

  // ---------------------------------------------------------------------
  // Character classes
  // ---------------------------------------------------------------------

  /** A character of the grammar's `nums` set. */
  predicate IsDigit(c: char) { '0' <= c <= '9' }

  /** A character of the grammar's `hexnums` set (either letter case). */
  predicate IsHexDigit(c: char) { '0' <= c <= '9' || 'A' <= c <= 'F' || 'a' <= c <= 'f' }

  /** White space skipped between the tokens of one line (a newline ends the line). */
  predicate IsSpace(c: char) { c == ' ' || c == '\t' || c == '\r' }

  predicate AllDigits(s: string) { forall i | 0 <= i < |s| :: IsDigit(s[i]) }

  predicate AllHexDigits(s: string) { forall i | 0 <= i < |s| :: IsHexDigit(s[i]) }

  /** `Word(nums)`: one or more decimal digits. */
  predicate IsNumber(s: string) { |s| > 0 && AllDigits(s) }

  /** `Word(hexnums)`: one or more hexadecimal digits. */
  predicate IsHexWord(s: string) { |s| > 0 && AllHexDigits(s) }

  predicate NoSpace(s: string) { forall i | 0 <= i < |s| :: !IsSpace(s[i]) }

  /** A text of white space only: a blank line, or the padding around a field. */
  predicate IsBlank(line: string) { forall i | 0 <= i < |line| :: IsSpace(line[i]) }

  /** A non-empty run of characters that are not white space: one token. */
  predicate IsToken(s: string) { |s| > 0 && NoSpace(s) }

  // ---------------------------------------------------------------------
  // Numerals
  // ---------------------------------------------------------------------

  function Pow(b: nat, e: nat): (r: nat)
    ensures b > 0 ==> r > 0
  {
    if e == 0 then 1 else b * Pow(b, e - 1)
  }

  function DigitValue(c: char): (d: nat)
    requires IsDigit(c)
    ensures d < 10
  {
    (c as int - '0' as int) as nat
  }

  function HexDigitValue(c: char): (d: nat)
    requires IsHexDigit(c)
    ensures d < 16
  {
    if '0' <= c <= '9' then (c as int - '0' as int) as nat
    else if 'A' <= c <= 'F' then (c as int - 'A' as int + 10) as nat
    else (c as int - 'a' as int + 10) as nat
  }

  /** The value of a run of decimal digits, most significant first; the
      empty run is 0. A run of k digits is below 10^k. */
  function DecimalValue(s: string): (n: nat)
    requires AllDigits(s)
    ensures n < Pow(10, |s|)
    decreases |s|
  {
    if |s| == 0 then 0
    else DecimalValue(s[..|s| - 1]) * 10 + DigitValue(s[|s| - 1])
  }

  /** The value of a run of hexadecimal digits, most significant first. A run
      of k digits is below 16^k. */
  function HexValue(s: string): (n: nat)
    requires AllHexDigits(s)
    ensures n < Pow(16, |s|)
    decreases |s|
  {
    if |s| == 0 then 0
    else HexValue(s[..|s| - 1]) * 16 + HexDigitValue(s[|s| - 1])
  }

  function DigitChar(d: nat): (c: char)
    requires d < 10
    ensures IsDigit(c) && DigitValue(c) == d
  {
    (d + '0' as int) as char
  }

  function HexChar(d: nat): (c: char)
    requires d < 16
    ensures IsHexDigit(c) && HexDigitValue(c) == d
    ensures !('a' <= c <= 'f')
  {
    if d < 10 then (d + '0' as int) as char else (d - 10 + 'A' as int) as char
  }

  /** The shortest decimal numeral of n; reading it back gives n. */
  function NatText(n: nat): (s: string)
    ensures IsNumber(s) && DecimalValue(s) == n
    ensures s[0] == '0' ==> n == 0
    decreases n
  {
    if n < 10 then [DigitChar(n)]
    else
      var front := NatText(n / 10);
      var s := front + [DigitChar(n % 10)];
      assert s[..|s| - 1] == front;
      s
  }

  /** The upper-case hexadecimal numeral of n with exactly `width` digits,
      leading zeros included; reading it back gives n. */
  function HexText(n: nat, width: nat): (s: string)
    requires n < Pow(16, width)
    ensures |s| == width && AllHexDigits(s) && HexValue(s) == n
    decreases width
  {
    if width == 0 then ""
    else if width == 1 then [HexChar(n)]
    else
      var front := HexText(n / 16, width - 1);
      var s := front + [HexChar(n % 16)];
      assert s[..|s| - 1] == front;
      s
  }

  lemma FloorOfFraction(n: nat, p: nat, k: nat, q: nat)
    requires 0 < p && n < p && 0 < k
    requires q == (n * k) / p
    ensures q < k
    ensures q * p <= n * k < (q + 1) * p
  {
    var x := n * k;
    assert x == q * p + x % p;
    assert x < p * k by {
      assert (p - n) * k > 0;
    }
  }

  /** A decimal fraction `0.frac` expressed in whole units of 1/unit, rounded
      down: below `unit`, and the largest q with q / unit <= 0.frac. */
  function ScaledFraction(frac: string, unit: nat): (q: nat)
    requires AllDigits(frac) && unit > 0
    ensures q < unit
    ensures q * Pow(10, |frac|) <= DecimalValue(frac) * unit < (q + 1) * Pow(10, |frac|)
  {
    var q := (DecimalValue(frac) * unit) / Pow(10, |frac|);
    FloorOfFraction(DecimalValue(frac), Pow(10, |frac|), unit, q);
    q
  }

  // ---------------------------------------------------------------------
  // Splitting on a separator (Python's str.split with an explicit separator)
  // ---------------------------------------------------------------------

  /** The pieces joined back together, one separator between neighbours. */
  function Join(parts: seq<string>, sep: char): string
  {
    if |parts| == 0 then ""
    else if |parts| == 1 then parts[0]
    else parts[0] + [sep] + Join(parts[1..], sep)
  }

  /** The pieces of s between occurrences of sep. There is always at least
      one piece, no piece contains sep, and joining the pieces gives s back. */
  function Split(s: string, sep: char): (parts: seq<string>)
    ensures |parts| >= 1
    ensures forall i | 0 <= i < |parts| :: sep !in parts[i]
    ensures Join(parts, sep) == s
    decreases |s|
  {
    if |s| == 0 then [""]
    else
      var rest := Split(s[1..], sep);
      if s[0] == sep then
        var parts := [""] + rest;
        assert parts[1..] == rest;
        parts
      else
        var parts := [[s[0]] + rest[0]] + rest[1..];
        assert parts[1..] == rest[1..];
        assert |rest| == 1 || Join(rest, sep) == rest[0] + [sep] + Join(rest[1..], sep);
        parts
  }

  lemma {:induction false} SplitNoSeparator(p: string, sep: char)
    requires sep !in p
    ensures Split(p, sep) == [p]
    decreases |p|
  {
    if |p| > 0 {
      SplitNoSeparator(p[1..], sep);
      assert [p[0]] + p[1..] == p;
    }
  }

  lemma {:induction false} SplitAfterPiece(p: string, r: string, sep: char)
    requires sep !in p
    ensures Split(p + [sep] + r, sep) == [p] + Split(r, sep)
    decreases |p|
  {
    var s := p + [sep] + r;
    if |p| == 0 {
      assert s[1..] == r;
    } else {
      assert s[1..] == p[1..] + [sep] + r;
      SplitAfterPiece(p[1..], r, sep);
      assert [p[0]] + p[1..] == p;
    }
  }

  /** Splitting undoes joining when no piece contains the separator. */
  lemma {:induction false} SplitOfJoin(parts: seq<string>, sep: char)
    requires |parts| >= 1
    requires forall i | 0 <= i < |parts| :: sep !in parts[i]
    ensures Split(Join(parts, sep), sep) == parts
    decreases |parts|
  {
    if |parts| == 1 {
      SplitNoSeparator(parts[0], sep);
    } else {
      SplitAfterPiece(parts[0], Join(parts[1..], sep), sep);
      SplitOfJoin(parts[1..], sep);
      assert [parts[0]] + parts[1..] == parts;
    }
  }

  /** What follows `prefix` in s, when s starts with it: the literal
      pieces that a rule expects next, such as the `;$KEYWORD=` of a control
      line or the mandatory columns of a COLUMNS value. */
  function StripPrefix<T(==)>(s: seq<T>, prefix: seq<T>): (r: Option<seq<T>>)
    ensures r.Some? <==> prefix <= s
    ensures r.Some? ==> s == prefix + r.value
  {
    if prefix <= s then Some(s[|prefix|..]) else None
  }

  lemma StripPrefixOf<T>(prefix: seq<T>, rest: seq<T>)
    ensures StripPrefix(prefix + rest, prefix) == Some(rest)
  {
    assert prefix <= prefix + rest;
    assert (prefix + rest)[|prefix|..] == rest;
  }

  /** The text before and after the first occurrence of c, if c occurs. */
  function SplitAtFirst(s: string, c: char): (r: Option<(string, string)>)
    ensures r.None? <==> c !in s
    ensures r.Some? ==> s == r.value.0 + [c] + r.value.1 && c !in r.value.0
    decreases |s|
  {
    if |s| == 0 then None
    else if s[0] == c then Some(("", s[1..]))
    else
      match SplitAtFirst(s[1..], c)
      case None => None
      case Some((a, b)) => Some(([s[0]] + a, b))
  }

  /** A run of digits holds no '.'. */
  lemma NoDotInDigits(s: string)
    requires AllDigits(s)
    ensures '.' !in s
  {
    forall j | 0 <= j < |s| ensures s[j] != '.' {
      assert IsDigit(s[j]);
    }
  }

  lemma {:induction false} SplitAtFirstOf(a: string, b: string, c: char)
    requires c !in a
    ensures SplitAtFirst(a + [c] + b, c) == Some((a, b))
    decreases |a|
  {
    var s := a + [c] + b;
    if |a| > 0 {
      assert s[1..] == a[1..] + [c] + b;
      SplitAtFirstOf(a[1..], b, c);
      assert [a[0]] + a[1..] == a;
    }
  }

  /** The shape `digits "." digits` of the grammar's numeric values; with
      `nonEmpty` both digit runs must hold at least one digit. */
  predicate IsDotted(v: string, nonEmpty: bool)
  {
    exists i | 0 <= i < |v| ::
      && v[i] == '.'
      && AllDigits(v[..i]) && AllDigits(v[i + 1..])
      && (nonEmpty ==> 0 < i < |v| - 1)
  }

  /** The digit runs on either side of the first '.', if it has them. */
  predicate SplitsDotted(v: string, nonEmpty: bool)
  {
    && SplitAtFirst(v, '.').Some?
    && AllDigits(SplitAtFirst(v, '.').value.0)
    && AllDigits(SplitAtFirst(v, '.').value.1)
    && (nonEmpty ==> |SplitAtFirst(v, '.').value.0| > 0 && |SplitAtFirst(v, '.').value.1| > 0)
  }

  /** A dotted value is recognised by splitting at its first '.', because a
      digit run holds no '.'. */
  lemma DottedBySplit(v: string, nonEmpty: bool)
    ensures IsDotted(v, nonEmpty) <==>
              && SplitAtFirst(v, '.').Some?
              && AllDigits(SplitAtFirst(v, '.').value.0)
              && AllDigits(SplitAtFirst(v, '.').value.1)
              && (nonEmpty ==> |SplitAtFirst(v, '.').value.0| > 0 && |SplitAtFirst(v, '.').value.1| > 0)
  {
    if IsDotted(v, nonEmpty) {
      SplitOfDotted(v, nonEmpty);
    }
    if SplitsDotted(v, nonEmpty) {
      DottedOfSplit(v, nonEmpty);
    }
  }

  lemma SplitOfDotted(v: string, nonEmpty: bool)
    requires IsDotted(v, nonEmpty)
    ensures SplitsDotted(v, nonEmpty)
  {
    var i :| 0 <= i < |v| && v[i] == '.' && AllDigits(v[..i]) && AllDigits(v[i + 1..])
             && (nonEmpty ==> 0 < i < |v| - 1);
    NoDotInDigits(v[..i]);
    assert v == v[..i] + ['.'] + v[i + 1..];
    SplitAtFirstOf(v[..i], v[i + 1..], '.');
  }

  lemma DottedOfSplit(v: string, nonEmpty: bool)
    requires SplitsDotted(v, nonEmpty)
    ensures IsDotted(v, nonEmpty)
  {
    var r := SplitAtFirst(v, '.').value;
    var i := |r.0|;
    assert v == r.0 + ['.'] + r.1;
    assert v[..i] == r.0;
    assert v[i + 1..] == r.1;
    assert v[i] == '.';
  }

  // ---------------------------------------------------------------------
  // Tokens separated by white space
  // ---------------------------------------------------------------------

  /** s without its leading white space. */
  function SkipSpaces(s: string): (r: string)
    ensures |r| <= |s|
    ensures r == [] || !IsSpace(r[0])
    decreases |s|
  {
    if |s| > 0 && IsSpace(s[0]) then SkipSpaces(s[1..]) else s
  }

  /** s without its trailing white space. */
  function TrimEnd(s: string): (r: string)
    ensures |r| <= |s| && r == s[..|r|]
    ensures forall i | |r| <= i < |s| :: IsSpace(s[i])
    ensures r == [] || !IsSpace(r[|r| - 1])
    decreases |s|
  {
    if |s| > 0 && IsSpace(s[|s| - 1]) then TrimEnd(s[..|s| - 1]) else s
  }

  /** Leading white space of any length is skipped up to the first character
      that is not white space. */
  lemma {:induction false} SkipSpacesOfBlank(pre: string, t: string)
    requires IsBlank(pre)
    requires t == [] || !IsSpace(t[0])
    ensures SkipSpaces(pre + t) == t
    decreases |pre|
  {
    if |pre| == 0 {
      assert pre + t == t;
    } else {
      assert (pre + t)[1..] == pre[1..] + t;
      SkipSpacesOfBlank(pre[1..], t);
    }
  }

  /** Trailing white space of any length is dropped back to the last
      character that is not white space. */
  lemma {:induction false} TrimEndOfBlank(t: string, post: string)
    requires IsBlank(post)
    requires t == [] || !IsSpace(t[|t| - 1])
    ensures TrimEnd(t + post) == t
    decreases |post|
  {
    if |post| == 0 {
      assert t + post == t;
    } else {
      var shorter := post[..|post| - 1];
      assert (t + post)[..|t + post| - 1] == t + shorter;
      TrimEndOfBlank(t, shorter);
    }
  }

  /** The longest prefix of s free of white space, and what follows it. */
  function TakeWord(s: string): (p: (string, string))
    ensures s == p.0 + p.1 && NoSpace(p.0)
    ensures p.1 == [] || IsSpace(p.1[0])
    decreases |s|
  {
    if |s| == 0 || IsSpace(s[0]) then ("", s)
    else
      var (w, r) := TakeWord(s[1..]);
      ([s[0]] + w, r)
  }

  lemma {:induction false} TakeWordOf(w: string, r: string)
    requires NoSpace(w)
    requires r == [] || IsSpace(r[0])
    ensures TakeWord(w + r) == (w, r)
    decreases |w|
  {
    if |w| == 0 {
      assert w + r == r;
    } else {
      assert (w + r)[0] == w[0];
      assert (w + r)[1..] == w[1..] + r;
      TakeWordOf(w[1..], r);
      assert [w[0]] + w[1..] == w;
    }
  }

  /** The next token of a line after skipping white space, and the rest of
      the line behind it (empty token at the end of the line). */
  function NextToken(s: string): (p: (string, string))
    ensures NoSpace(p.0)
    ensures p.1 == [] || IsSpace(p.1[0])
  {
    TakeWord(SkipSpaces(s))
  }

  /** One blank in front of a token is skipped. */
  lemma SkipBlankBeforeToken(ts: seq<string>)
    requires |ts| > 0
    requires forall i | 0 <= i < |ts| :: IsToken(ts[i])
    ensures SkipSpaces(" " + Join(ts, ' ')) == Join(ts, ' ')
  {
    var j := Join(ts, ' ');
    assert |ts| == 1 || j == ts[0] + " " + Join(ts[1..], ' ');
    assert j[0] == ts[0][0];
    assert (" " + j)[1..] == j;
  }

  /** Joined tokens end in a character that is not white space. */
  lemma JoinEndsWithToken(ts: seq<string>)
    requires |ts| > 0
    requires forall i | 0 <= i < |ts| :: IsToken(ts[i])
    ensures |Join(ts, ' ')| > 0 && !IsSpace(Join(ts, ' ')[|Join(ts, ' ')| - 1])
    decreases |ts|
  {
    if |ts| > 1 {
      JoinEndsWithToken(ts[1..]);
    }
  }

  /** The text after a token: nothing, or a blank and the next tokens. */
  function Rest(ts: seq<string>): string
  {
    if ts == [] then "" else " " + Join(ts, ' ')
  }

  /** Joined tokens are the first token and the text behind it. */
  lemma JoinFirst(ts: seq<string>)
    requires |ts| > 0
    ensures Join(ts, ' ') == ts[0] + Rest(ts[1..])
  {
    var t := ts[0];
    if |ts| == 1 {
      assert t + "" == t;
    } else {
      AppendAssociative(t, [' '], Join(ts[1..], ' '));
    }
  }

  lemma AppendAssociative<T>(a: seq<T>, b: seq<T>, c: seq<T>)
    ensures a + b + c == a + (b + c)
  {
  }

  /** Tokens written with one blank between them are read back one by one:
      the text behind a token list starts with its first token. */
  lemma NextTokenOfRest(ts: seq<string>)
    requires |ts| > 0
    requires forall i | 0 <= i < |ts| :: IsToken(ts[i])
    ensures NextToken(Rest(ts)) == (ts[0], Rest(ts[1..]))
  {
    SkipBlankBeforeToken(ts);
    JoinFirst(ts);
    var after := Rest(ts[1..]);
    if after != [] {
      assert after[0] == ' ';
    }
    TakeWordOf(ts[0], after);
  }

  /** n tokens read one after the other, and the text behind the last. A
      token that is not there is read as the empty word. */
  function TakeTokens(s: string, n: nat): (r: (seq<string>, string))
    ensures |r.0| == n
    decreases n
  {
    if n == 0 then ([], s)
    else
      var p := NextToken(s);
      var q := TakeTokens(p.1, n - 1);
      ([p.0] + q.0, q.1)
  }

  /** Reading m + n tokens is reading m tokens and then n more from the text
      behind them. */
  lemma {:induction false} TakeTokensSplit(s: string, m: nat, n: nat)
    ensures var p := TakeTokens(s, m);
            var q := TakeTokens(p.1, n);
            TakeTokens(s, m + n) == (p.0 + q.0, q.1)
    decreases m
  {
    if m == 0 {
      assert [] + TakeTokens(s, n).0 == TakeTokens(s, n).0;
    } else {
      var t := NextToken(s);
      TakeTokensSplit(t.1, m - 1, n);
      var p := TakeTokens(t.1, m - 1);
      var q := TakeTokens(p.1, n);
      AppendAssociative([t.0], p.0, q.0);
    }
  }

  /** Reading n tokens from the text behind a token list gives its first n
      tokens and leaves the text behind them. */
  lemma {:induction false} TakeTokensOfRest(ts: seq<string>, n: nat)
    requires 0 < n <= |ts|
    requires forall i | 0 <= i < |ts| :: IsToken(ts[i])
    ensures TakeTokens(Rest(ts), n) == (ts[..n], Rest(ts[n..]))
    decreases n, 1
  {
    if n == 1 {
      TakeOneToken(ts);
    } else {
      TakeTokensStep(ts, n);
    }
  }

  lemma TakeOneToken(ts: seq<string>)
    requires 0 < |ts|
    requires forall i | 0 <= i < |ts| :: IsToken(ts[i])
    ensures TakeTokens(Rest(ts), 1) == (ts[..1], Rest(ts[1..]))
  {
    NextTokenOfRest(ts);
    var p := NextToken(Rest(ts));
    var q := TakeTokens(p.1, 0);
    assert q == ([], p.1);
    assert TakeTokens(Rest(ts), 1) == ([p.0] + q.0, q.1);
    assert [p.0] + q.0 == ts[..1];
  }

  lemma {:induction false} TakeTokensStep(ts: seq<string>, n: nat)
    requires 1 < n <= |ts|
    requires forall i | 0 <= i < |ts| :: IsToken(ts[i])
    ensures TakeTokens(Rest(ts), n) == (ts[..n], Rest(ts[n..]))
    decreases n, 0
  {
    NextTokenOfRest(ts);
    var tail := ts[1..];
    var p := NextToken(Rest(ts));
    assert p == (ts[0], Rest(tail));
    TakeTokensOfRest(tail, n - 1);
    var q := TakeTokens(p.1, n - 1);
    assert q == (tail[..n - 1], Rest(tail[n - 1..]));
    assert tail[..n - 1] == ts[1..n];
    assert tail[n - 1..] == ts[n..];
    assert [ts[0]] + ts[1..n] == ts[..n];
  }

  /** A line is read like the text behind a token: leading blanks are skipped. */
  lemma TakeTokensOfLine(ts: seq<string>, n: nat)
    requires 0 < n <= |ts|
    requires forall i | 0 <= i < |ts| :: IsToken(ts[i])
    ensures TakeTokens(Join(ts, ' '), n) == (ts[..n], Rest(ts[n..]))
  {
    SkipBlankBeforeToken(ts);
    assert SkipSpaces(Join(ts, ' ')) == Join(ts, ' ') by {
      assert |ts| == 1 || Join(ts, ' ') == ts[0] + " " + Join(ts[1..], ' ');
      assert Join(ts, ' ')[0] == ts[0][0];
    }
    assert NextToken(Join(ts, ' ')) == NextToken(Rest(ts));
    TakeTokensOfRest(ts, n);
  }
}
