/** Which TRC layout a file claims, read from its first line alone. Files of
    version 1.0 have no FILEVERSION line; every later version starts with
    `;$FILEVERSION=` followed by its number. */
module TrcVersion {

  const FileVersionPrefix: string := ";$FILEVERSION="

  /** The version assumed when the first line names none of the others. */
  const DefaultVersion: string := "1.0"

  /** The one version the loader goes on to parse. */
  const SupportedVersion: string := "2.1"

  /** The versions that announce themselves with a FILEVERSION line. */
  const HeaderVersions: seq<string> := ["1.1", "1.2", "1.3", "2.0", "2.1"]

  predicate IsKnownVersion(v: string) { v == DefaultVersion || v in HeaderVersions }

  /** The exact first line that announces version v. */
  function VersionHeaderLine(v: string): string { FileVersionPrefix + v }

  /** The version of a file given as its lines: the number of the first line
      when that line is exactly one of the five FILEVERSION lines, otherwise
      1.0. Only the first line is ever looked at. */
  function ResolveVersion(lines: seq<string>): (v: string)
    ensures IsKnownVersion(v)
    ensures v != DefaultVersion ==> |lines| > 0 && lines[0] == VersionHeaderLine(v)
    ensures v == DefaultVersion <==>
              |lines| == 0 || forall w | w in HeaderVersions :: lines[0] != VersionHeaderLine(w)
  {
    if |lines| > 0 then
      if lines[0] == VersionHeaderLine("1.1") then "1.1"
      else if lines[0] == VersionHeaderLine("1.2") then "1.2"
      else if lines[0] == VersionHeaderLine("1.3") then "1.3"
      else if lines[0] == VersionHeaderLine("2.0") then "2.0"
      else if lines[0] == VersionHeaderLine("2.1") then "2.1"
      else DefaultVersion
    else DefaultVersion
  }

  lemma VersionHeaderLineInjective(v: string, w: string)
    requires VersionHeaderLine(v) == VersionHeaderLine(w)
    ensures v == w
  {
    assert v == VersionHeaderLine(v)[|FileVersionPrefix|..];
    assert w == VersionHeaderLine(w)[|FileVersionPrefix|..];
  }

  /** For each announced version w, the file resolves to w exactly when its
      first line is w's FILEVERSION line. */
  lemma ResolveVersionExact(lines: seq<string>, w: string)
    requires w in HeaderVersions
    ensures ResolveVersion(lines) == w <==> |lines| > 0 && lines[0] == VersionHeaderLine(w)
  {
    var v := ResolveVersion(lines);
    if |lines| > 0 && lines[0] == VersionHeaderLine(w) {
      assert v != DefaultVersion;
      VersionHeaderLineInjective(v, w);
    }
  }

  /** Two files with the same first line resolve to the same version, and so
      do two empty line lists. */
  lemma ResolveVersionFirstLineOnly(a: seq<string>, b: seq<string>)
    requires (|a| == 0 && |b| == 0) || (|a| > 0 && |b| > 0 && a[0] == b[0])
    ensures ResolveVersion(a) == ResolveVersion(b)
  {
  }
}
