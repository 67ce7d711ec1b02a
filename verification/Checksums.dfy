/** The SHA256SUMS text: one "digest, two spaces, path" line per file, written and read back. */
module Checksums {
  import opened Text

  /** A printed SHA-256 digest: 64 hexadecimal digits. */
  predicate IsHexDigest(d: string) {
    |d| == 64 && forall i :: 0 <= i < |d| ==> IsDigit(d[i]) || 'a' <= d[i] <= 'f'
  }

  function Line(digest: string, path: string): string {
    digest + "  " + path
  }

  function SumText(lines: seq<string>): string {
    if lines == [] then "" else SumText(lines[..|lines| - 1]) + lines[|lines| - 1] + "\n"
  }

  predicate NoSpaces(s: string) {
    forall i :: 0 <= i < |s| ==> !IsSpace(s[i])
  }

  lemma {:induction false} HexHasNoSpaces(d: string)
    requires IsHexDigest(d)
    ensures NoSpaces(d) && d != ""
  {
  }

  // ----- the text back into lines -----

  lemma {:induction false} JoinSnoc(lines: seq<string>, last: string)
    requires lines != []
    ensures Join(lines + [last], '\n') == Join(lines, '\n') + "\n" + last
  {
    if |lines| > 1 {
      assert (lines + [last])[1..] == lines[1..] + [last];
      JoinSnoc(lines[1..], last);
    } else {
      assert (lines + [last])[1..] == [last];
    }
  }

  lemma {:induction false} TextIsJoin(lines: seq<string>)
    requires lines != []
    ensures SumText(lines) == Join(lines, '\n') + "\n"
  {
    var n := |lines| - 1;
    assert lines == lines[..n] + [lines[n]];
    if n > 0 {
      TextIsJoin(lines[..n]);
      JoinSnoc(lines[..n], lines[n]);
    } else {
      assert SumText(lines[..0]) == "";
    }
  }

  predicate SolidStart(s: string) {
    s != "" && !IsSpace(s[0])
  }

  predicate SolidEnd(s: string) {
    s != "" && !IsSpace(s[|s| - 1])
  }

  lemma {:induction false} JoinIsSolid(lines: seq<string>)
    requires lines != [] && SolidStart(lines[0]) && SolidEnd(lines[|lines| - 1])
    ensures SolidStart(Join(lines, '\n')) && SolidEnd(Join(lines, '\n'))
  {
    var n := |lines| - 1;
    if n > 0 {
      assert lines == lines[..n] + [lines[n]];
      JoinSnoc(lines[..n], lines[n]);
      JoinStarts(lines);
    }
  }

  lemma {:induction false} JoinStarts(lines: seq<string>)
    requires lines != [] && lines[0] != ""
    ensures Join(lines, '\n') != "" && Join(lines, '\n')[0] == lines[0][0]
  {
  }

  lemma {:induction false} TrimFinalNewline(s: string)
    requires SolidStart(s) && SolidEnd(s)
    ensures TrimSpace(s + "\n") == s && TrimSpace(s) == s
  {
    var t := s + "\n";
    assert IsSpace('\n') && t[|t| - 1] == '\n' && t[..|t| - 1] == s && t[0] == s[0];
    assert TrimLeft(t) == t && TrimRight(t) == TrimRight(s) == s;
  }

  /** Trimming and splitting the text gives its lines back: only the first and last characters may be
      touched by the trimming, and neither is a space. */
  lemma {:induction false} LinesReadBack(lines: seq<string>)
    requires lines != [] && SolidStart(lines[0]) && SolidEnd(lines[|lines| - 1])
    requires forall i :: 0 <= i < |lines| ==> '\n' !in lines[i]
    ensures Split(TrimSpace(SumText(lines)), '\n') == lines
  {
    TextIsJoin(lines);
    JoinIsSolid(lines);
    TrimFinalNewline(Join(lines, '\n'));
    SplitOfJoin(lines, '\n');
  }

  // ----- one line -----

  /** strings.Cut at the first pair of spaces. */
  function Cut(line: string): Option<(string, string)> {
    if |line| < 2 then None
    else if line[0] == ' ' && line[1] == ' ' then Some(("", line[2..]))
    else match Cut(line[1..])
      case None => None
      case Some((before, after)) => Some(([line[0]] + before, after))
  }

  lemma {:induction false} CutOfLine(digest: string, path: string)
    requires ' ' !in digest
    ensures Cut(Line(digest, path)) == Some((digest, path))
  {
    var line := Line(digest, path);
    if digest == "" {
      assert line[2..] == path;
    } else {
      assert line[1..] == Line(digest[1..], path);
      CutOfLine(digest[1..], path);
      assert [digest[0]] + digest[1..] == digest;
    }
  }

  function Word(s: string): string {
    if s == "" || IsSpace(s[0]) then "" else [s[0]] + Word(s[1..])
  }

  lemma {:induction false} WordIsPrefix(s: string)
    ensures Word(s) <= s
    ensures s != "" && !IsSpace(s[0]) ==> Word(s) != ""
  {
    if s != "" && !IsSpace(s[0]) {
      WordIsPrefix(s[1..]);
    }
  }

  /** strings.Fields */
  function Fields(s: string): seq<string>
    decreases |s|
  {
    if s == "" then []
    else if IsSpace(s[0]) then Fields(s[1..])
    else (WordIsPrefix(s); [Word(s)] + Fields(s[|Word(s)|..]))
  }

  lemma {:induction false} WordOf(w: string, rest: string)
    requires NoSpaces(w) && (rest == "" || IsSpace(rest[0]))
    ensures Word(w + rest) == w
  {
    if w == "" {
      assert w + rest == rest;
    } else {
      assert (w + rest)[1..] == w[1..] + rest;
      WordOf(w[1..], rest);
      assert [w[0]] + w[1..] == w;
    }
  }

  lemma {:induction false} FieldsOne(w: string)
    requires NoSpaces(w) && w != ""
    ensures Fields(w) == [w]
  {
    assert w + "" == w;
    WordOf(w, "");
    assert w[|w|..] == "";
  }

  lemma {:induction false} FieldsOfLine(digest: string, path: string)
    requires NoSpaces(digest) && NoSpaces(path) && digest != "" && path != ""
    ensures Fields(Line(digest, path)) == [digest, path]
  {
    var line, tail := Line(digest, path), "  " + path;
    assert line == digest + tail;
    WordOf(digest, tail);
    assert line[0] == digest[0];
    assert line[|digest|..] == tail;
    assert tail[1..] == " " + path && (" " + path)[1..] == path;
    assert Fields(tail) == Fields(" " + path) == Fields(path);
    FieldsOne(path);
    assert Fields(line) == [digest] + Fields(tail);
  }
}
