/** JSON Pointers as the schema checks build and resolve them, against RFC 6901. */
module JsonPointer {
  import opened Text
  import opened JsonValue

  // ----- escaping segments -----

  /** strings.ReplaceAll of a two-character text by one character. */
  function ReplacePair(s: string, a: char, b: char, to: char): string {
    if |s| < 2 then s
    else if s[0] == a && s[1] == b then [to] + ReplacePair(s[2..], a, b, to)
    else [s[0]] + ReplacePair(s[1..], a, b, to)
  }

  /** strings.ReplaceAll of one character by a text. */
  function Expand(s: string, c: char, to: string): string {
    if s == "" then "" else (if s[0] == c then to else [s[0]]) + Expand(s[1..], c, to)
  }

  function EscapeSegment(segment: string): string {
    Expand(Expand(segment, '~', "~0"), '/', "~1")
  }

  function UnescapeSegment(raw: string): string {
    ReplacePair(ReplacePair(raw, '~', '1', '/'), '~', '0', '~')
  }

  lemma {:induction false} ExpandCons(c: char, s: string, from: char, to: string)
    ensures Expand([c] + s, from, to) == (if c == from then to else [c]) + Expand(s, from, to)
  {
    assert ([c] + s)[1..] == s;
  }

  lemma {:induction false} EscapeCons(c: char, s: string)
    ensures EscapeSegment([c] + s) ==
            (if c == '~' then "~0" else if c == '/' then "~1" else [c]) + EscapeSegment(s)
  {
    var tail := Expand(s, '~', "~0");
    ExpandCons(c, s, '~', "~0");
    if c == '~' {
      assert "~0" + tail == ['~'] + (['0'] + tail);
      ExpandCons('~', ['0'] + tail, '/', "~1");
      ExpandCons('0', tail, '/', "~1");
      assert ['~'] + (['0'] + Expand(tail, '/', "~1")) == "~0" + Expand(tail, '/', "~1");
    } else {
      ExpandCons(c, tail, '/', "~1");
    }
  }

  lemma {:induction false} ReplacePairCons(c: char, s: string, a: char, b: char, to: char)
    requires c != a || s == "" || s[0] != b
    ensures ReplacePair([c] + s, a, b, to) == [c] + ReplacePair(s, a, b, to)
  {
    assert ([c] + s)[1..] == s;
  }

  lemma {:induction false} ReplacePairHit(s: string, a: char, b: char, to: char)
    ensures ReplacePair([a, b] + s, a, b, to) == [to] + ReplacePair(s, a, b, to)
  {
    assert ([a, b] + s)[2..] == s;
  }

  /** The first replacement gives the slashes back and touches nothing else. */
  lemma {:induction false} SlashesReturn(s: string)
    ensures ReplacePair(EscapeSegment(s), '~', '1', '/') == Expand(s, '~', "~0")
  {
    if s != "" {
      var c, rest := s[0], s[1..];
      assert s == [c] + rest;
      EscapeCons(c, rest);
      ExpandCons(c, rest, '~', "~0");
      SlashesReturn(rest);
      var tail := EscapeSegment(rest);
      if c == '~' {
        assert "~0" + tail == ['~'] + (['0'] + tail);
        ReplacePairCons('~', ['0'] + tail, '~', '1', '/');
        ReplacePairCons('0', tail, '~', '1', '/');
        assert ['~'] + (['0'] + Expand(rest, '~', "~0")) == "~0" + Expand(rest, '~', "~0");
      } else if c == '/' {
        assert "~1" == ['~', '1'];
        ReplacePairHit(tail, '~', '1', '/');
      } else {
        ReplacePairCons(c, tail, '~', '1', '/');
      }
    }
  }

  lemma {:induction false} TildesReturn(s: string)
    ensures ReplacePair(Expand(s, '~', "~0"), '~', '0', '~') == s
  {
    if s != "" {
      var c, rest := s[0], s[1..];
      assert s == [c] + rest;
      ExpandCons(c, rest, '~', "~0");
      TildesReturn(rest);
      if c == '~' {
        assert "~0" == ['~', '0'];
        ReplacePairHit(Expand(rest, '~', "~0"), '~', '0', '~');
      } else {
        ReplacePairCons(c, Expand(rest, '~', "~0"), '~', '0', '~');
      }
    }
  }

  /** Unescaping undoes escaping on every text, although it replaces in two passes. */
  lemma {:induction false} UnescapeEscape(segment: string)
    ensures UnescapeSegment(EscapeSegment(segment)) == segment
  {
    SlashesReturn(segment);
    TildesReturn(segment);
  }

  lemma {:induction false} EscapeHasNoSlash(segment: string)
    ensures '/' !in EscapeSegment(segment)
  {
    if segment != "" {
      assert segment == [segment[0]] + segment[1..];
      EscapeCons(segment[0], segment[1..]);
      EscapeHasNoSlash(segment[1..]);
    }
  }

  lemma {:induction false} NothingToReplace(s: string, a: char, b: char, to: char)
    requires a !in s
    ensures ReplacePair(s, a, b, to) == s
  {
    if |s| >= 2 {
      NothingToReplace(s[1..], a, b, to);
      assert [s[0]] + s[1..] == s;
    }
  }

  lemma {:induction false} NoTildeIsItself(s: string)
    requires '~' !in s
    ensures UnescapeSegment(s) == s
  {
    NothingToReplace(s, '~', '1', '/');
    NothingToReplace(s, '~', '0', '~');
  }

  // ----- resolving -----

  function UnescapeAll(raw: seq<string>): (segments: seq<string>)
    ensures |segments| == |raw|
  {
    seq(|raw|, i requires 0 <= i < |raw| => UnescapeSegment(raw[i]))
  }

  /** Follows object members only. */
  function Follow(v: Json, segments: seq<string>): Option<Json>
    decreases |segments|
  {
    if segments == [] then Some(v)
    else if v.Obj? && segments[0] in v.fields then Follow(v.fields[segments[0]], segments[1..])
    else None
  }

  function Resolve(root: Json, pointer: string): Option<Json> {
    var p := Drop(pointer, "/");
    if p == "" then Some(root) else Follow(root, UnescapeAll(Split(p, '/')))
  }

  method ResolveJSONPointer(root: Json, pointer: string) returns (found: Option<Json>)
    ensures found == Resolve(root, pointer)
  {
    if pointer == "" {
      return Some(root);
    }
    var p := Drop(pointer, "/");
    if p == "" {
      return Some(root);
    }
    var current := root;
    var raw := Split(p, '/');
    for i := 0 to |raw|
      invariant Follow(root, UnescapeAll(raw)) == Follow(current, UnescapeAll(raw)[i..])
    {
      var segment := UnescapeSegment(raw[i]);
      assert UnescapeAll(raw)[i..][0] == segment && UnescapeAll(raw)[i..][1..] == UnescapeAll(raw)[i + 1..];
      if !current.Obj? {
        return None;
      }
      if segment !in current.fields {
        return None;
      }
      current := current.fields[segment];
    }
    found := Some(current);
  }

  // ----- RFC 6901, sections 3 and 4 -----

  /** One reference token: an object member, or an array index written without leading zeros. */
  function RfcStep(v: Json, token: string): Option<Json> {
    match v
    case Obj(fields) => if token in fields then Some(fields[token]) else None
    case Arr(items) => IndexStep(items, token, |items|)
    case _ => None
  }

  function IndexStep(items: seq<Json>, token: string, n: nat): Option<Json>
    requires n <= |items|
  {
    if n == 0 then None else if Digits(n - 1) == token then Some(items[n - 1]) else IndexStep(items, token, n - 1)
  }

  function RfcFollow(v: Json, tokens: seq<string>): Option<Json>
    decreases |tokens|
  {
    if tokens == [] then Some(v)
    else match RfcStep(v, tokens[0])
      case None => None
      case Some(next) => RfcFollow(next, tokens[1..])
  }

  /** Every tilde starts one of the two escapes "~0" and "~1". */
  predicate WellEscaped(s: string) {
    forall i :: 0 <= i < |s| && s[i] == '~' ==> i + 1 < |s| && (s[i + 1] == '0' || s[i + 1] == '1')
  }

  /** A pointer is empty or a list of well-escaped tokens, each behind a slash; anything else is not a pointer. */
  function RfcResolve(root: Json, pointer: string): Option<Json> {
    if pointer == "" then Some(root)
    else if pointer[0] != '/' || !WellEscaped(pointer) then None
    else RfcFollow(root, UnescapeAll(Split(pointer[1..], '/')))
  }

  /** The tokens lead through objects only. */
  predicate ThroughObjects(v: Json, tokens: seq<string>)
    decreases |tokens|
  {
    tokens == [] || (v.Obj? && (tokens[0] in v.fields ==> ThroughObjects(v.fields[tokens[0]], tokens[1..])))
  }

  lemma {:induction false} FollowExactly(v: Json, tokens: seq<string>)
    ensures Follow(v, tokens).Some? <==> RfcFollow(v, tokens).Some? && ThroughObjects(v, tokens)
    ensures Follow(v, tokens).Some? ==> Follow(v, tokens) == RfcFollow(v, tokens)
    decreases |tokens|
  {
    if tokens != [] && v.Obj? && tokens[0] in v.fields {
      FollowExactly(v.fields[tokens[0]], tokens[1..]);
    }
  }

  /** What the resolver finds is what RFC 6901 finds. */
  ghost predicate Conforms(pointer: string) {
    forall root :: Resolve(root, pointer).Some? ==> Resolve(root, pointer) == RfcResolve(root, pointer)
  }

  /** The nest of objects that these segments lead through. */
  function Nest(segments: seq<string>): Json {
    if segments == [] then Null else Obj(map[segments[0] := Nest(segments[1..])])
  }

  lemma {:induction false} NestFollows(segments: seq<string>)
    ensures Follow(Nest(segments), segments) == Some(Null)
  {
    if segments != [] {
      NestFollows(segments[1..]);
    }
  }

  predicate IsOrdinary(pointer: string) {
    pointer == "" || (pointer[0] == '/' && pointer != "/" && WellEscaped(pointer))
  }

  /** The resolver agrees with RFC 6901 wherever it finds something, on every document, exactly for the
      empty pointer and the well-escaped ones that start with a slash and go on: "/" alone is taken for the whole
      document, a missing first slash is forgiven, and a tilde that escapes nothing is taken as itself. */
  lemma {:induction false} ConformsExactly(pointer: string)
    ensures Conforms(pointer) <==> IsOrdinary(pointer)
  {
    if IsOrdinary(pointer) {
      forall root | Resolve(root, pointer).Some? ensures Resolve(root, pointer) == RfcResolve(root, pointer) {
        if pointer != "" {
          assert Drop(pointer, "/") == pointer[1..];
          FollowExactly(root, UnescapeAll(Split(pointer[1..], '/')));
        }
      }
    } else if pointer == "/" {
      var root := Null;
      assert Drop(pointer, "/") == "";
      assert Split("", '/') == [""];
      assert RfcResolve(root, pointer).None?;
      assert Resolve(root, pointer) == Some(root);
    } else {
      var segments := UnescapeAll(Split(Drop(pointer, "/"), '/'));
      NestFollows(segments);
      assert Drop(pointer, "/") != "";
      assert Resolve(Nest(segments), pointer).Some?;
      assert RfcResolve(Nest(segments), pointer).None?;
    }
  }

  /** "/~2" is no pointer, and still leads to the member of that name. */
  lemma {:induction false} StrayTildeResolves()
    ensures var root := Obj(map["~2" := Null]);
            Resolve(root, "/~2") == Some(Null) && RfcResolve(root, "/~2").None? && !IsOrdinary("/~2")
  {
    var root := Obj(map["~2" := Null]);
    assert "/~2"[1] == '~' && "/~2"[2] == '2';
    assert Drop("/~2", "/") == "~2";
    SplitOne("~2", '/');
    assert UnescapeSegment("~2") == "~2" by {
      assert ReplacePair("2", '~', '1', '/') == "2" && ReplacePair("2", '~', '0', '~') == "2";
    }
    assert UnescapeAll(["~2"]) == ["~2"];
    assert Follow(root, ["~2"]) == Follow(Null, []);
  }

  // ----- fragments: RFC 3986, section 2.1, over RFC 3629 -----

  function HexDigit(c: char): Option<nat> {
    if IsDigit(c) then Some((c - '0') as nat)
    else if 'a' <= c <= 'f' then Some((c - 'a') as nat + 10)
    else if 'A' <= c <= 'F' then Some((c - 'A') as nat + 10)
    else None
  }

  /** The octet that a text starts with, as a percent sign and two hexadecimal digits. */
  function Octet(s: string): Option<nat> {
    if |s| < 3 || s[0] != '%' || HexDigit(s[1]).None? || HexDigit(s[2]).None? then None
    else Some(16 * HexDigit(s[1]).value + HexDigit(s[2]).value)
  }

  /** How many octets follow the first one of a character, and the bits that this one gives. */
  function Lead(octet: nat): Option<(nat, nat)> {
    if octet < 0x80 then Some((0, octet))
    else if 0xC0 <= octet < 0xE0 then Some((1, octet - 0xC0))
    else if 0xE0 <= octet < 0xF0 then Some((2, octet - 0xE0))
    else if 0xF0 <= octet < 0xF8 then Some((3, octet - 0xF0))
    else None
  }

  /** The code point of n more octets after these bits. */
  function Continued(s: string, n: nat, bits: nat): (code: Option<nat>)
    ensures code.Some? ==> |s| >= 3 * n
  {
    if n == 0 then Some(bits)
    else match Octet(s)
      case None => None
      case Some(octet) => if 0x80 <= octet < 0xC0 then Continued(s[3..], n - 1, 64 * bits + octet - 0x80) else None
  }

  /** Code points are written in the fewest octets, and surrogates are none. */
  predicate WellFormed(code: nat, n: nat) {
    && (code < 0xD800 || 0xE000 <= code < 0x11_0000)
    && n == if code < 0x80 then 0 else if code < 0x800 then 1 else if code < 0x1_0000 then 2 else 3
  }

  function PercentDecode(s: string): Option<string>
    decreases |s|
  {
    if s == "" then Some("")
    else if s[0] != '%' then
      match PercentDecode(s[1..]) case None => None case Some(rest) => Some([s[0]] + rest)
    else match Octet(s)
      case None => None
      case Some(octet) =>
        match Lead(octet)
        case None => None
        case Some((n, bits)) =>
          match Continued(s[3..], n, bits)
          case None => None
          case Some(code) =>
            if !WellFormed(code, n) then None
            else match PercentDecode(s[3 + 3 * n..]) case None => None case Some(rest) => Some([code as char] + rest)
  }

  /** An octet below 0x80 is its character. */
  lemma {:induction false} AsciiDecodes(s: string, code: nat, rest: string)
    requires Octet(s) == Some(code) && code < 0x80 && PercentDecode(s[3..]) == Some(rest)
    ensures PercentDecode(s) == Some([code as char] + rest)
  {
    assert s[3 + 3 * 0..] == s[3..];
  }

  lemma {:induction false} PlainDecodesToItself(s: string)
    requires '%' !in s
    ensures PercentDecode(s) == Some(s)
  {
    if s != "" {
      PlainDecodesToItself(s[1..]);
      assert s == [s[0]] + s[1..];
    }
  }

  // ----- reported paths -----

  /** pathJoin: each segment escaped behind a slash. */
  function PathJoin(base: string, segments: seq<string>): string
    decreases |segments|
  {
    if segments == [] then base else PathJoin(base + "/" + EscapeSegment(segments[0]), segments[1..])
  }

  function Pointer(segments: seq<string>): string {
    if segments == [] then "" else "/" + EscapeSegment(segments[0]) + Pointer(segments[1..])
  }

  lemma {:induction false} PathJoinIsPointer(base: string, segments: seq<string>)
    ensures PathJoin(base, segments) == base + Pointer(segments)
    decreases |segments|
  {
    if segments == [] {
      assert base + "" == base;
    } else {
      var next := base + "/" + EscapeSegment(segments[0]);
      PathJoinIsPointer(next, segments[1..]);
      assert next + Pointer(segments[1..]) == base + ("/" + EscapeSegment(segments[0]) + Pointer(segments[1..]));
    }
  }

  function EscapeAll(segments: seq<string>): (raw: seq<string>)
    ensures |raw| == |segments|
  {
    seq(|segments|, i requires 0 <= i < |segments| => EscapeSegment(segments[i]))
  }

  lemma {:induction false} PointerIsJoin(segments: seq<string>)
    requires segments != []
    ensures Pointer(segments) == "/" + Join(EscapeAll(segments), '/')
  {
    hide EscapeSegment;
    if |segments| > 1 {
      PointerIsJoin(segments[1..]);
      assert EscapeAll(segments)[1..] == EscapeAll(segments[1..]);
      assert "/" == ['/'];
    } else {
      assert Pointer(segments[1..]) == "";
    }
  }

  /** Splitting and unescaping a reported path gives its segments back. */
  lemma {:induction false} PointerRoundTrip(segments: seq<string>)
    requires segments != []
    ensures UnescapeAll(Split(Pointer(segments)[1..], '/')) == segments
  {
    PointerIsJoin(segments);
    assert Pointer(segments)[1..] == Join(EscapeAll(segments), '/');
    forall i | 0 <= i < |segments| ensures '/' !in EscapeAll(segments)[i] {
      EscapeHasNoSlash(segments[i]);
    }
    SplitOfJoin(EscapeAll(segments), '/');
    forall i | 0 <= i < |segments| ensures UnescapeAll(EscapeAll(segments))[i] == segments[i] {
      UnescapeEscape(segments[i]);
    }
  }

  lemma {:induction false} WellEscapedJoin(a: string, b: string)
    requires WellEscaped(a) && WellEscaped(b)
    ensures WellEscaped(a + b)
  {
  }

  lemma {:induction false} EscapedSegment(segment: string)
    ensures WellEscaped(EscapeSegment(segment))
  {
    if segment != "" {
      var c, rest := segment[0], segment[1..];
      assert segment == [c] + rest;
      EscapeCons(c, rest);
      EscapedSegment(rest);
      WellEscapedJoin(if c == '~' then "~0" else if c == '/' then "~1" else [c], EscapeSegment(rest));
    }
  }

  /** Every reported path is well escaped. */
  lemma {:induction false} PointerWellEscaped(segments: seq<string>)
    ensures WellEscaped(Pointer(segments))
  {
    if segments != [] {
      EscapedSegment(segments[0]);
      PointerWellEscaped(segments[1..]);
      WellEscapedJoin("/", EscapeSegment(segments[0]));
      WellEscapedJoin("/" + EscapeSegment(segments[0]), Pointer(segments[1..]));
    }
  }

  lemma {:induction false} ResolveOfPointer(root: Json, segments: seq<string>)
    requires segments == [] || segments[0] != ""
    ensures Resolve(root, Pointer(segments)) == Follow(root, segments)
    ensures RfcResolve(root, Pointer(segments)) == RfcFollow(root, segments)
  {
    if segments != [] {
      PointerRoundTrip(segments);
      PointerWellEscaped(segments);
      var p := Pointer(segments);
      assert Drop(p, "/") == p[1..];
      PointerNotBare(segments);
    }
  }

  lemma {:induction false} PointerNotBare(segments: seq<string>)
    requires segments != [] && segments[0] != ""
    ensures Pointer(segments)[1..] != ""
  {
    assert segments[0] == [segments[0][0]] + segments[0][1..];
    EscapeCons(segments[0][0], segments[0][1..]);
  }
}
