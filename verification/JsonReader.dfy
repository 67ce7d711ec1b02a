/** A reader of JSON texts, from the grammar of RFC 8259 alone, and that it reads canonical texts back. */
module JsonReader {
  import opened Text
  import opened JsonValue
  import opened CanonicalJson
  import opened JsonInjective

  // ----- the reader -----

  /** What a reader takes for a number, which characters it skips between tokens, whether it insists on members in
      ascending order of their names, and which spellings of a character in a string it takes. */
  datatype Grammar = Grammar(number: string -> bool, spaces: set<char>, ordered: bool, spelling: (string, char) -> bool)

  datatype Read<T> = Fail | Got(value: T, rest: string)

  /** Insignificant white space (section 2). */
  const WHITE: set<char> := {' ', '\t', '\n', '\r'}

  function Skip(g: Grammar, s: string): (r: string)
    ensures |r| <= |s|
  {
    if s != "" && s[0] in g.spaces then Skip(g, s[1..]) else s
  }

  function HexValue(c: char): Option<nat> {
    if '0' <= c <= '9' then Some(c as int - '0' as int)
    else if 'a' <= c <= 'f' then Some(c as int - 'a' as int + 10)
    else if 'A' <= c <= 'F' then Some(c as int - 'A' as int + 10)
    else None
  }

  /** Four hexadecimal digits, as in the escapes of section 7. */
  function ReadHex4(s: string): (r: Read<nat>)
    ensures r.Got? ==> |s| >= 4 && r.rest == s[4..] && r.value < 0x10000
  {
    if |s| < 4 then Fail
    else match (HexValue(s[0]), HexValue(s[1]), HexValue(s[2]), HexValue(s[3]))
      case (Some(a), Some(b), Some(c), Some(d)) =>
        if a < 16 && b < 16 && c < 16 && d < 16 then Got(((a * 16 + b) * 16 + c) * 16 + d, s[4..]) else Fail
      case _ => Fail
  }

  /** The character after a backslash (section 7). */
  function Unescaped(letter: char): Option<char> {
    if letter == '"' || letter == '\\' || letter == '/' then Some(letter)
    else if letter == 'b' then Some(0x08 as char)
    else if letter == 'f' then Some(0x0c as char)
    else if letter == 'n' then Some(0x0a as char)
    else if letter == 'r' then Some(0x0d as char)
    else if letter == 't' then Some(0x09 as char)
    else None
  }

  predicate HighUnit(n: int) { 0xd800 <= n <= 0xdbff }

  predicate LowUnit(n: int) { 0xdc00 <= n <= 0xdfff }

  /** The four digits of a \u escape, and of the low half that must follow a high one. */
  function ReadUnicode(s: string): (r: Read<char>)
    ensures r.Got? ==> |r.rest| < |s|
  {
    match ReadHex4(s)
    case Fail => Fail
    case Got(n, rest) =>
      if LowUnit(n) then Fail
      else if !HighUnit(n) then Got(n as char, rest)
      else if |rest| < 2 || rest[0] != '\\' || rest[1] != 'u' then Fail
      else match ReadHex4(rest[2..])
        case Fail => Fail
        case Got(m, after) =>
          if LowUnit(m) then Got((0x10000 + (n - 0xd800) * 0x400 + (m - 0xdc00)) as char, after) else Fail
  }

  /** One character of a string (section 7). */
  function ReadChar(s: string): (r: Read<char>)
    ensures r.Got? ==> |r.rest| < |s|
  {
    if s == "" || (s[0] as int) < 0x20 || s[0] == '"' then Fail
    else if s[0] != '\\' then Got(s[0], s[1..])
    else if |s| < 2 then Fail
    else if s[1] == 'u' then ReadUnicode(s[2..])
    else match Unescaped(s[1]) case Some(c) => Got(c, s[2..]) case None => Fail
  }

  /** The rest of a string after its opening quote. */
  function ReadString(g: Grammar, s: string): (r: Read<string>)
    ensures r.Got? ==> |r.rest| < |s|
    decreases |s|
  {
    if s != "" && s[0] == '"' then Got("", s[1..])
    else match ReadChar(s)
      case Fail => Fail
      case Got(c, rest) =>
        if !g.spelling(s[..|s| - |rest|], c) then Fail
        else match ReadString(g, rest)
          case Fail => Fail
          case Got(tail, after) => Got([c] + tail, after)
  }

  /** How many number characters stand at the front. */
  function Run(s: string): (n: nat)
    ensures n <= |s|
  {
    if s != "" && NumberChar(s[0]) then 1 + Run(s[1..]) else 0
  }

  function ReadNumber(g: Grammar, s: string): (r: Read<Json>)
    ensures r.Got? ==> |r.rest| < |s|
  {
    var n := Run(s);
    if n > 0 && g.number(s[..n]) then Got(Num(s[..n]), s[n..]) else Fail
  }

  /** One name comes before another where they first differ, a prefix before what it begins. */
  predicate Precedes(a: string, b: string) {
    exists i :: 0 <= i < |b| && PrecedesAt(a, b, i)
  }

  predicate PrecedesAt(a: string, b: string, i: nat)
    requires i < |b|
  {
    i <= |a| && a[..i] == b[..i] && (i == |a| || a[i] < b[i])
  }

  /** A value (section 3), with white space around it. */
  function ReadValue(g: Grammar, s: string): (r: Read<Json>)
    ensures r.Got? ==> |r.rest| < |s|
    decreases |s|, 2
  {
    var t := Skip(g, s);
    if "null" <= t then Got(Null, t[4..])
    else if "true" <= t then Got(Bool(true), t[4..])
    else if "false" <= t then Got(Bool(false), t[5..])
    else if t == "" then Fail
    else if t[0] == '"' then
      match ReadString(g, t[1..]) case Fail => Fail case Got(text, rest) => Got(Str(text), rest)
    else if t[0] == '[' then
      var u := Skip(g, t[1..]);
      if u != "" && u[0] == ']' then Got(Arr([]), u[1..]) else ReadItems(g, t[1..], [])
    else if t[0] == '{' then
      var u := Skip(g, t[1..]);
      if u != "" && u[0] == '}' then Got(Obj(map[]), u[1..]) else ReadMembers(g, t[1..], map[], None)
    else ReadNumber(g, t)
  }

  /** The rest of a nonempty array (section 5), after the items read so far. */
  function ReadItems(g: Grammar, s: string, items: seq<Json>): (r: Read<Json>)
    ensures r.Got? ==> |r.rest| < |s|
    decreases |s|, 3
  {
    match ReadValue(g, s)
    case Fail => Fail
    case Got(v, rest) =>
      var t := Skip(g, rest);
      if t == "" then Fail
      else if t[0] == ']' then Got(Arr(items + [v]), t[1..])
      else if t[0] == ',' then ReadItems(g, t[1..], items + [v])
      else Fail
  }

  /** A member's name and colon (section 4). */
  function ReadName(g: Grammar, s: string): (r: Read<string>)
    ensures r.Got? ==> |r.rest| < |s|
  {
    var t := Skip(g, s);
    if t == "" || t[0] != '"' then Fail
    else match ReadString(g, t[1..])
      case Fail => Fail
      case Got(name, rest) =>
        var u := Skip(g, rest);
        if u != "" && u[0] == ':' then Got(name, u[1..]) else Fail
  }

  /** The rest of a nonempty object (section 4), after the members read so far, the last of which is given. */
  function ReadMembers(g: Grammar, s: string, fields: map<string, Json>, last: Option<string>): (r: Read<Json>)
    ensures r.Got? ==> |r.rest| < |s|
    decreases |s|, 3
  {
    match ReadName(g, s)
    case Fail => Fail
    case Got(name, after) =>
      if g.ordered && last.Some? && !Precedes(last.value, name) then Fail
      else match ReadValue(g, after)
        case Fail => Fail
        case Got(v, rest) =>
          var t := Skip(g, rest);
          if t == "" then Fail
          else if t[0] == '}' then Got(Obj(fields[name := v]), t[1..])
          else if t[0] == ',' then ReadMembers(g, t[1..], fields[name := v], Some(name))
          else Fail
  }

  /** The value that a whole text stands for. */
  function ReadText(g: Grammar, s: string): Option<Json> {
    match ReadValue(g, s)
    case Fail => None
    case Got(v, rest) => if Skip(g, rest) == "" then Some(v) else None
  }

  // ----- numbers by section 6 -----

  predicate AllDigits(s: string) {
    s != "" && forall i :: 0 <= i < |s| ==> IsDigit(s[i])
  }

  /** int: a zero, or digits that do not start with one. */
  predicate IsInt(s: string) {
    AllDigits(s) && (s[0] == '0' ==> |s| == 1)
  }

  /** frac: nothing, or a point and digits. */
  predicate IsFrac(s: string) {
    s == "" || (s[0] == '.' && AllDigits(s[1..]))
  }

  /** exp: nothing, or the letter, perhaps a sign, and digits. */
  predicate IsExp(s: string) {
    s == "" || ((s[0] == 'e' || s[0] == 'E')
                && (AllDigits(s[1..]) || (|s| >= 2 && (s[1] == '+' || s[1] == '-') && AllDigits(s[2..]))))
  }

  predicate SplitsAt(s: string, i: nat, j: nat) {
    i <= j <= |s| && IsInt(s[..i]) && IsFrac(s[i..j]) && IsExp(s[j..])
  }

  /** number = [ minus ] int [ frac ] [ exp ] */
  predicate IsNumber(s: string) {
    var t := if s != "" && s[0] == '-' then s[1..] else s;
    exists i, j :: 0 <= i <= |t| && 0 <= j <= |t| && SplitsAt(t, i, j)
  }

  lemma {:induction false} PartChars(s: string, i: nat, j: nat)
    requires SplitsAt(s, i, j)
    ensures s != "" && IsDigit(s[0]) && forall k :: 0 <= k < |s| ==> NumberChar(s[k])
  {
    forall k | 0 <= k < |s| ensures NumberChar(s[k]) {
      if k < i {
        assert IsDigit(s[..i][k]);
      } else if k < j {
        assert s[k] == s[i..j][k - i];
        if k > i {
          assert s[k] == s[i..j][1..][k - i - 1];
        }
      } else {
        var e := s[j..];
        assert s[k] == e[k - j];
        if k > j && AllDigits(e[1..]) {
          assert s[k] == e[1..][k - j - 1];
        } else if k > j + 1 {
          assert s[k] == e[2..][k - j - 2];
        }
      }
    }
    assert s[0] == s[..i][0];
  }

  /** The numbers of the standard are tokens that the canonical writer takes. */
  lemma {:induction false} NumbersAreTokens(s: string)
    ensures IsNumber(s) ==> NumberToken(s)
  {
    if IsNumber(s) {
      var t := if s != "" && s[0] == '-' then s[1..] else s;
      var i, j :| 0 <= i <= |t| && 0 <= j <= |t| && SplitsAt(t, i, j);
      PartChars(t, i, j);
      forall k | 0 <= k < |s| ensures NumberChar(s[k]) {
        if s[0] == '-' && k > 0 {
          assert s[k] == t[k - 1];
        }
      }
    }
  }

  // ----- reading canonical texts -----

  /** The grammar skips only white space and takes the writer's spelling of each character. */
  ghost predicate TakesCanonical(g: Grammar) {
    g.spaces <= WHITE && forall c :: g.spelling(EscapeChar(c), c)
  }

  /** The numbers inside the value are numbers to the reader. */
  ghost predicate ReadsNumbers(g: Grammar, v: Json)
    decreases v
  {
    match v
    case Num(t) => NumberToken(t) && g.number(t)
    case Arr(items) => forall i :: 0 <= i < |items| ==> ReadsNumbers(g, items[i])
    case Obj(fields) => forall k :: k in fields ==> ReadsNumbers(g, fields[k])
    case _ => true
  }

  lemma {:induction false} HexBack(n: nat)
    requires n < 16
    ensures HexValue(HexDigit(n)) == Some(n)
  {
  }

  lemma {:induction false} Hex4Back(n: nat, r: string)
    requires n < 0x10000
    ensures ReadHex4(Hex4(n) + r) == Got(n, r)
  {
    var s := Hex4(n) + r;
    HexBack(n / 16 / 16 / 16);
    HexBack(n / 16 / 16 % 16);
    HexBack(n / 16 % 16);
    HexBack(n % 16);
    hide HexDigit, HexValue;
    assert s[0] == HexDigit(n / 16 / 16 / 16) && s[1] == HexDigit(n / 16 / 16 % 16);
    assert s[2] == HexDigit(n / 16 % 16) && s[3] == HexDigit(n % 16);
    assert s[4..] == r;
  }

  lemma {:induction false} UnitBack(n: nat, r: string)
    requires n < 0x10000
    ensures var s := UnitEscape(n) + r;
            |s| >= 6 && s[0] == '\\' && s[1] == 'u' && ReadHex4(s[2..]) == Got(n, r)
  {
    Hex4Back(n, r);
    assert (UnitEscape(n) + r)[2..] == Hex4(n) + r;
  }

  /** One unit that is no surrogate, or a high one and a low one. */
  lemma {:induction false} ReadsUnits(s: string, n: nat, rest: string, m: nat, after: string)
    requires ReadHex4(s) == Got(n, rest) && !LowUnit(n)
    ensures !HighUnit(n) ==> ReadUnicode(s) == Got(n as char, rest)
    ensures HighUnit(n) && |rest| >= 2 && rest[0] == '\\' && rest[1] == 'u' && ReadHex4(rest[2..]) == Got(m, after) && LowUnit(m) ==>
              ReadUnicode(s) == Got((0x10000 + (n - 0xd800) * 0x400 + (m - 0xdc00)) as char, after)
  {
    hide ReadHex4;
  }

  lemma {:induction false} UnicodeBack(c: char, r: string)
    ensures var s := UnicodeEscape(c) + r;
            |s| >= 6 && s[0] == '\\' && s[1] == 'u' && ReadUnicode(s[2..]) == Got(c, r)
  {
    var u := Units(c);
    var s, after := UnicodeEscape(c) + r, if |u| == 1 then r else UnitEscape(u[1]) + r;
    SplitUnits(c, r);
    UnitsDecode(c);
    UnitBack(u[0], after);
    hide UnitEscape, UnicodeEscape, ReadHex4, ReadUnicode;
    if |u| == 1 {
      ReadsUnits(s[2..], u[0], after, 0, "");
    } else {
      UnitBack(u[1], r);
      ReadsUnits(s[2..], u[0], after, u[1], r);
    }
  }

  /** Every escape is read as the character it stands for. */
  lemma {:induction false} CharBack(c: char, r: string)
    ensures ReadChar(EscapeChar(c) + r) == Got(c, r)
  {
    var s := EscapeChar(c) + r;
    EscapeStyle(c);
    match StyleOf(c) {
      case Short =>
        assert s[0] == '\\' && Some(s[1]) == ShortEscape(c) && s[2..] == r;
        assert Unescaped(s[1]) == Some(c);
      case Plain =>
        assert s[0] == c && s[1..] == r;
      case Unicode =>
        UnicodeBack(c, r);
    }
  }

  lemma {:induction false} StringStep(g: Grammar, piece: string, c: char, rest: string)
    requires piece != "" && piece[0] != '"' && ReadChar(piece + rest) == Got(c, rest) && g.spelling(piece, c)
    ensures ReadString(g, piece + rest) ==
            match ReadString(g, rest) case Fail => Fail case Got(tail, after) => Got([c] + tail, after)
  {
    hide ReadChar;
    assert (piece + rest)[..|piece|] == piece;
  }

  lemma {:induction false} StringBack(g: Grammar, text: string, r: string)
    requires TakesCanonical(g)
    ensures ReadString(g, Escape(text) + "\"" + r) == Got(text, r)
    decreases |text|
  {
    EscapeHead(text, r);
    if text == "" {
      assert ("\"" + r)[1..] == r;
    } else {
      var c, rest := text[0], Escape(text[1..]) + "\"" + r;
      CharBack(c, rest);
      EscapeStyle(c);
      StringBack(g, text[1..], r);
      hide ReadString, ReadChar, Escape, EscapeChar;
      StringStep(g, EscapeChar(c), c, rest);
      assert [c] + text[1..] == text;
    }
  }

  lemma {:induction false} RunStops(t: string, r: string)
    requires forall i :: 0 <= i < |t| ==> NumberChar(t[i])
    requires Ends(r)
    ensures Run(t + r) == |t|
    decreases |t|
  {
    if t == "" {
      assert t + r == r;
    } else {
      assert (t + r)[1..] == t[1..] + r;
      RunStops(t[1..], r);
    }
  }

  lemma {:induction false} NothingToSkip(g: Grammar, s: string)
    requires TakesCanonical(g) && s != "" && s[0] !in WHITE
    ensures Skip(g, s) == s
  {
  }

  lemma {:induction false} ReadsWellFormed(g: Grammar, v: Json)
    requires ReadsNumbers(g, v)
    ensures WellFormed(v)
    decreases v
  {
    match v
    case Arr(items) =>
      forall i | 0 <= i < |items| ensures WellFormed(items[i]) {
        ReadsWellFormed(g, items[i]);
      }
    case Obj(fields) =>
      forall k | k in fields ensures WellFormed(fields[k]) {
        ReadsWellFormed(g, fields[k]);
      }
    case _ =>
  }

  lemma {:induction false} NotAWord(t: string)
    requires t != "" && t[0] != 'n' && t[0] != 't' && t[0] != 'f'
    ensures !("null" <= t) && !("true" <= t) && !("false" <= t)
  {
  }

  lemma {:induction false} ShapeIsBlack(c: char)
    requires ShapeOfChar(c).Some?
    ensures c !in WHITE && c != ']' && c != '}' && c != ','
  {
  }

  lemma {:induction false} LiteralBack(g: Grammar, v: Json, r: string)
    requires TakesCanonical(g) && (v.Null? || v.Bool?)
    ensures ReadValue(g, Canonical(v) + r) == Got(v, r)
  {
    var text := Canonical(v);
    var s := text + r;
    assert s[0] == text[0] && s[|text|..] == r && text <= s;
    NothingToSkip(g, s);
    match v
    case Null =>
    case Bool(b) =>
      assert s[0] == if b then 't' else 'f';
  }

  lemma {:induction false} NumberBack(g: Grammar, t: string, r: string)
    requires TakesCanonical(g) && NumberToken(t) && g.number(t) && Ends(r)
    ensures ReadValue(g, t + r) == Got(Num(t), r)
  {
    var s := t + r;
    assert s[0] == t[0] && s[..|t|] == t && s[|t|..] == r;
    RunStops(t, r);
    assert t[0] !in WHITE;
    NothingToSkip(g, s);
    NotAWord(s);
  }

  lemma {:induction false} TextBack(g: Grammar, t: string, r: string)
    requires TakesCanonical(g)
    ensures ReadValue(g, JsonString(t) + r) == Got(Str(t), r)
  {
    var s := JsonString(t) + r;
    assert s[0] == '"' && s[1..] == Escape(t) + "\"" + r;
    StringBack(g, t, r);
    NothingToSkip(g, s);
    NotAWord(s);
  }

  // ----- order -----

  lemma {:induction false} SameStart(a: string, b: string, i: nat)
    requires 0 < i < |b| && PrecedesAt(a, b, i)
    ensures a != "" && a[0] == b[0] && PrecedesAt(a[1..], b[1..], i - 1)
  {
    assert a[..i][0] == b[..i][0];
    assert a[1..][..i - 1] == a[..i][1..] && b[1..][..i - 1] == b[..i][1..];
  }

  lemma {:induction false} PrecedesExactly(a: string, b: string)
    ensures Before(a, b) <==> Precedes(a, b)
  {
    if Precedes(a, b) {
      var i :| 0 <= i < |b| && PrecedesAt(a, b, i);
      if i > 0 {
        SameStart(a, b, i);
        PrecedesExactly(a[1..], b[1..]);
      }
    }
    if Before(a, b) {
      if a == "" || a[0] < b[0] {
        assert PrecedesAt(a, b, 0);
      } else {
        PrecedesExactly(a[1..], b[1..]);
        var i :| 0 <= i < |b[1..]| && PrecedesAt(a[1..], b[1..], i);
        assert a[..i + 1] == [a[0]] + a[1..][..i] && b[..i + 1] == [b[0]] + b[1..][..i];
        assert PrecedesAt(a, b, i + 1);
      }
    }
  }

  // ----- values -----

  lemma {:induction false} ItemContinues(g: Grammar, s: string, items: seq<Json>, v: Json, rest: string)
    requires TakesCanonical(g) && ReadValue(g, s) == Got(v, rest) && rest != ""
    ensures rest[0] == ',' ==> ReadItems(g, s, items) == ReadItems(g, rest[1..], items + [v])
    ensures rest[0] == ']' ==> ReadItems(g, s, items) == Got(Arr(items + [v]), rest[1..])
  {
    hide ReadValue;
    if rest[0] == ',' || rest[0] == ']' {
      NothingToSkip(g, rest);
    }
  }

  lemma {:induction false} ItemsBack(g: Grammar, v: Json, i: nat, r: string)
    requires TakesCanonical(g) && v.Arr? && ReadsNumbers(g, v) && i < |v.items|
    ensures ReadItems(g, Canonical(v.items[i]) + (Items(v, i + 1) + "]" + r), v.items[..i]) == Got(v, r)
    decreases v, |v.items| - i
  {
    var rest := Items(v, i + 1) + "]" + r;
    ItemsEnd(v, i + 1, r);
    ValueBack(g, v.items[i], rest);
    assert v.items[..i] + [v.items[i]] == v.items[..i + 1];
    if i + 1 < |v.items| {
      ItemsStep(v, i + 1, r);
      assert rest[1..] == Canonical(v.items[i + 1]) + (Items(v, i + 2) + "]" + r);
      ItemsBack(g, v, i + 1, r);
    } else {
      assert v.items[..i + 1] == v.items;
      assert rest == "]" + r && rest[1..] == r;
    }
    hide ReadItems, ReadValue, Canonical, Items;
    ItemContinues(g, Canonical(v.items[i]) + rest, v.items[..i], v.items[i], rest);
  }

  lemma {:induction false} NameBack(g: Grammar, name: string, r: string)
    requires TakesCanonical(g)
    ensures ReadName(g, JsonString(name) + (":" + r)) == Got(name, r)
  {
    var s := JsonString(name) + (":" + r);
    assert s[0] == '"' && s[1..] == Escape(name) + "\"" + (":" + r);
    StringBack(g, name, ":" + r);
    NothingToSkip(g, s);
    NothingToSkip(g, ":" + r);
    assert (":" + r)[1..] == r;
  }

  /** The members of v whose names are among the first i keys. */
  ghost predicate FirstMembers(v: Json, keys: seq<string>, i: nat, fields: map<string, Json>)
    requires Lists(v, keys) && i <= |keys|
  {
    && (forall k :: k in fields <==> k in keys[..i])
    && forall k :: k in fields ==> k in v.fields && fields[k] == v.fields[k]
  }

  lemma {:induction false} OneMoreMember(v: Json, keys: seq<string>, i: nat, fields: map<string, Json>)
    requires Lists(v, keys) && i < |keys| && FirstMembers(v, keys, i, fields)
    ensures keys[i] in v.fields && FirstMembers(v, keys, i + 1, fields[keys[i] := v.fields[keys[i]]])
  {
    assert keys[i] in keys;
    assert keys[..i + 1] == keys[..i] + [keys[i]];
  }

  lemma {:induction false} AllMembers(v: Json, fields: map<string, Json>)
    requires v.Obj? && Lists(v, SortedKeys(v.fields.Keys))
    requires FirstMembers(v, SortedKeys(v.fields.Keys), |SortedKeys(v.fields.Keys)|, fields)
    ensures fields == v.fields
  {
    var keys := SortedKeys(v.fields.Keys);
    SortedKeysHolds(v.fields.Keys);
    assert keys[..|keys|] == keys;
  }

  function LastKey(keys: seq<string>, i: nat): Option<string>
    requires i <= |keys|
  {
    if i == 0 then None else Some(keys[i - 1])
  }

  lemma {:induction false} MemberContinues(
    g: Grammar, s: string, fields: map<string, Json>, last: Option<string>, name: string, after: string, v: Json, rest: string)
    requires TakesCanonical(g) && ReadName(g, s) == Got(name, after) && ReadValue(g, after) == Got(v, rest) && rest != ""
    requires last.Some? ==> Precedes(last.value, name)
    ensures rest[0] == ',' ==> ReadMembers(g, s, fields, last) == ReadMembers(g, rest[1..], fields[name := v], Some(name))
    ensures rest[0] == '}' ==> ReadMembers(g, s, fields, last) == Got(Obj(fields[name := v]), rest[1..])
  {
    hide ReadValue, ReadName, Precedes;
    if rest[0] == ',' || rest[0] == '}' {
      NothingToSkip(g, rest);
    }
  }

  /** The text of the members from position i on. */
  ghost function MemberText(v: Json, keys: seq<string>, i: nat, r: string): string
    requires Lists(v, keys) && i < |keys|
  {
    assert keys[i] in keys;
    JsonString(keys[i]) + (":" + (Canonical(v.fields[keys[i]]) + (Members(v, keys, i + 1) + "}" + r)))
  }

  lemma {:induction false} MembersFollow(v: Json, keys: seq<string>, i: nat, r: string)
    requires Lists(v, keys) && i < |keys|
    ensures var rest := Members(v, keys, i + 1) + "}" + r;
            && Ends(rest) && rest != ""
            && (if i + 1 < |keys| then rest[0] == ',' && rest[1..] == MemberText(v, keys, i + 1, r)
                else rest[0] == '}' && rest[1..] == r)
  {
    var rest := Members(v, keys, i + 1) + "}" + r;
    MembersEnd(v, keys, i + 1, r);
    if i + 1 < |keys| {
      assert keys[i + 1] in keys;
      MembersStep(v, keys, i + 1, r);
      hide JsonString, Canonical, Members;
      assert rest == "," + MemberText(v, keys, i + 1, r);
    } else {
      assert rest == "}" + r && rest[1..] == r;
    }
  }

  lemma {:induction false} MembersBack(g: Grammar, v: Json, keys: seq<string>, i: nat, fields: map<string, Json>, r: string)
    requires TakesCanonical(g) && v.Obj? && ReadsNumbers(g, v) && keys == SortedKeys(v.fields.Keys) && i < |keys|
    requires Lists(v, keys) && FirstMembers(v, keys, i, fields)
    ensures ReadMembers(g, MemberText(v, keys, i, r), fields, LastKey(keys, i)) == Got(v, r)
    decreases v, |keys| - i
  {
    var rest := Members(v, keys, i + 1) + "}" + r;
    OneMoreMember(v, keys, i, fields);
    var more := fields[keys[i] := v.fields[keys[i]]];
    MembersFollow(v, keys, i, r);
    NameBack(g, keys[i], Canonical(v.fields[keys[i]]) + rest);
    assert ReadsNumbers(g, v.fields[keys[i]]);
    hide ReadValue, ReadName, ReadMembers, Canonical, Members, Precedes, JsonString, SortedKeys, FirstMembers, Lists;
    ValueBack(g, v.fields[keys[i]], rest);
    KeysAscend(v.fields.Keys, keys, i);
    MemberContinues(g, MemberText(v, keys, i, r), fields, LastKey(keys, i), keys[i], Canonical(v.fields[keys[i]]) + rest,
                    v.fields[keys[i]], rest);
    if i + 1 < |keys| {
      MembersBack(g, v, keys, i + 1, more, r);
    } else {
      AllMembers(v, more);
    }
  }

  lemma {:induction false} KeysAscend(names: set<string>, keys: seq<string>, i: nat)
    requires keys == SortedKeys(names) && i < |keys|
    ensures i > 0 ==> Precedes(keys[i - 1], keys[i])
  {
    SortedKeysHolds(names);
    if i > 0 {
      PrecedesExactly(keys[i - 1], keys[i]);
    }
  }

  lemma {:induction false} ArrayOpens(g: Grammar, body: string)
    requires TakesCanonical(g) && body != "" && body[0] !in WHITE
    ensures ReadValue(g, "[" + body) == if body[0] == ']' then Got(Arr([]), body[1..]) else ReadItems(g, body, [])
  {
    var s := "[" + body;
    assert s[1..] == body;
    NothingToSkip(g, s);
    NothingToSkip(g, body);
    NotAWord(s);
    hide Skip, ReadItems;
  }

  lemma {:induction false} ObjectOpens(g: Grammar, body: string)
    requires TakesCanonical(g) && body != "" && body[0] !in WHITE
    ensures ReadValue(g, "{" + body) ==
            if body[0] == '}' then Got(Obj(map[]), body[1..]) else ReadMembers(g, body, map[], None)
  {
    var s := "{" + body;
    assert s[1..] == body;
    NothingToSkip(g, s);
    NothingToSkip(g, body);
    NotAWord(s);
    hide Skip, ReadMembers;
  }

  lemma {:induction false} ArrayBack(g: Grammar, v: Json, r: string)
    requires TakesCanonical(g) && v.Arr? && ReadsNumbers(g, v)
    ensures ReadValue(g, Canonical(v) + r) == Got(v, r)
    decreases v, |v.items| + 1
  {
    var body := Items(v, 0) + "]" + r;
    Open("[", Items(v, 0), "]", r);
    if v.items == [] {
      assert body == "]" + r;
    } else {
      ItemsStep(v, 0, r);
      assert body == Canonical(v.items[0]) + (Items(v, 1) + "]" + r);
      ReadsWellFormed(g, v.items[0]);
      FirstChar(v.items[0]);
      ShapeIsBlack(body[0]);
      ItemsBack(g, v, 0, r);
      assert v.items[..0] == [];
    }
    hide ReadValue, ReadItems, ReadsNumbers, Items;
    ArrayOpens(g, body);
  }

  lemma {:induction false} ObjectText(v: Json, r: string)
    requires v.Obj?
    ensures var keys := SortedKeys(v.fields.Keys);
            && Lists(v, keys) && Canonical(v) + r == "{" + (Members(v, keys, 0) + "}" + r)
            && (keys == [] ==> v.fields == map[])
  {
    SortedKeysHolds(v.fields.Keys);
    Open("{", Members(v, SortedKeys(v.fields.Keys), 0), "}", r);
  }

  lemma {:induction false} ObjectBack(g: Grammar, v: Json, r: string)
    requires TakesCanonical(g) && v.Obj? && ReadsNumbers(g, v)
    ensures ReadValue(g, Canonical(v) + r) == Got(v, r)
    decreases v, |SortedKeys(v.fields.Keys)| + 1
  {
    hide *;
    var keys := SortedKeys(v.fields.Keys);
    ObjectText(v, r);
    FirstMemberText(v, keys, r);
    if keys != [] {
      NoMembersYet(v, keys);
      MembersBack(g, v, keys, 0, map[], r);
      NoLastKey(keys);
    }
    QuoteIsBlack();
    ObjectOpens(g, Members(v, keys, 0) + "}" + r);
  }

  lemma {:induction false} NoLastKey(keys: seq<string>)
    ensures LastKey(keys, 0) == None
  {
  }

  lemma {:induction false} QuoteIsBlack()
    ensures '"' !in WHITE && '}' !in WHITE
  {
  }

  lemma {:induction false} NoMembersYet(v: Json, keys: seq<string>)
    requires Lists(v, keys)
    ensures FirstMembers(v, keys, 0, map[])
  {
  }

  lemma {:induction false} FirstMemberText(v: Json, keys: seq<string>, r: string)
    requires Lists(v, keys)
    ensures var body := Members(v, keys, 0) + "}" + r;
            && body != ""
            && (keys == [] ==> body[0] == '}' && body[1..] == r)
            && (keys != [] ==> body[0] == '"' && body == MemberText(v, keys, 0, r))
  {
    if keys == [] {
      assert Members(v, keys, 0) + "}" + r == "}" + r;
    } else {
      assert keys[0] in keys;
      MembersStep(v, keys, 0, r);
    }
  }

  /** Wherever a value stands in a document, its canonical text is read as that value, and the reader goes on behind it. */
  lemma {:induction false} ValueBack(g: Grammar, v: Json, r: string)
    requires TakesCanonical(g) && ReadsNumbers(g, v) && Ends(r)
    ensures ReadValue(g, Canonical(v) + r) == Got(v, r)
    decreases v, if v.Arr? then |v.items| + 2 else if v.Obj? then |SortedKeys(v.fields.Keys)| + 2 else 0
  {
    match v
    case Null => LiteralBack(g, v, r);
    case Bool(_) => LiteralBack(g, v, r);
    case Num(t) => NumberBack(g, t, r);
    case Str(t) => TextBack(g, t, r);
    case Arr(_) => ArrayBack(g, v, r);
    case Obj(_) => ObjectBack(g, v, r);
  }

  /** Whatever white space a reader would skip, in whatever order it would take members, and whatever it takes for the
      numbers of the value: it reads the canonical text as the value itself. */
  lemma {:induction false} CanonicalReadBack(g: Grammar, v: Json)
    requires TakesCanonical(g) && ReadsNumbers(g, v)
    ensures ReadText(g, Canonical(v)) == Some(v)
  {
    assert Canonical(v) + "" == Canonical(v);
    ValueBack(g, v, "");
  }

  /** The grammar of the standard: its white space, its numbers, its spellings, members in any order. */
  function Standard(): Grammar {
    Grammar(IsNumber, WHITE, false, (t, c) => true)
  }

  /** The letters of the five control characters that have one. */
  const LETTERS: map<int, char> := map[0x08 := 'b', 0x09 := 't', 0x0a := 'n', 0x0c := 'f', 0x0d := 'r']

  /** One spelling for each character: a backslash and the character itself or its letter, the character as it is up to
      U+007F, or its UTF-16 units in lower-case digits. */
  predicate Spells(t: string, c: char) {
    var n := c as int;
    if c == '"' || c == '\\' then t == ['\\', c]
    else if n in LETTERS then t == ['\\', LETTERS[n]]
    else if 0x20 <= n <= 0x7f then t == [c]
    else
      && |t| == (if n <= 0xffff then 6 else 12) && t[0] == '\\' && t[1] == 'u'
      && forall i :: 0 <= i < |t| ==> !('A' <= t[i] <= 'Z')
  }

  /** The strict grammar: no white space between tokens, members in ascending order and one spelling for each character. */
  function Strict(): Grammar {
    Grammar(IsNumber, {}, true, Spells)
  }

  lemma {:induction false} LowerHex4(n: nat)
    requires n < 0x10000
    ensures forall i :: 0 <= i < 4 ==> !('A' <= Hex4(n)[i] <= 'Z')
  {
  }

  lemma {:induction false} LowerUnit(n: nat)
    requires n < 0x10000
    ensures forall i :: 0 <= i < 6 ==> !('A' <= UnitEscape(n)[i] <= 'Z')
  {
    LowerHex4(n);
    hide Hex4;
    assert forall i :: 2 <= i < 6 ==> UnitEscape(n)[i] == Hex4(n)[i - 2];
  }

  lemma {:induction false} EscapeSpells(c: char)
    ensures Spells(EscapeChar(c), c)
  {
    if ShortEscape(c).None? && !(0x20 <= c as int <= 0x7f) {
      var u := Units(c);
      LowerUnit(u[0]);
      hide UnitEscape;
      if |u| == 2 {
        LowerUnit(u[1]);
        var t := UnitEscape(u[0]) + UnitEscape(u[1]);
        assert forall i :: 6 <= i < 12 ==> t[i] == UnitEscape(u[1])[i - 6];
      }
    }
  }

  lemma {:induction false} GrammarsTakeCanonical()
    ensures TakesCanonical(Standard()) && TakesCanonical(Strict())
  {
    forall c ensures Spells(EscapeChar(c), c) {
      EscapeSpells(c);
    }
    hide EscapeChar, Spells;
  }

  /** Every number in the value is one by section 6, as a decoder hands it over. */
  ghost predicate Decoded(v: Json)
    decreases v
  {
    match v
    case Num(t) => IsNumber(t)
    case Arr(items) => forall i :: 0 <= i < |items| ==> Decoded(items[i])
    case Obj(fields) => forall k :: k in fields ==> Decoded(fields[k])
    case _ => true
  }

  lemma {:induction false} DecodedReads(g: Grammar, v: Json)
    requires Decoded(v) && forall t :: IsNumber(t) ==> g.number(t)
    ensures ReadsNumbers(g, v)
    decreases v
  {
    match v
    case Num(t) => NumbersAreTokens(t);
    case Arr(items) =>
      forall i | 0 <= i < |items| ensures ReadsNumbers(g, items[i]) {
        DecodedReads(g, items[i]);
      }
    case Obj(fields) =>
      forall k | k in fields ensures ReadsNumbers(g, fields[k]) {
        DecodedReads(g, fields[k]);
      }
    case _ =>
  }

  /** The canonical text of a decoded value is a JSON text by RFC 8259 for that value; and it is one without any
      insignificant white space, with the members of every object in ascending order and with one spelling for each
      character. */
  lemma {:induction false} CanonicalIsJson(v: Json)
    requires Decoded(v)
    ensures ReadText(Standard(), Canonical(v)) == Some(v)
    ensures ReadText(Strict(), Canonical(v)) == Some(v)
  {
    GrammarsTakeCanonical();
    DecodedReads(Standard(), v);
    DecodedReads(Strict(), v);
    CanonicalReadBack(Standard(), v);
    CanonicalReadBack(Strict(), v);
  }

  /** The strict grammar with every token of number characters for a number. */
  function Tokens(): Grammar {
    Strict().(number := NumberToken)
  }

  ghost predicate TokensOnly(v: Json) {
    ReadsNumbers(Tokens(), v)
  }

  lemma {:induction false} WellFormedReads(v: Json)
    requires WellFormed(v)
    ensures TokensOnly(v)
    decreases v
  {
    match v
    case Arr(items) =>
      forall i | 0 <= i < |items| ensures TokensOnly(items[i]) {
        WellFormedReads(items[i]);
      }
    case Obj(fields) =>
      forall k | k in fields ensures TokensOnly(fields[k]) {
        WellFormedReads(fields[k]);
      }
    case _ =>
  }

  /** With every token of number characters taken for a number, every well-formed value is read back. */
  lemma {:induction false} WellFormedReadBack(v: Json)
    requires WellFormed(v)
    ensures ReadText(Tokens(), Canonical(v)) == Some(v)
  {
    WellFormedReads(v);
    GrammarsTakeCanonical();
    CanonicalReadBack(Tokens(), v);
  }
}
