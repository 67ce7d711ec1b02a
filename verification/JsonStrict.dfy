/** The canonical text of a value is its only strict one. */
module JsonStrict {
  import opened Text
  import opened JsonValue
  import opened CanonicalJson
  import opened JsonInjective
  import opened JsonReader

  // ----- characters -----

  predicate Lower(s: string) {
    forall i :: 0 <= i < |s| ==> !('A' <= s[i] <= 'Z')
  }

  lemma {:induction false} HexParts(n: nat, a: nat, b: nat, c: nat, d: nat)
    requires a < 16 && b < 16 && c < 16 && d < 16 && n == ((a * 16 + b) * 16 + c) * 16 + d
    ensures n < 0x10000 && n / 16 / 16 / 16 == a && n / 16 / 16 % 16 == b && n / 16 % 16 == c && n % 16 == d
  {
  }

  lemma {:induction false} Hex4Values(s: string, n: nat, rest: string) returns (a: nat, b: nat, c: nat, d: nat)
    requires ReadHex4(s) == Got(n, rest)
    ensures |s| >= 4 && rest == s[4..] && a < 16 && b < 16 && c < 16 && d < 16
    ensures n == ((a * 16 + b) * 16 + c) * 16 + d
    ensures [HexValue(s[0]), HexValue(s[1]), HexValue(s[2]), HexValue(s[3])] == [Some(a), Some(b), Some(c), Some(d)]
  {
    a, b, c, d := HexValue(s[0]).value, HexValue(s[1]).value, HexValue(s[2]).value, HexValue(s[3]).value;
    hide HexValue;
  }

  lemma {:induction false} Hex4Joins(n: nat, a: nat, b: nat, c: nat, d: nat)
    requires a < 16 && b < 16 && c < 16 && d < 16 && n == ((a * 16 + b) * 16 + c) * 16 + d
    ensures n < 0x10000 && Hex4(n) == [HexDigit(a), HexDigit(b), HexDigit(c), HexDigit(d)]
  {
    hide HexDigit;
    HexParts(n, a, b, c, d);
  }

  lemma {:induction false} DigitForth(c: char, n: nat)
    requires HexValue(c) == Some(n) && n < 16 && !('A' <= c <= 'Z')
    ensures HexDigit(n) == c
  {
  }

  lemma {:induction false} FirstFourLower(s: string)
    requires |s| >= 4 && Lower(s[..4])
    ensures s == [s[0], s[1], s[2], s[3]] + s[4..]
    ensures !('A' <= s[0] <= 'Z') && !('A' <= s[1] <= 'Z') && !('A' <= s[2] <= 'Z') && !('A' <= s[3] <= 'Z')
  {
    assert s[..4][0] == s[0] && s[..4][1] == s[1] && s[..4][2] == s[2] && s[..4][3] == s[3];
  }

  lemma {:induction false} Hex4Forth(s: string, n: nat, rest: string)
    requires ReadHex4(s) == Got(n, rest) && Lower(s[..4])
    ensures rest == s[4..] && s == Hex4(n) + rest
  {
    hide *;
    FirstFourLower(s);
    var a, b, c, d := Hex4Values(s, n, rest);
    Hex4Joins(n, a, b, c, d);
    DigitForth(s[0], a);
    DigitForth(s[1], b);
    DigitForth(s[2], c);
    DigitForth(s[3], d);
  }

  /** Reading a \u escape takes four characters, or ten when the unit is a high one. */
  lemma {:induction false} UnicodeTakes(s: string, c: char, rest: string)
    requires ReadUnicode(s) == Got(c, rest)
    ensures |s| >= 4 && (rest == s[4..] || (|s| >= 10 && rest == s[10..]))
  {
    if ReadHex4(s).Got? && HighUnit(ReadHex4(s).value) {
      assert s[4..][2..] == s[6..] && s[6..][4..] == s[10..];
    }
    hide HexValue;
  }

  lemma {:induction false} OneUnitForth(s: string, c: char, rest: string)
    requires ReadUnicode(s) == Got(c, rest) && |s| >= 4 && Lower(s[..4]) && !HighUnit(ReadHex4(s).value)
    ensures Units(c) == [ReadHex4(s).value] && ['\\', 'u'] + s == UnicodeEscape(c) + rest
  {
    Hex4Forth(s, ReadHex4(s).value, ReadHex4(s).rest);
    hide Hex4, ReadHex4;
    assert ['\\', 'u'] + s == UnitEscape(ReadHex4(s).value) + rest;
  }

  lemma {:induction false} UnitsJoin(n: nat, m: nat, c: char)
    requires HighUnit(n) && LowUnit(m) && c as int == 0x10000 + (n - 0xd800) * 0x400 + (m - 0xdc00)
    ensures Units(c) == [n, m]
  {
    assert (c as int - 0x10000) / 0x400 == n - 0xd800 && (c as int - 0x10000) % 0x400 == m - 0xdc00;
  }

  /** What reading two units went through. */
  lemma {:induction false} TwoUnitsUnfold(s: string, c: char, rest: string) returns (n: nat, mid: string, m: nat)
    requires ReadUnicode(s) == Got(c, rest) && HighUnit(ReadHex4(s).value)
    ensures ReadHex4(s) == Got(n, mid) && HighUnit(n) && |mid| >= 2 && mid == ['\\', 'u'] + mid[2..]
    ensures ReadHex4(mid[2..]) == Got(m, rest) && LowUnit(m) && c as int == 0x10000 + (n - 0xd800) * 0x400 + (m - 0xdc00)
  {
    n, mid := ReadHex4(s).value, ReadHex4(s).rest;
    m := ReadHex4(mid[2..]).value;
    hide ReadHex4;
  }

  lemma {:induction false} TwoUnitsForth(s: string, c: char, rest: string)
    requires ReadUnicode(s) == Got(c, rest) && |s| >= 10 && Lower(s[..10]) && HighUnit(ReadHex4(s).value)
    ensures ['\\', 'u'] + s == UnicodeEscape(c) + rest
  {
    var n, mid, m := TwoUnitsUnfold(s, c, rest);
    UnitsJoin(n, m, c);
    hide ReadUnicode, ReadHex4, Hex4, Units, LowUnit, HighUnit;
    assert Lower(s[..4]) && s[..10][6..] == s[6..10] && Lower(s[6..10]) by {
      assert forall i :: 0 <= i < 10 ==> s[..10][i] == s[i];
    }
    Hex4Forth(s, n, mid);
    assert mid[2..] == s[6..] && mid[2..][..4] == s[6..10];
    Hex4Forth(mid[2..], m, rest);
    TwoEscapes(n, m, rest);
    assert UnicodeEscape(c) == UnitEscape(n) + UnitEscape(m);
  }

  lemma {:induction false} TwoEscapes(n: nat, m: nat, rest: string)
    requires n < 0x10000 && m < 0x10000
    ensures ['\\', 'u'] + (Hex4(n) + (['\\', 'u'] + (Hex4(m) + rest))) == UnitEscape(n) + UnitEscape(m) + rest
  {
    hide Hex4;
  }

  lemma {:induction false} UnicodeForth(s: string, c: char, rest: string)
    requires ReadUnicode(s) == Got(c, rest) && |rest| <= |s| && Lower(s[..|s| - |rest|])
    ensures ['\\', 'u'] + s == UnicodeEscape(c) + rest
  {
    UnicodeTakes(s, c, rest);
    if HighUnit(ReadHex4(s).value) {
      assert |s| >= 10 && rest == s[10..] by {
        assert s[4..][2..] == s[6..];
      }
      TwoUnitsForth(s, c, rest);
    } else {
      OneUnitForth(s, c, rest);
    }
  }

  lemma {:induction false} CharTakes(s: string, c: char, rest: string)
    requires ReadChar(s) == Got(c, rest)
    ensures s == s[..|s| - |rest|] + rest
  {
    if s[0] == '\\' && s[1] == 'u' {
      UnicodeTakes(s[2..], c, rest);
      assert s[2..][4..] == s[6..] && (|s| >= 12 ==> s[2..][10..] == s[12..]);
    }
    hide ReadUnicode;
  }

  lemma {:induction false} CharForth(s: string, c: char, rest: string)
    requires ReadChar(s) == Got(c, rest) && Spells(s[..|s| - |rest|], c)
    ensures s == EscapeChar(c) + rest
  {
    CharTakes(s, c, rest);
    var t := s[..|s| - |rest|];
    if ShortEscape(c).None? && !(0x20 <= c as int <= 0x7f) {
      assert t[0] == s[0] && t[1] == s[1];
      assert s[2..][..|s| - 2 - |rest|] == t[2..];
      hide ReadUnicode, UnicodeEscape;
      UnicodeForth(s[2..], c, rest);
      assert s == ['\\', 'u'] + s[2..];
    }
  }

  // ----- strings and numbers -----

  /** The grammar skips nothing, takes members in ascending order and one spelling for each character. */
  ghost predicate IsStrict(g: Grammar) {
    g.spaces == {} && g.ordered && g.spelling == Spells
  }

  lemma {:induction false} StringForth(g: Grammar, s: string, t: string, rest: string)
    requires IsStrict(g) && ReadString(g, s) == Got(t, rest)
    ensures s == Escape(t) + "\"" + rest
    decreases |s|
  {
    if s != "" && s[0] == '"' {
      assert s == "" + "\"" + rest;
    } else {
      var c, after := ReadChar(s).value, ReadChar(s).rest;
      CharForth(s, c, after);
      hide ReadChar, EscapeChar, Spells;
      StringForth(g, after, t[1..], rest);
      EscapeHead(t, rest);
    }
  }

  lemma {:induction false} QuotedForth(g: Grammar, s: string, t: string, rest: string)
    requires IsStrict(g) && s != "" && s[0] == '"' && ReadString(g, s[1..]) == Got(t, rest)
    ensures s == JsonString(t) + rest
  {
    StringForth(g, s[1..], t, rest);
    hide ReadString, Escape;
    assert s == "\"" + s[1..] == "\"" + (Escape(t) + "\"" + rest) == JsonString(t) + rest;
  }

  lemma {:induction false} SkipsNothing(g: Grammar, s: string)
    requires IsStrict(g)
    ensures Skip(g, s) == s
  {
  }

  lemma {:induction false} NumberForth(g: Grammar, s: string, v: Json, rest: string)
    requires ReadNumber(g, s) == Got(v, rest)
    ensures s == Canonical(v) + rest
  {
    hide Run;
  }

  lemma {:induction false} NameForth(g: Grammar, s: string, name: string, rest: string)
    requires IsStrict(g) && ReadName(g, s) == Got(name, rest)
    ensures s == JsonString(name) + (":" + rest)
  {
    SkipsNothing(g, s);
    var after := ReadString(g, s[1..]).rest;
    SkipsNothing(g, after);
    QuotedForth(g, s, name, after);
    hide ReadString, JsonString, Skip;
    assert after == ":" + rest;
  }

  // ----- arrays -----

  lemma {:induction false} ItemsUnfold(g: Grammar, s: string, items: seq<Json>, v: Json, rest: string)
    returns (x: Json, after: string)
    requires IsStrict(g) && ReadItems(g, s, items) == Got(v, rest)
    ensures ReadValue(g, s) == Got(x, after) && after != "" && |after| < |s|
    ensures after == [after[0]] + after[1..]
    ensures (after[0] == ']' && v == Arr(items + [x]) && rest == after[1..])
         || (after[0] == ',' && ReadItems(g, after[1..], items + [x]) == Got(v, rest))
  {
    x, after := ReadValue(g, s).value, ReadValue(g, s).rest;
    SkipsNothing(g, after);
    hide ReadValue, Skip, IsStrict;
  }

  lemma {:induction false} ItemsForth(g: Grammar, s: string, items: seq<Json>, v: Json, rest: string)
    requires IsStrict(g) && ReadItems(g, s, items) == Got(v, rest)
    ensures v.Arr? && |items| < |v.items| && v.items[..|items|] == items
    ensures s == Canonical(v.items[|items|]) + (Items(v, |items| + 1) + "]" + rest)
    decreases |s|, 3
  {
    var n := |items|;
    var x, after := ItemsUnfold(g, s, items, v, rest);
    ValueForth(g, s, x, after);
    if after[0] == ']' {
      assert Items(v, n + 1) + "]" + rest == "]" + rest;
      assert v.items[..n] == items;
    } else {
      ItemsForth(g, after[1..], items + [x], v, rest);
      assert v.items[..n] == v.items[..n + 1][..n] == items && v.items[n] == v.items[..n + 1][n] == x;
      ItemsStep(v, n + 1, rest);
    }
  }

  // ----- objects -----

  lemma {:induction false} MembersUnfold(
    g: Grammar, s: string, fields: map<string, Json>, last: Option<string>, v: Json, rest: string)
    returns (name: string, x: Json, between: string, after: string)
    requires IsStrict(g) && ReadMembers(g, s, fields, last) == Got(v, rest)
    ensures ReadName(g, s) == Got(name, between) && ReadValue(g, between) == Got(x, after) && after != ""
    ensures |after| < |between| < |s| && after == [after[0]] + after[1..]
    ensures last.Some? ==> Precedes(last.value, name)
    ensures (after[0] == '}' && v == Obj(fields[name := x]) && rest == after[1..])
         || (after[0] == ',' && ReadMembers(g, after[1..], fields[name := x], Some(name)) == Got(v, rest))
  {
    name, between := ReadName(g, s).value, ReadName(g, s).rest;
    x, after := ReadValue(g, between).value, ReadValue(g, between).rest;
    SkipsNothing(g, after);
    hide ReadValue, ReadName, Skip, Precedes;
  }

  /** The keys are the names of the fields, in ascending order. */
  ghost predicate Names(keys: seq<string>, fields: map<string, Json>) {
    Ascending(keys) && forall k :: k in keys <==> k in fields
  }

  lemma {:induction false} NamesMore(keys: seq<string>, fields: map<string, Json>, name: string, x: Json)
    requires Names(keys, fields) && (keys != [] ==> Precedes(keys[|keys| - 1], name))
    ensures Names(keys + [name], fields[name := x]) && name !in fields
  {
    hide Precedes, Before;
    var n := |keys| - 1;
    if keys != [] {
      PrecedesExactly(keys[n], name);
    }
    forall i | 0 <= i < |keys| ensures Before(keys[i], name) && keys[i] != name {
      if i < n {
        BeforeTransitive(keys[i], keys[n], name);
      }
      BeforeStrict(keys[i], name);
    }
  }

  lemma {:induction false} MembersForth(
    g: Grammar, s: string, fields: map<string, Json>, keys: seq<string>, v: Json, rest: string)
    returns (all: seq<string>)
    requires IsStrict(g) && Names(keys, fields)
    requires ReadMembers(g, s, fields, LastKey(keys, |keys|)) == Got(v, rest)
    ensures |keys| < |all| && all[..|keys|] == keys && v.Obj? && Names(all, v.fields) && Lists(v, all)
    ensures forall k :: k in fields ==> k in v.fields && v.fields[k] == fields[k]
    ensures s == MemberText(v, all, |keys|, rest)
    decreases |s|, 3
  {
    var n := |keys|;
    var name, x, between, after := MembersUnfold(g, s, fields, LastKey(keys, n), v, rest);
    NameForth(g, s, name, between);
    ValueForth(g, between, x, after);
    hide *;
    LastKeyIs(keys, name);
    NamesMore(keys, fields, name, x);
    if after[0] == '}' {
      all := keys + [name];
      MembersClose(v, all, x, rest);
    } else {
      all := MembersForth(g, after[1..], fields[name := x], keys + [name], v, rest);
      MembersGoOn(v, all, keys, name, x, fields, after, rest);
    }
    MemberTextIs(v, all, n, rest);
  }

  lemma {:induction false} LastKeyIs(keys: seq<string>, name: string)
    ensures LastKey(keys, |keys|) == if keys == [] then None else Some(keys[|keys| - 1])
    ensures LastKey(keys + [name], |keys| + 1) == Some(name)
  {
  }

  lemma {:induction false} MemberTextIs(v: Json, keys: seq<string>, i: nat, r: string)
    requires Lists(v, keys) && i < |keys|
    ensures keys[i] in keys && v.Obj? && keys[i] in v.fields
    ensures MemberText(v, keys, i, r)
         == JsonString(keys[i]) + (":" + (Canonical(v.fields[keys[i]]) + (Members(v, keys, i + 1) + "}" + r)))
  {
    hide JsonString, Canonical, Members;
  }

  lemma {:induction false} MembersClose(v: Json, all: seq<string>, x: Json, rest: string)
    requires v.Obj? && all != [] && Names(all, v.fields) && all[|all| - 1] in v.fields && v.fields[all[|all| - 1]] == x
    ensures Lists(v, all) && Members(v, all, |all|) + "}" + rest == "}" + rest
  {
  }

  lemma {:induction false} MembersGoOn(
    v: Json, all: seq<string>, keys: seq<string>, name: string, x: Json, fields: map<string, Json>, after: string, rest: string)
    requires |keys| + 1 < |all| && all[..|keys| + 1] == keys + [name] && Lists(v, all) && name !in fields
    requires forall k :: k in fields[name := x] ==> k in v.fields && v.fields[k] == fields[name := x][k]
    requires after != "" && after[0] == ',' && after == [after[0]] + after[1..]
    requires after[1..] == MemberText(v, all, |keys| + 1, rest)
    ensures all[..|keys|] == keys && all[|keys|] == name && v.fields[name] == x
    ensures forall k :: k in fields ==> k in v.fields && v.fields[k] == fields[k]
    ensures after == Members(v, all, |keys| + 1) + "}" + rest
  {
    var n := |keys|;
    assert all[n] == all[..n + 1][n] && all[..n] == all[..n + 1][..n];
    MembersFollow(v, all, n, rest);
    hide MemberText, Members, Lists;
    var follows := Members(v, all, n + 1) + "}" + rest;
    assert follows == [follows[0]] + follows[1..];
  }

  lemma {:induction false} SortedIs(v: Json, all: seq<string>)
    requires v.Obj? && Names(all, v.fields)
    ensures all == SortedKeys(v.fields.Keys)
  {
    SortedKeysHolds(v.fields.Keys);
    hide SortedKeys;
    AscendingUnique(all, SortedKeys(v.fields.Keys));
  }

  // ----- values -----

  lemma {:induction false} ObjectForth(g: Grammar, body: string, v: Json, rest: string)
    requires IsStrict(g) && ReadMembers(g, body, map[], None) == Got(v, rest)
    ensures "{" + body == Canonical(v) + rest
    decreases |body|, 4
  {
    NoKeys();
    var all := MembersForth(g, body, map[], [], v, rest);
    hide *;
    SortedIs(v, all);
    ObjectText(v, rest);
    FirstMemberText(v, all, rest);
  }

  lemma {:induction false} NoKeys()
    ensures Names([], map[]) && LastKey([], 0) == None
  {
  }

  lemma {:induction false} ArrayText(v: Json, r: string)
    requires v.Arr? && v.items != []
    ensures Canonical(v) + r == "[" + (Canonical(v.items[0]) + (Items(v, 1) + "]" + r))
  {
    ItemsStep(v, 0, r);
    hide Items;
    Open("[", Items(v, 0), "]", r);
  }

  lemma {:induction false} ArrayForth(g: Grammar, body: string, v: Json, rest: string)
    requires IsStrict(g) && ReadItems(g, body, []) == Got(v, rest)
    ensures "[" + body == Canonical(v) + rest
    decreases |body|, 4
  {
    ItemsForth(g, body, [], v, rest);
    hide *;
    ArrayText(v, rest);
  }

  lemma {:induction false} EmptyTexts(rest: string)
    ensures "[" + ("]" + rest) == Canonical(Arr([])) + rest
    ensures "{" + ("}" + rest) == Canonical(Obj(map[])) + rest
  {
    ObjectText(Obj(map[]), rest);
    SortedKeysHolds({});
    assert SortedKeys({}) == [];
  }

  /** A literal at the front is that value's text. */
  lemma {:induction false} WordForth(word: string, s: string)
    requires word <= s
    ensures s == word + s[|word|..]
  {
  }

  /** What the strict reader takes for a value is its canonical text. */
  lemma {:induction false} ValueForth(g: Grammar, s: string, v: Json, rest: string)
    requires IsStrict(g) && ReadValue(g, s) == Got(v, rest)
    ensures s == Canonical(v) + rest
    decreases |s|, 2
  {
    SkipsNothing(g, s);
    if "null" <= s {
      WordForth("null", s);
    } else if "true" <= s {
      WordForth("true", s);
    } else if "false" <= s {
      WordForth("false", s);
    } else if s[0] == '"' {
      QuotedForth(g, s, v.text, rest);
    } else if s[0] == '[' {
      SkipsNothing(g, s[1..]);
      assert s == "[" + s[1..];
      if s[1..] != "" && s[1..][0] == ']' {
        EmptyTexts(rest);
        assert s[1..] == "]" + rest;
      } else {
        ArrayForth(g, s[1..], v, rest);
      }
    } else if s[0] == '{' {
      SkipsNothing(g, s[1..]);
      assert s == "{" + s[1..];
      if s[1..] != "" && s[1..][0] == '}' {
        EmptyTexts(rest);
        assert s[1..] == "}" + rest;
      } else {
        ObjectForth(g, s[1..], v, rest);
      }
    } else {
      NumberForth(g, s, v, rest);
    }
  }

  /** Of all texts exactly the canonical one is read as the value by the strict grammar: JSON by RFC 8259 without
      insignificant white space, with ascending members and one spelling for each character. */
  lemma {:induction false} CanonicalExactly(v: Json, s: string)
    requires Decoded(v)
    ensures ReadText(Strict(), s) == Some(v) <==> s == Canonical(v)
  {
    CanonicalIsJson(v);
    if ReadText(Strict(), s) == Some(v) {
      StrictForth(Strict(), s, v);
    }
  }

  lemma {:induction false} StrictForth(g: Grammar, s: string, v: Json)
    requires IsStrict(g) && ReadText(g, s) == Some(v)
    ensures s == Canonical(v)
  {
    hide ReadValue, Canonical;
    var rest := ReadValue(g, s).rest;
    SkipsNothing(g, rest);
    ValueForth(g, s, v, rest);
    assert s == Canonical(v) + "" == Canonical(v);
  }

  /** The same for every well-formed value, with its tokens for numbers. */
  lemma {:induction false} WellFormedExactly(v: Json, s: string)
    requires WellFormed(v)
    ensures ReadText(Tokens(), s) == Some(v) <==> s == Canonical(v)
  {
    WellFormedReadBack(v);
    if ReadText(Tokens(), s) == Some(v) {
      StrictForth(Tokens(), s, v);
    }
  }
}
