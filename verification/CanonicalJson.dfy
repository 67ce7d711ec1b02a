/** The canonical JSON text that every authority digest is taken over, and why it determines the document. */
module CanonicalJson {
  import opened Text
  import opened JsonValue

  // ----- number tokens -----

  predicate NumberChar(c: char) {
    IsDigit(c) || c in "+-.eE"
  }

  /** What a decoder hands over as a number: sign or digit first, only number characters after it. */
  predicate NumberToken(t: string) {
    && t != "" && (IsDigit(t[0]) || t[0] == '-')
    && forall i :: 0 <= i < |t| ==> NumberChar(t[i])
  }

  ghost predicate WellFormed(v: Json)
    decreases v
  {
    match v
    case Num(t) => NumberToken(t)
    case Arr(items) => forall i :: 0 <= i < |items| ==> WellFormed(items[i])
    case Obj(fields) => forall k :: k in fields ==> WellFormed(fields[k])
    case _ => true
  }

  // ----- strings -----

  function HexDigit(n: nat): char
    requires n < 16
  {
    "0123456789abcdef"[n]
  }

  function Hex4(n: nat): (s: string)
    requires n < 0x10000
    ensures |s| == 4
  {
    [HexDigit(n / 16 / 16 / 16), HexDigit(n / 16 / 16 % 16), HexDigit(n / 16 % 16), HexDigit(n % 16)]
  }

  /** The UTF-16 code units of a scalar value. */
  function Units(c: char): (units: seq<nat>)
    ensures 1 <= |units| <= 2 && forall i :: 0 <= i < |units| ==> units[i] < 0x10000
  {
    var n := c as int;
    if n <= 0xffff then [n] else [0xd800 + (n - 0x10000) / 0x400, 0xdc00 + (n - 0x10000) % 0x400]
  }

  function UnitEscape(n: nat): (s: string)
    requires n < 0x10000
    ensures |s| == 6 && s[0] == '\\' && s[1] == 'u'
  {
    ['\\', 'u'] + Hex4(n)
  }

  function UnicodeEscape(c: char): string {
    var units := Units(c);
    if |units| == 1 then UnitEscape(units[0]) else UnitEscape(units[0]) + UnitEscape(units[1])
  }

  /** The letter of a two-character escape. */
  function ShortEscape(c: char): Option<char> {
    var n := c as int;
    if c == '"' || c == '\\' then Some(c)
    else if n == 0x08 then Some('b')
    else if n == 0x0c then Some('f')
    else if n == 0x0a then Some('n')
    else if n == 0x0d then Some('r')
    else if n == 0x09 then Some('t')
    else None
  }

  function EscapeChar(c: char): (s: string)
    ensures s != ""
  {
    match ShortEscape(c)
    case Some(letter) => ['\\', letter]
    case None => if 0x20 <= c as int <= 0x7f then [c] else UnicodeEscape(c)
  }

  function Escape(s: string): string {
    if s == "" then "" else EscapeChar(s[0]) + Escape(s[1..])
  }

  function JsonString(s: string): string {
    "\"" + Escape(s) + "\""
  }

  // ----- sorted keys -----

  /** Code point order, which is also the byte order of the UTF-8 encodings. */
  predicate Before(a: string, b: string) {
    b != "" && (a == "" || a[0] < b[0] || (a[0] == b[0] && Before(a[1..], b[1..])))
  }

  ghost predicate Ascending(keys: seq<string>) {
    forall i, j :: 0 <= i < j < |keys| ==> Before(keys[i], keys[j])
  }

  lemma {:induction false} BeforeTotal(a: string, b: string)
    ensures a == b || Before(a, b) || Before(b, a)
  {
    if a != "" && b != "" && a[0] == b[0] {
      BeforeTotal(a[1..], b[1..]);
      assert a == [a[0]] + a[1..] && b == [b[0]] + b[1..];
    }
  }

  lemma {:induction false} BeforeTransitive(a: string, b: string, c: string)
    requires Before(a, b) && Before(b, c)
    ensures Before(a, c)
  {
    if a != "" && a[0] == b[0] == c[0] {
      BeforeTransitive(a[1..], b[1..], c[1..]);
    }
  }

  lemma {:induction false} BeforeStrict(a: string, b: string)
    requires Before(a, b)
    ensures !Before(b, a) && a != b
  {
    if a != "" && a[0] == b[0] {
      BeforeStrict(a[1..], b[1..]);
    }
  }

  function Insert(keys: seq<string>, k: string): seq<string> {
    if keys == [] then [k]
    else if Before(k, keys[0]) then [k] + keys
    else [keys[0]] + Insert(keys[1..], k)
  }

  lemma {:induction false} InsertHolds(keys: seq<string>, k: string)
    ensures forall x :: x in Insert(keys, k) <==> x == k || x in keys
    ensures |Insert(keys, k)| == |keys| + 1
  {
    if keys != [] && !Before(k, keys[0]) {
      InsertHolds(keys[1..], k);
      assert keys == [keys[0]] + keys[1..];
    }
  }

  lemma {:induction false} AscendingCons(k: string, keys: seq<string>)
    requires Ascending(keys) && forall x :: x in keys ==> Before(k, x)
    ensures Ascending([k] + keys)
  {
    var all := [k] + keys;
    forall i, j | 0 <= i < j < |all| ensures Before(all[i], all[j]) {
      assert all[j] == keys[j - 1];
      if i > 0 {
        assert all[i] == keys[i - 1];
      }
    }
  }

  lemma {:induction false} InsertAscending(keys: seq<string>, k: string)
    requires Ascending(keys) && k !in keys
    ensures Ascending(Insert(keys, k))
  {
    if keys == [] {
    } else if Before(k, keys[0]) {
      forall x | x in keys ensures Before(k, x) {
        var i :| 0 <= i < |keys| && keys[i] == x;
        if i > 0 {
          BeforeTransitive(k, keys[0], x);
        }
      }
      AscendingCons(k, keys);
    } else {
      var rest := keys[1..];
      BeforeTotal(k, keys[0]);
      InsertAscending(rest, k);
      InsertHolds(rest, k);
      forall x | x in Insert(rest, k) ensures Before(keys[0], x) {
        if x in rest {
          var i :| 0 <= i < |rest| && rest[i] == x;
          assert x == keys[i + 1];
        }
      }
      AscendingCons(keys[0], Insert(rest, k));
    }
  }

  /** The keys in ascending order. */
  ghost function SortedKeys(keys: set<string>): seq<string> {
    if keys == {} then []
    else
      var k :| k in keys;
      Insert(SortedKeys(keys - {k}), k)
  }

  lemma {:induction false} SortedKeysHolds(keys: set<string>)
    ensures Ascending(SortedKeys(keys))
    ensures forall x :: x in SortedKeys(keys) <==> x in keys
    decreases |keys|
  {
    if keys != {} {
      var k :| k in keys && SortedKeys(keys) == Insert(SortedKeys(keys - {k}), k);
      SortedKeysHolds(keys - {k});
      InsertAscending(SortedKeys(keys - {k}), k);
      InsertHolds(SortedKeys(keys - {k}), k);
    }
  }

  lemma {:induction false} AscendingTail(keys: seq<string>)
    requires keys != [] && Ascending(keys)
    ensures Ascending(keys[1..]) && keys[0] !in keys[1..]
  {
    var rest := keys[1..];
    forall i, j | 0 <= i < j < |rest| ensures Before(rest[i], rest[j]) {
      assert Before(keys[i + 1], keys[j + 1]);
    }
    forall i | 0 <= i < |rest| ensures rest[i] != keys[0] {
      BeforeStrict(keys[0], keys[i + 1]);
    }
  }

  /** Ascending order leaves no choice: however the keys were gathered, sorting them gives one list. */
  lemma {:induction false} AscendingUnique(a: seq<string>, b: seq<string>)
    requires Ascending(a) && Ascending(b) && forall x :: x in a <==> x in b
    ensures a == b
    decreases |a|
  {
    assert a != [] ==> a[0] in a;
    assert b != [] ==> b[0] in b;
    if a != [] && b != [] {
      assert a[0] in b && b[0] in a;
      var i :| 0 <= i < |b| && b[i] == a[0];
      var j :| 0 <= j < |a| && a[j] == b[0];
      if i > 0 && j > 0 {
        BeforeStrict(a[0], b[0]);
      }
      assert a[0] == b[0];
      AscendingTail(a);
      AscendingTail(b);
      assert a == [a[0]] + a[1..] && b == [b[0]] + b[1..];
      forall x ensures x in a[1..] <==> x in b[1..] {
        assert x in a <==> x == a[0] || x in a[1..];
        assert x in b <==> x == b[0] || x in b[1..];
      }
      AscendingUnique(a[1..], b[1..]);
    }
  }

  // ----- the canonical text -----

  ghost function Canonical(v: Json): string
    decreases v
  {
    match v
    case Null => "null"
    case Bool(b) => if b then "true" else "false"
    case Num(t) => t
    case Str(s) => JsonString(s)
    case Arr(_) => "[" + Items(v, 0) + "]"
    case Obj(fields) => "{" + Members(v, SortedKeys(fields.Keys), 0) + "}"
  }

  function Comma(i: nat): string {
    if i > 0 then "," else ""
  }

  ghost function Items(v: Json, i: nat): string
    requires v.Arr? && i <= |v.items|
    decreases v, |v.items| - i
  {
    if i == |v.items| then "" else Comma(i) + Canonical(v.items[i]) + Items(v, i + 1)
  }

  ghost function Members(v: Json, keys: seq<string>, i: nat): string
    requires v.Obj? && i <= |keys|
    decreases v, |keys| - i
  {
    if i == |keys| then ""
    else Comma(i) + JsonString(keys[i]) + ":"
         + (if keys[i] in v.fields then Canonical(v.fields[keys[i]]) else "") + Members(v, keys, i + 1)
  }

  // ----- the writer -----

  class Buffer {
    var text: string

    constructor ()
      ensures text == ""
    {
      text := "";
    }

    method WriteString(s: string)
      modifies this
      ensures text == old(text) + s
    {
      text := text + s;
    }
  }

  method WriteEscaped(buffer: Buffer, current: char)
    modifies buffer
    ensures buffer.text == old(buffer.text) + EscapeChar(current)
  {
    var n := current as int;
    if current == '"' || current == '\\' {
      buffer.WriteString(['\\', current]);
    } else if n == 0x08 {
      buffer.WriteString(['\\', 'b']);
    } else if n == 0x0c {
      buffer.WriteString(['\\', 'f']);
    } else if n == 0x0a {
      buffer.WriteString(['\\', 'n']);
    } else if n == 0x0d {
      buffer.WriteString(['\\', 'r']);
    } else if n == 0x09 {
      buffer.WriteString(['\\', 't']);
    } else if n < 0x20 {
      buffer.WriteString(UnitEscape(n));
    } else if n <= 0x7f {
      buffer.WriteString([current]);
    } else if n <= 0xffff {
      buffer.WriteString(UnitEscape(n));
    } else {
      var units := Units(current);
      buffer.WriteString(UnitEscape(units[0]) + UnitEscape(units[1]));
    }
  }

  method WriteJsonString(buffer: Buffer, value: string)
    modifies buffer
    ensures buffer.text == old(buffer.text) + JsonString(value)
  {
    ghost var start := buffer.text;
    buffer.WriteString("\"");
    for i := 0 to |value|
      invariant buffer.text + Escape(value[i..]) == start + "\"" + Escape(value)
    {
      ghost var before := buffer.text;
      assert value[i..][1..] == value[i + 1..];
      WriteEscaped(buffer, value[i]);
      Associate(before, EscapeChar(value[i]), Escape(value[i + 1..]));
    }
    buffer.WriteString("\"");
    Wrap(start, "\"", Escape(value), "\"");
  }

  /** sort.Strings on the distinct keys of a map. */
  method SortStrings(keys: seq<string>) returns (sorted: seq<string>)
    requires forall i, j :: 0 <= i < j < |keys| ==> keys[i] != keys[j]
    ensures Ascending(sorted) && forall x :: x in sorted <==> x in keys
  {
    sorted := [];
    for i := 0 to |keys|
      invariant Ascending(sorted) && forall x :: x in sorted <==> x in keys[..i]
    {
      InsertAscending(sorted, keys[i]);
      InsertHolds(sorted, keys[i]);
      sorted := Insert(sorted, keys[i]);
      assert keys[..i + 1] == keys[..i] + [keys[i]];
    }
    assert keys[..|keys|] == keys;
  }

  /** Ranges over a map's keys in no particular order and sorts them. */
  method GatherKeys(fields: map<string, Json>) returns (keys: seq<string>)
    ensures keys == SortedKeys(fields.Keys)
  {
    keys := [];
    var left := fields.Keys;
    while left != {}
      invariant left <= fields.Keys
      invariant forall x :: x in keys <==> x in fields && x !in left
      invariant forall i, j :: 0 <= i < j < |keys| ==> keys[i] != keys[j]
      decreases |left|
    {
      var k :| k in left;
      keys, left := keys + [k], left - {k};
    }
    keys := SortStrings(keys);
    SortedKeysHolds(fields.Keys);
    AscendingUnique(keys, SortedKeys(fields.Keys));
  }

  method WriteCanonicalJson(buffer: Buffer, value: Json)
    modifies buffer
    ensures buffer.text == old(buffer.text) + Canonical(value)
    decreases value
  {
    match value {
      case Null => buffer.WriteString("null");
      case Bool(b) =>
        if b {
          buffer.WriteString("true");
        } else {
          buffer.WriteString("false");
        }
      case Num(token) => buffer.WriteString(token);
      case Str(text) => WriteJsonString(buffer, text);
      case Arr(_) => WriteArray(buffer, value);
      case Obj(_) => WriteObject(buffer, value);
    }
  }

  method WriteArray(buffer: Buffer, value: Json)
    requires value.Arr?
    modifies buffer
    ensures buffer.text == old(buffer.text) + Canonical(value)
    decreases value, 0
  {
    ghost var start := buffer.text + "[";
    buffer.WriteString("[");
    for index := 0 to |value.items|
      invariant buffer.text + Items(value, index) == start + Items(value, 0)
    {
      ghost var before := buffer.text;
      if index > 0 {
        buffer.WriteString(",");
      }
      assert buffer.text == before + Comma(index);
      WriteCanonicalJson(buffer, value.items[index]);
      Regroup(before, Comma(index), Canonical(value.items[index]), Items(value, index + 1));
    }
    buffer.WriteString("]");
    Wrap(old(buffer.text), "[", Items(value, 0), "]");
  }

  method WriteObject(buffer: Buffer, value: Json)
    requires value.Obj?
    modifies buffer
    ensures buffer.text == old(buffer.text) + Canonical(value)
    decreases value, 0
  {
    ghost var start := buffer.text + "{";
    var keys := GatherKeys(value.fields);
    SortedKeysHolds(value.fields.Keys);
    buffer.WriteString("{");
    for index := 0 to |keys|
      invariant buffer.text + Members(value, keys, index) == start + Members(value, keys, 0)
    {
      ghost var before := buffer.text;
      assert keys[index] in keys;
      if index > 0 {
        buffer.WriteString(",");
      }
      WriteJsonString(buffer, keys[index]);
      buffer.WriteString(":");
      WriteCanonicalJson(buffer, value.fields[keys[index]]);
      assert buffer.text == before + Comma(index) + JsonString(keys[index]) + ":" + Canonical(value.fields[keys[index]]);
      MemberStep(before, value, keys, index);
    }
    buffer.WriteString("}");
    Wrap(old(buffer.text), "{", Members(value, keys, 0), "}");
  }

  lemma {:induction false} MemberStep(before: string, v: Json, keys: seq<string>, i: nat)
    requires v.Obj? && i < |keys| && keys[i] in v.fields
    ensures before + Members(v, keys, i) ==
            before + Comma(i) + JsonString(keys[i]) + ":" + Canonical(v.fields[keys[i]]) + Members(v, keys, i + 1)
  {
    var a, b, c, d := Comma(i), JsonString(keys[i]), Canonical(v.fields[keys[i]]), Members(v, keys, i + 1);
    assert before + (a + b + ":" + c + d) == before + a + b + ":" + c + d;
  }

  lemma {:induction false} Associate(a: string, b: string, c: string)
    ensures a + (b + c) == (a + b) + c
  {
  }

  lemma {:induction false} Regroup(a: string, b: string, c: string, d: string)
    ensures a + (b + c + d) == (a + b + c) + d
  {
  }

  lemma {:induction false} Wrap(a: string, b: string, c: string, d: string)
    ensures a + b + c + d == a + (b + c + d)
  {
  }
}
