/** Canonical JSON texts are equal only when the values are: an unparsing proof, and what it means for digests. */
module JsonInjective {
  import opened Text
  import opened JsonValue
  import opened CanonicalJson

  // ----- string escapes -----

  lemma {:induction false} HexDigitInjective(m: nat, n: nat)
    requires m < 16 && n < 16 && HexDigit(m) == HexDigit(n)
    ensures m == n
  {
  }

  lemma {:induction false} Hex4Injective(m: nat, n: nat)
    requires m < 0x10000 && n < 0x10000 && Hex4(m) == Hex4(n)
    ensures m == n
  {
    assert Hex4(m)[0] == Hex4(n)[0] && Hex4(m)[1] == Hex4(n)[1] && Hex4(m)[2] == Hex4(n)[2] && Hex4(m)[3] == Hex4(n)[3];
    HexDigitInjective(m / 16 / 16 / 16, n / 16 / 16 / 16);
    HexDigitInjective(m / 16 / 16 % 16, n / 16 / 16 % 16);
    HexDigitInjective(m / 16 % 16, n / 16 % 16);
    HexDigitInjective(m % 16, n % 16);
  }

  predicate HighSurrogate(n: nat) {
    0xd800 <= n < 0xdc00
  }

  /** One unit stands for itself and is no surrogate; two units are a surrogate pair that gives the scalar back. */
  lemma {:induction false} UnitsDecode(c: char)
    ensures var u := Units(c);
            if |u| == 1 then u[0] == c as int && !HighSurrogate(u[0])
            else HighSurrogate(u[0]) && c as int == 0x10000 + (u[0] - 0xd800) * 0x400 + (u[1] - 0xdc00)
  {
  }

  lemma {:induction false} UnitEscapeUnique(m: nat, x: string, n: nat, y: string)
    requires m < 0x10000 && n < 0x10000
    requires UnitEscape(m) + x == UnitEscape(n) + y
    ensures m == n && x == y
  {
    var s := UnitEscape(m) + x;
    assert s[2..6] == Hex4(m) && s[6..] == x;
    assert s == UnitEscape(n) + y && s[2..6] == Hex4(n) && s[6..] == y;
    Hex4Injective(m, n);
  }

  lemma {:induction false} SplitUnits(c: char, x: string)
    ensures var u := Units(c);
            UnicodeEscape(c) + x == UnitEscape(u[0]) + (if |u| == 1 then x else UnitEscape(u[1]) + x)
  {
    var u := Units(c);
    if |u| == 2 {
      assert (UnitEscape(u[0]) + UnitEscape(u[1])) + x == UnitEscape(u[0]) + (UnitEscape(u[1]) + x);
    }
  }

  lemma {:induction false} UnicodeEscapeUnique(c: char, x: string, d: char, y: string)
    requires UnicodeEscape(c) + x == UnicodeEscape(d) + y
    ensures c == d && x == y
  {
    hide UnitEscape, Units, UnicodeEscape;
    var u, v := Units(c), Units(d);
    SplitUnits(c, x);
    SplitUnits(d, y);
    UnitsDecode(c);
    UnitsDecode(d);
    UnitEscapeUnique(u[0], if |u| == 1 then x else UnitEscape(u[1]) + x, v[0], if |v| == 1 then y else UnitEscape(v[1]) + y);
    assert |u| == |v|;
    if |u| == 2 {
      UnitEscapeUnique(u[1], x, v[1], y);
    }
  }

  datatype Style = Short | Plain | Unicode

  function StyleOf(c: char): Style {
    if ShortEscape(c).Some? then Short else if 0x20 <= c as int <= 0x7f then Plain else Unicode
  }

  /** The first two characters of an escape tell which kind it is. */
  lemma {:induction false} EscapeStyle(c: char)
    ensures var s := EscapeChar(c);
            match StyleOf(c)
            case Short => |s| == 2 && s[0] == '\\' && s[1] != 'u' && Some(s[1]) == ShortEscape(c)
            case Plain => s == [c] && c != '\\' && c != '"'
            case Unicode => |s| >= 6 && s[0] == '\\' && s[1] == 'u' && s == UnicodeEscape(c)
    ensures EscapeChar(c)[0] != '"'
  {
  }

  lemma {:induction false} ShortEscapeInjective(c: char, d: char)
    requires ShortEscape(c).Some? && ShortEscape(c) == ShortEscape(d)
    ensures c == d
  {
  }

  lemma {:induction false} SameStyle(c: char, x: string, d: char, y: string)
    requires EscapeChar(c) + x == EscapeChar(d) + y
    ensures StyleOf(c) == StyleOf(d)
  {
    var s := EscapeChar(c) + x;
    EscapeStyle(c);
    EscapeStyle(d);
    assert s[0] == EscapeChar(c)[0] == EscapeChar(d)[0];
    if !StyleOf(c).Plain? && !StyleOf(d).Plain? {
      assert s[1] == EscapeChar(c)[1];
      assert s == EscapeChar(d) + y && s[1] == EscapeChar(d)[1];
    }
  }

  /** The escapes of characters form a prefix-free code. */
  lemma {:induction false} EscapeUnique(c: char, x: string, d: char, y: string)
    requires EscapeChar(c) + x == EscapeChar(d) + y
    ensures c == d && x == y
  {
    var s := EscapeChar(c) + x;
    SameStyle(c, x, d, y);
    EscapeStyle(c);
    EscapeStyle(d);
    match StyleOf(c) {
      case Short =>
        assert s[1] == EscapeChar(c)[1] && s[2..] == x;
        assert s == EscapeChar(d) + y && s[1] == EscapeChar(d)[1] && s[2..] == y;
        ShortEscapeInjective(c, d);
      case Plain =>
        assert s[0] == c && s[1..] == x;
        assert s == EscapeChar(d) + y && s[0] == d && s[1..] == y;
      case Unicode =>
        UnicodeEscapeUnique(c, x, d, y);
    }
  }

  lemma {:induction false} EscapeHead(s: string, r: string)
    ensures s == "" ==> Escape(s) + "\"" + r == "\"" + r
    ensures s != "" ==> Escape(s) + "\"" + r == EscapeChar(s[0]) + (Escape(s[1..]) + "\"" + r)
    ensures s != "" ==> (Escape(s) + "\"" + r)[0] != '"'
  {
    if s != "" {
      EscapeStyle(s[0]);
      assert (EscapeChar(s[0]) + Escape(s[1..])) + "\"" + r == EscapeChar(s[0]) + (Escape(s[1..]) + "\"" + r);
    }
  }

  /** A string's text ends at its closing quote, wherever it stands. */
  lemma {:induction false} StringBodyUnique(a: string, r: string, b: string, s: string)
    requires Escape(a) + "\"" + r == Escape(b) + "\"" + s
    ensures a == b && r == s
    decreases |a|
  {
    EscapeHead(a, r);
    EscapeHead(b, s);
    if a == "" || b == "" {
      assert ("\"" + r)[1..] == r && ("\"" + s)[1..] == s;
    } else {
      EscapeUnique(a[0], Escape(a[1..]) + "\"" + r, b[0], Escape(b[1..]) + "\"" + s);
      StringBodyUnique(a[1..], r, b[1..], s);
      assert a == [a[0]] + a[1..] && b == [b[0]] + b[1..];
    }
  }

  lemma {:induction false} JsonStringUnique(a: string, r: string, b: string, s: string)
    requires JsonString(a) + r == JsonString(b) + s
    ensures a == b && r == s
  {
    var x, y := Escape(a) + "\"" + r, Escape(b) + "\"" + s;
    assert JsonString(a) + r == "\"" + x;
    assert JsonString(b) + s == "\"" + y;
    assert ("\"" + x)[1..] == x && ("\"" + y)[1..] == y;
    StringBodyUnique(a, r, b, s);
  }

  // ----- values -----

  /** What may follow a value inside a document. */
  predicate Ends(r: string) {
    r == "" || r[0] == ',' || r[0] == ']' || r[0] == '}'
  }

  lemma {:induction false} TokenReaches(t: string, r: string, u: string, s: string)
    requires NumberToken(u) && Ends(r) && t + r == u + s
    ensures |u| <= |t|
  {
    var all := t + r;
    forall i | 0 <= i < |u| ensures NumberChar(all[i]) {
      assert all == u + s;
      assert all[i] == u[i];
    }
    assert r != "" ==> all[|t|] == r[0] && !NumberChar(all[|t|]);
  }

  /** A number has no closing mark of its own: it ends where number characters end. */
  lemma {:induction false} TokenUnique(t: string, r: string, u: string, s: string)
    requires NumberToken(t) && NumberToken(u) && Ends(r) && Ends(s)
    requires t + r == u + s
    ensures t == u && r == s
  {
    TokenReaches(t, r, u, s);
    TokenReaches(u, s, t, r);
    assert (t + r)[..|t|] == t && (t + r)[|t|..] == r;
    assert (u + s)[..|u|] == u && (u + s)[|u|..] == s;
  }

  datatype Shape = NullShape | BoolShape | NumShape | StrShape | ArrShape | ObjShape

  function ShapeOf(v: Json): Shape {
    match v
    case Null => NullShape
    case Bool(_) => BoolShape
    case Num(_) => NumShape
    case Str(_) => StrShape
    case Arr(_) => ArrShape
    case Obj(_) => ObjShape
  }

  /** The kind of value that starts with this character. */
  function ShapeOfChar(c: char): Option<Shape> {
    if c == 'n' then Some(NullShape)
    else if c == 't' || c == 'f' then Some(BoolShape)
    else if IsDigit(c) || c == '-' then Some(NumShape)
    else if c == '"' then Some(StrShape)
    else if c == '[' then Some(ArrShape)
    else if c == '{' then Some(ObjShape)
    else None
  }

  lemma {:induction false} FirstChar(v: Json)
    requires WellFormed(v)
    ensures Canonical(v) != "" && ShapeOfChar(Canonical(v)[0]) == Some(ShapeOf(v))
  {
    match v
    case Bool(b) => assert b ==> Canonical(v)[0] == 't';
    case _ =>
  }

  lemma {:induction false} SameShape(v: Json, r: string, w: Json, s: string)
    requires WellFormed(v) && WellFormed(w) && Canonical(v) + r == Canonical(w) + s
    ensures ShapeOf(v) == ShapeOf(w)
  {
    FirstChar(v);
    FirstChar(w);
    assert (Canonical(v) + r)[0] == Canonical(v)[0];
    assert (Canonical(w) + s)[0] == Canonical(w)[0];
  }

  lemma {:induction false} BoolUnique(a: bool, r: string, b: bool, s: string)
    requires Canonical(Bool(a)) + r == Canonical(Bool(b)) + s
    ensures a == b && r == s
  {
    var x, y := Canonical(Bool(a)), Canonical(Bool(b));
    assert (x + r)[0] == x[0] && (y + s)[0] == y[0];
    assert a == b;
    assert (x + r)[|x|..] == r && (y + s)[|y|..] == s;
  }

  lemma {:induction false} Cancel(head: string, x: string, y: string)
    requires head + x == head + y
    ensures x == y
  {
    assert (head + x)[|head|..] == x && (head + y)[|head|..] == y;
  }

  lemma {:induction false} ItemsStep(v: Json, i: nat, tail: string)
    requires v.Arr? && i < |v.items|
    ensures Items(v, i) + "]" + tail == Comma(i) + (Canonical(v.items[i]) + (Items(v, i + 1) + "]" + tail))
  {
  }

  lemma {:induction false} ItemsEnd(v: Json, i: nat, tail: string)
    requires v.Arr? && i <= |v.items| && i > 0
    ensures Ends(Items(v, i) + "]" + tail)
    ensures i < |v.items| <==> (Items(v, i) + "]" + tail)[0] == ','
  {
    if i < |v.items| {
      ItemsStep(v, i, tail);
    }
  }

  lemma {:induction false} MembersStep(v: Json, keys: seq<string>, i: nat, tail: string)
    requires v.Obj? && i < |keys| && keys[i] in v.fields
    ensures Members(v, keys, i) + "}" + tail ==
            Comma(i) + (JsonString(keys[i]) + (":" + (Canonical(v.fields[keys[i]]) + (Members(v, keys, i + 1) + "}" + tail))))
  {
    var a, b, c, d := Comma(i), JsonString(keys[i]), Canonical(v.fields[keys[i]]), Members(v, keys, i + 1);
    assert a + b + ":" + c + d + "}" + tail == a + (b + (":" + (c + (d + "}" + tail))));
  }

  lemma {:induction false} MembersEnd(v: Json, keys: seq<string>, i: nat, tail: string)
    requires v.Obj? && i <= |keys| && i > 0 && forall k :: k in keys ==> k in v.fields
    ensures Ends(Members(v, keys, i) + "}" + tail)
    ensures i < |keys| <==> (Members(v, keys, i) + "}" + tail)[0] == ','
  {
    if i < |keys| {
      assert keys[i] in keys;
      MembersStep(v, keys, i, tail);
    }
  }

  /** Whether a list goes on is visible in its next character. */
  lemma {:induction false} ItemsAgree(v: Json, r: string, w: Json, s: string, i: nat)
    requires v.Arr? && w.Arr? && WellFormed(v) && WellFormed(w) && i <= |v.items| && i <= |w.items|
    requires Items(v, i) + "]" + r == Items(w, i) + "]" + s
    ensures i < |v.items| <==> i < |w.items|
  {
    if i > 0 {
      ItemsEnd(v, i, r);
      ItemsEnd(w, i, s);
    } else {
      if v.items != [] {
        ItemsStep(v, 0, r);
        FirstChar(v.items[0]);
        assert (Items(v, 0) + "]" + r)[0] == Canonical(v.items[0])[0];
      }
      if w.items != [] {
        ItemsStep(w, 0, s);
        FirstChar(w.items[0]);
        assert (Items(w, 0) + "]" + s)[0] == Canonical(w.items[0])[0];
      }
    }
  }

  lemma {:induction false} ItemsUnique(v: Json, r: string, w: Json, s: string, i: nat)
    requires v.Arr? && w.Arr? && WellFormed(v) && WellFormed(w) && i <= |v.items| && i <= |w.items|
    requires Items(v, i) + "]" + r == Items(w, i) + "]" + s
    ensures v.items[i..] == w.items[i..] && r == s
    decreases v, |v.items| - i
  {
    ItemsAgree(v, r, w, s, i);
    if i < |v.items| {
      var x, y := Items(v, i + 1) + "]" + r, Items(w, i + 1) + "]" + s;
      ItemsStep(v, i, r);
      ItemsStep(w, i, s);
      Cancel(Comma(i), Canonical(v.items[i]) + x, Canonical(w.items[i]) + y);
      ItemsEnd(v, i + 1, r);
      ItemsEnd(w, i + 1, s);
      Unique(v.items[i], x, w.items[i], y);
      ItemsUnique(v, r, w, s, i + 1);
      assert v.items[i..] == [v.items[i]] + v.items[i + 1..];
      assert w.items[i..] == [w.items[i]] + w.items[i + 1..];
    } else {
      assert Items(v, i) + "]" + r == "]" + r && Items(w, i) + "]" + s == "]" + s;
      Cancel("]", r, s);
    }
  }

  ghost predicate Lists(v: Json, keys: seq<string>) {
    v.Obj? && forall k :: k in keys ==> k in v.fields
  }

  lemma {:induction false} MembersAgree(v: Json, a: seq<string>, r: string, w: Json, b: seq<string>, s: string, i: nat)
    requires Lists(v, a) && Lists(w, b) && i <= |a| && i <= |b|
    requires Members(v, a, i) + "}" + r == Members(w, b, i) + "}" + s
    ensures i < |a| <==> i < |b|
  {
    if i > 0 {
      MembersEnd(v, a, i, r);
      MembersEnd(w, b, i, s);
    } else {
      if a != [] {
        assert a[0] in a;
        MembersStep(v, a, 0, r);
        assert (Members(v, a, 0) + "}" + r)[0] == '"';
      }
      if b != [] {
        assert b[0] in b;
        MembersStep(w, b, 0, s);
        assert (Members(w, b, 0) + "}" + s)[0] == '"';
      }
    }
  }

  ghost predicate SameFrom(v: Json, a: seq<string>, w: Json, b: seq<string>, i: nat)
    requires Lists(v, a) && Lists(w, b)
  {
    |a| == |b| && forall j :: i <= j < |a| ==> a[j] == b[j] && a[j] in a && b[j] in b && v.fields[a[j]] == w.fields[b[j]]
  }

  /** At the same position both objects hold the same key. */
  lemma {:induction false} MembersPeel(v: Json, a: seq<string>, r: string, w: Json, b: seq<string>, s: string, i: nat)
    requires Lists(v, a) && Lists(w, b) && i < |a| && i < |b| && a[i] in v.fields && b[i] in w.fields
    requires Members(v, a, i) + "}" + r == Members(w, b, i) + "}" + s
    ensures a[i] == b[i]
    ensures Canonical(v.fields[a[i]]) + (Members(v, a, i + 1) + "}" + r)
         == Canonical(w.fields[b[i]]) + (Members(w, b, i + 1) + "}" + s)
    ensures Ends(Members(v, a, i + 1) + "}" + r) && Ends(Members(w, b, i + 1) + "}" + s)
  {
    MembersEnd(v, a, i + 1, r);
    MembersEnd(w, b, i + 1, s);
    MembersStep(v, a, i, r);
    MembersStep(w, b, i, s);
    var p := Canonical(v.fields[a[i]]) + (Members(v, a, i + 1) + "}" + r);
    var q := Canonical(w.fields[b[i]]) + (Members(w, b, i + 1) + "}" + s);
    Cancel(Comma(i), JsonString(a[i]) + (":" + p), JsonString(b[i]) + (":" + q));
    JsonStringUnique(a[i], ":" + p, b[i], ":" + q);
    Cancel(":", p, q);
  }

  lemma {:induction false} MembersUnique(v: Json, a: seq<string>, r: string, w: Json, b: seq<string>, s: string, i: nat)
    requires Lists(v, a) && Lists(w, b) && WellFormed(v) && WellFormed(w) && i <= |a| && i <= |b|
    requires Members(v, a, i) + "}" + r == Members(w, b, i) + "}" + s
    ensures SameFrom(v, a, w, b, i) && r == s
    decreases v, |a| - i
  {
    MembersAgree(v, a, r, w, b, s, i);
    if i < |a| {
      assert a[i] in a && b[i] in b;
      var x, y := Members(v, a, i + 1) + "}" + r, Members(w, b, i + 1) + "}" + s;
      MembersPeel(v, a, r, w, b, s, i);
      Unique(v.fields[a[i]], x, w.fields[b[i]], y);
      MembersUnique(v, a, r, w, b, s, i + 1);
    } else {
      assert Members(v, a, i) + "}" + r == "}" + r && Members(w, b, i) + "}" + s == "}" + s;
      Cancel("}", r, s);
    }
  }

  lemma {:induction false} Open(open: string, body: string, close: string, r: string)
    ensures open + body + close + r == open + (body + close + r)
  {
  }

  /** Two texts that agree hold the same value and leave the same rest, wherever the values stand in a document. */
  lemma {:induction false} Unique(v: Json, r: string, w: Json, s: string)
    requires WellFormed(v) && WellFormed(w) && Ends(r) && Ends(s)
    requires Canonical(v) + r == Canonical(w) + s
    ensures v == w && r == s
    decreases v
  {
    SameShape(v, r, w, s);
    match v
    case Null => Cancel("null", r, s);
    case Bool(b) => BoolUnique(b, r, w.value, s);
    case Num(t) => TokenUnique(t, r, w.token, s);
    case Str(t) => JsonStringUnique(t, r, w.text, s);
    case Arr(_) =>
      Open("[", Items(v, 0), "]", r);
      Open("[", Items(w, 0), "]", s);
      Cancel("[", Items(v, 0) + "]" + r, Items(w, 0) + "]" + s);
      ItemsUnique(v, r, w, s, 0);
      assert v.items[0..] == v.items && w.items[0..] == w.items;
    case Obj(_) => ObjectUnique(v, r, w, s);
  }

  lemma {:induction false} ObjectUnique(v: Json, r: string, w: Json, s: string)
    requires v.Obj? && w.Obj? && WellFormed(v) && WellFormed(w)
    requires Canonical(v) + r == Canonical(w) + s
    ensures v == w && r == s
    decreases v, |SortedKeys(v.fields.Keys)| + 1
  {
    var a, b := SortedKeys(v.fields.Keys), SortedKeys(w.fields.Keys);
    SortedKeysHolds(v.fields.Keys);
    SortedKeysHolds(w.fields.Keys);
    Open("{", Members(v, a, 0), "}", r);
    Open("{", Members(w, b, 0), "}", s);
    Cancel("{", Members(v, a, 0) + "}" + r, Members(w, b, 0) + "}" + s);
    MembersUnique(v, a, r, w, b, s, 0);
    assert a == b;
    assert forall k :: k in v.fields <==> k in w.fields;
    assert v.fields == w.fields;
  }

  /** Equal canonical texts come from equal values. */
  lemma {:induction false} CanonicalInjective(v: Json, w: Json)
    requires WellFormed(v) && WellFormed(w) && Canonical(v) == Canonical(w)
    ensures v == w
  {
    assert Canonical(v) + "" == Canonical(v) && Canonical(w) + "" == Canonical(w);
    Unique(v, "", w, "");
  }

  // ----- authority digests -----

  /** The digest's preimage: the document without the field that holds the digest itself. */
  ghost function Preimage(fields: map<string, Json>, excluded: string): string {
    Canonical(Obj(fields - {excluded}))
  }

  method CanonicalDigest(document: Json, excluded: string, hash: string -> string) returns (r: Result<string, string>)
    ensures document.Obj? ==> r == Ok(hash(Preimage(document.fields, excluded)))
    ensures !document.Obj? ==> r.Err?
  {
    if !document.Obj? {
      return Err("canonical document must be an object");
    }
    var buffer := new Buffer();
    WriteCanonicalJson(buffer, Obj(document.fields - {excluded}));
    assert "" + Canonical(Obj(document.fields - {excluded})) == Canonical(Obj(document.fields - {excluded}));
    r := Ok(hash(buffer.text));
  }

  /** Two documents have one preimage exactly when they agree on every field but the excluded one. */
  lemma {:induction false} PreimageFixesFields(a: map<string, Json>, b: map<string, Json>, excluded: string)
    requires WellFormed(Obj(a)) && WellFormed(Obj(b))
    ensures Preimage(a, excluded) == Preimage(b, excluded) <==>
            forall k :: k != excluded ==> (k in a <==> k in b) && (k in a ==> a[k] == b[k])
  {
    var x, y := a - {excluded}, b - {excluded};
    if forall k :: k != excluded ==> (k in a <==> k in b) && (k in a ==> a[k] == b[k]) {
      assert x == y;
    }
    if Preimage(a, excluded) == Preimage(b, excluded) {
      CanonicalInjective(Obj(x), Obj(y));
      forall k | k != excluded ensures (k in a <==> k in b) && (k in a ==> a[k] == b[k]) {
        assert k in a <==> k in x;
        assert k in b <==> k in y;
      }
    }
  }
}
