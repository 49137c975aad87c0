/** `canonicalJson`, the encoding whose hash identifies a payload, and a decoder that inverts it.
    A text is a sequence of UTF-16 code units, as in JavaScript. */
module CanonicalJson {
  import opened Common

  type Unit = nat
  type Text = seq<Unit>

  datatype Json =
    | Null
    | Bool(b: bool)
    | Num(n: int)
    | Str(s: Text)
    | Arr(items: seq<Json>)
    | Obj(members: seq<Member>)

  /** The members of an object in insertion order. */
  datatype Member = Member(key: Text, value: Json)

  const QUOTE: Unit := 34
  const COMMA: Unit := 44
  const MINUS: Unit := 45
  const COLON: Unit := 58
  const LBRACKET: Unit := 91
  const BACKSLASH: Unit := 92
  const RBRACKET: Unit := 93
  const LBRACE: Unit := 123
  const RBRACE: Unit := 125
  const NULL_TEXT: Text := [110, 117, 108, 108]
  const TRUE_TEXT: Text := [116, 114, 117, 101]
  const FALSE_TEXT: Text := [102, 97, 108, 115, 101]

  // ----- strings: JSON.stringify of a string -----

  predicate IsLead(u: Unit) { 0xD800 <= u < 0xDC00 }

  predicate IsTrail(u: Unit) { 0xDC00 <= u < 0xE000 }

  function HexDigit(n: nat): Unit
    requires n < 16
  {
    if n < 10 then 48 + n else 87 + n
  }

  function HexValue(u: Unit): (n: nat)
    ensures n <= 16
  {
    if 48 <= u <= 57 then u - 48 else if 97 <= u <= 102 then u - 87 else 16
  }

  /** The letter after the backslash of a two-character escape. */
  function ShortEscape(u: Unit): Option<Unit> {
    if u == 8 then Some(98) else if u == 9 then Some(116) else if u == 10 then Some(110)
    else if u == 12 then Some(102) else if u == 13 then Some(114)
    else if u == QUOTE || u == BACKSLASH then Some(u) else None
  }

  function EscapeUnit(u: Unit): (t: Text)
    ensures |t| > 0
  {
    if ShortEscape(u).Some? then [BACKSLASH, ShortEscape(u).value]
    else if u < 32 || IsLead(u) || IsTrail(u) then
      [BACKSLASH, 117, HexDigit(u / 4096), HexDigit(u / 256 % 16), HexDigit(u / 16 % 16), HexDigit(u % 16)]
    else [u]
  }

  /** A surrogate pair stays; a surrogate on its own is escaped. */
  function Escape(s: Text): Text {
    if s == [] then []
    else if |s| >= 2 && IsLead(s[0]) && IsTrail(s[1]) then [s[0], s[1]] + Escape(s[2..])
    else EscapeUnit(s[0]) + Escape(s[1..])
  }

  function Quoted(s: Text): Text {
    [QUOTE] + Escape(s) + [QUOTE]
  }

  /** The first character of escaped text and what follows it; `Some(None)` is the closing quote. */
  function UnescapeUnit(t: Text): (r: Option<(Option<Unit>, Text)>)
    ensures r.Some? ==> |r.value.1| < |t|
  {
    if t == [] then None
    else if t[0] == QUOTE then Some((Option.None, t[1..]))
    else if t[0] != BACKSLASH then Some((Some(t[0]), t[1..]))
    else if |t| < 2 then None
    else if t[1] == 117 then
      if |t| < 6 then None
      else
        var (a, b, c, d) := (HexValue(t[2]), HexValue(t[3]), HexValue(t[4]), HexValue(t[5]));
        if a < 16 && b < 16 && c < 16 && d < 16 then Some((Some(((a * 16 + b) * 16 + c) * 16 + d), t[6..]))
        else None
    else if t[1] == 98 then Some((Some(8), t[2..]))
    else if t[1] == 116 then Some((Some(9), t[2..]))
    else if t[1] == 110 then Some((Some(10), t[2..]))
    else if t[1] == 102 then Some((Some(12), t[2..]))
    else if t[1] == 114 then Some((Some(13), t[2..]))
    else if t[1] == QUOTE || t[1] == BACKSLASH || t[1] == 47 then Some((Some(t[1]), t[2..]))
    else None
  }

  /** The string up to its closing quote. */
  function Unescape(t: Text): (r: Option<(Text, Text)>)
    ensures r.Some? ==> |r.value.1| < |t|
    decreases |t|
  {
    match UnescapeUnit(t)
    case None => None
    case Some((None, rest)) => Some(([], rest))
    case Some((Some(u), rest)) =>
      match Unescape(rest)
      case None => None
      case Some((s, rest')) => Some(([u] + s, rest'))
  }

  lemma UnescapeUnitInverts(u: Unit, rest: Text)
    ensures UnescapeUnit(EscapeUnit(u) + rest) == Some((Some(u), rest))
  {
    if ShortEscape(u).None? && (u < 32 || IsLead(u) || IsTrail(u)) {
      var (a, b, c, d) := (u / 4096, u / 256 % 16, u / 16 % 16, u % 16);
      HexPlaces(u);
      HexEscapeInverts(a, b, c, d, rest);
    } else {
      assert (EscapeUnit(u) + rest)[|EscapeUnit(u)|..] == rest;
    }
  }

  lemma HexEscapeInverts(a: nat, b: nat, c: nat, d: nat, rest: Text)
    requires a < 16 && b < 16 && c < 16 && d < 16
    ensures UnescapeUnit([BACKSLASH, 117, HexDigit(a), HexDigit(b), HexDigit(c), HexDigit(d)] + rest)
            == Some((Some(((a * 16 + b) * 16 + c) * 16 + d), rest))
  {
    var t := [BACKSLASH, 117, HexDigit(a), HexDigit(b), HexDigit(c), HexDigit(d)] + rest;
    assert t[6..] == rest;
    HexInverts(a);
    HexInverts(b);
    HexInverts(c);
    HexInverts(d);
  }

  lemma HexPlaces(u: nat)
    ensures ((u / 4096 * 16 + u / 256 % 16) * 16 + u / 16 % 16) * 16 + u % 16 == u
  {
    var (q, p, o) := (u / 16, u / 256, u / 4096);
    assert q / 16 == p && p / 16 == o;
    assert p == o * 16 + p % 16 && q == p * 16 + q % 16;
  }

  lemma HexInverts(n: nat)
    requires n < 16
    ensures HexValue(HexDigit(n)) == n
  {
  }

  lemma UnescapeStep(t: Text, u: Unit, more: Text, s: Text, rest: Text)
    requires UnescapeUnit(t) == Some((Some(u), more)) && Unescape(more) == Some((s, rest))
    ensures Unescape(t) == Some(([u] + s, rest))
  {
  }

  lemma UnescapeRaw(u: Unit, more: Text)
    requires IsLead(u) || IsTrail(u)
    ensures UnescapeUnit([u] + more) == Some((Some(u), more))
  {
    assert ([u] + more)[1..] == more;
  }

  lemma {:induction false} UnescapeInverts(s: Text, rest: Text)
    ensures Unescape(Escape(s) + [QUOTE] + rest) == Some((s, rest))
    decreases |s|
  {
    hide Unescape, UnescapeUnit, EscapeUnit;
    if s == [] {
      UnescapeEnd(rest);
      assert Escape(s) + [QUOTE] + rest == [QUOTE] + rest;
    } else if |s| >= 2 && IsLead(s[0]) && IsTrail(s[1]) {
      var more := Escape(s[2..]) + [QUOTE] + rest;
      UnescapeInverts(s[2..], rest);
      UnescapeRaw(s[1], more);
      UnescapeStep([s[1]] + more, s[1], more, s[2..], rest);
      UnescapeRaw(s[0], [s[1]] + more);
      UnescapeStep([s[0]] + ([s[1]] + more), s[0], [s[1]] + more, [s[1]] + s[2..], rest);
      assert Escape(s) + [QUOTE] + rest == [s[0]] + ([s[1]] + more);
      assert [s[0]] + ([s[1]] + s[2..]) == s;
    } else {
      var more := Escape(s[1..]) + [QUOTE] + rest;
      UnescapeInverts(s[1..], rest);
      UnescapeUnitInverts(s[0], more);
      UnescapeStep(EscapeUnit(s[0]) + more, s[0], more, s[1..], rest);
      assert Escape(s) + [QUOTE] + rest == EscapeUnit(s[0]) + more;
      assert [s[0]] + s[1..] == s;
    }
  }

  lemma UnescapeEnd(rest: Text)
    ensures Unescape([QUOTE] + rest) == Some(([], rest))
  {
    assert ([QUOTE] + rest)[1..] == rest;
  }

  /** Text without control characters, in which surrogates occur in pairs only. */
  ghost predicate Plain(t: Text) {
    forall i :: 0 <= i < |t| ==> PlainAt(t, i)
  }

  ghost predicate PlainAt(t: Text, i: nat)
    requires i < |t|
  {
    && t[i] >= 32
    && (IsLead(t[i]) ==> i + 1 < |t| && IsTrail(t[i + 1]))
    && (IsTrail(t[i]) ==> i > 0 && IsLead(t[i - 1]))
  }

  lemma PlainAppend(a: Text, b: Text)
    requires Plain(a) && Plain(b)
    ensures Plain(a + b)
  {
    forall i | 0 <= i < |a + b| ensures PlainAt(a + b, i) {
      if i < |a| {
        assert PlainAt(a, i);
      } else {
        assert PlainAt(b, i - |a|);
      }
    }
  }

  /** Whatever a string holds, its escaped form can be written as UTF-8. */
  lemma {:induction false} EscapedIsPlain(s: Text)
    ensures Plain(Escape(s))
    decreases |s|
  {
    hide Plain, EscapeUnit;
    if s == [] {
      PlainUnits();
    } else if |s| >= 2 && IsLead(s[0]) && IsTrail(s[1]) {
      EscapedIsPlain(s[2..]);
      PlainPair(s[0], s[1]);
      PlainAppend([s[0], s[1]], Escape(s[2..]));
    } else {
      EscapedIsPlain(s[1..]);
      PlainUnit(s[0]);
      PlainAppend(EscapeUnit(s[0]), Escape(s[1..]));
    }
  }

  /** And text that is plain already, without quotes and backslashes, stays as it is. */
  lemma {:induction false} PlainStays(s: Text)
    requires Plain(s) && QUOTE !in s && BACKSLASH !in s
    ensures Escape(s) == s
    decreases |s|
  {
    hide Plain, EscapeUnit;
    if s != [] {
      PlainStart(s);
      if |s| >= 2 && IsLead(s[0]) && IsTrail(s[1]) {
        PlainTail(s, 2);
        PlainStays(s[2..]);
        assert s == [s[0], s[1]] + s[2..];
      } else {
        PlainTail(s, 1);
        PlainStays(s[1..]);
        assert s == [s[0]] + s[1..];
      }
    }
  }

  lemma PlainStart(s: Text)
    requires Plain(s) && s != [] && QUOTE !in s && BACKSLASH !in s
    ensures IsLead(s[0]) ==> |s| >= 2 && IsTrail(s[1])
    ensures !IsLead(s[0]) ==> EscapeUnit(s[0]) == [s[0]]
  {
    assert PlainAt(s, 0);
  }

  lemma PlainTail(s: Text, n: nat)
    requires Plain(s) && 0 < n <= |s| && !IsLead(s[n - 1])
    ensures Plain(s[n..])
  {
    forall i | 0 <= i < |s| - n ensures PlainAt(s[n..], i) {
      assert PlainAt(s, i + n);
      assert i > 0 ==> s[n..][i - 1] == s[i + n - 1];
    }
  }

  lemma PlainUnits()
    ensures Plain([])
  {
  }

  lemma PlainPair(u: Unit, v: Unit)
    requires IsLead(u) && IsTrail(v)
    ensures Plain([u, v])
  {
  }

  lemma PlainUnit(u: Unit)
    ensures Plain(EscapeUnit(u))
  {
    if ShortEscape(u).None? && (u < 32 || IsLead(u) || IsTrail(u)) {
      HexPlain(u / 4096);
    }
  }

  lemma HexPlain(n: nat)
    requires n < 16
    ensures 48 <= HexDigit(n) <= 102
  {
  }

  // ----- integers -----

  function Digits(n: nat): (t: Text)
    ensures |t| > 0 && forall i :: 0 <= i < |t| ==> IsDigit(t[i])
  {
    if n < 10 then [48 + n] else Digits(n / 10) + [48 + n % 10]
  }

  predicate IsDigit(u: Unit) { 48 <= u <= 57 }

  function Decimal(n: int): Text {
    if n < 0 then [MINUS] + Digits(-n) else Digits(n)
  }

  function DigitRun(t: Text): (k: nat)
    ensures k <= |t| && forall i :: 0 <= i < k ==> IsDigit(t[i])
  {
    if t != [] && IsDigit(t[0]) then 1 + DigitRun(t[1..]) else 0
  }

  function DigitsValue(t: Text): nat
    requires forall i :: 0 <= i < |t| ==> IsDigit(t[i])
  {
    if t == [] then 0 else assert IsDigit(t[|t| - 1]); DigitsValue(t[..|t| - 1]) * 10 + t[|t| - 1] - 48
  }

  function DecodeNat(t: Text): (r: Option<(nat, Text)>)
    ensures r.Some? ==> |r.value.1| < |t|
  {
    var k := DigitRun(t);
    if k == 0 then None else Some((DigitsValue(t[..k]), t[k..]))
  }

  function DecodeNumber(t: Text): (r: Option<(Json, Text)>)
    ensures r.Some? ==> |r.value.1| < |t|
  {
    if t != [] && t[0] == MINUS then
      match DecodeNat(t[1..]) case None => None case Some((n, rest)) => Some((Num(0 - n), rest))
    else match DecodeNat(t) case None => None case Some((n, rest)) => Some((Num(n), rest))
  }

  /** Numbers have no leading zeros. */
  lemma {:induction false} NoLeadingZero(n: nat)
    ensures Digits(n)[0] == 48 ==> n == 0 && |Digits(n)| == 1
  {
    if n >= 10 {
      NoLeadingZero(n / 10);
      assert Digits(n)[0] == Digits(n / 10)[0];
    }
  }

  lemma {:induction false} DigitsValueInverts(n: nat)
    ensures DigitsValue(Digits(n)) == n
  {
    if n >= 10 {
      DigitsValueInverts(n / 10);
      assert Digits(n)[..|Digits(n)| - 1] == Digits(n / 10);
    }
  }

  lemma {:induction false} DigitRunStops(t: Text, rest: Text)
    requires (forall i :: 0 <= i < |t| ==> IsDigit(t[i])) && (rest == [] || !IsDigit(rest[0]))
    ensures DigitRun(t + rest) == |t|
  {
    if t == [] {
      assert t + rest == rest;
    } else {
      assert (t + rest)[1..] == t[1..] + rest;
      DigitRunStops(t[1..], rest);
    }
  }

  lemma DecodeNatInverts(n: nat, rest: Text)
    requires rest == [] || !IsDigit(rest[0])
    ensures DecodeNat(Digits(n) + rest) == Some((n, rest))
  {
    DigitRunStops(Digits(n), rest);
    DigitsValueInverts(n);
    assert (Digits(n) + rest)[..|Digits(n)|] == Digits(n);
    assert (Digits(n) + rest)[|Digits(n)|..] == rest;
  }

  lemma DecodeNumberInverts(n: int, rest: Text)
    requires rest == [] || !IsDigit(rest[0])
    ensures DecodeNumber(Decimal(n) + rest) == Some((Num(n), rest))
  {
    hide Digits, DecodeNat;
    if n < 0 {
      DecodeNatInverts(-n, rest);
      assert (Decimal(n) + rest)[1..] == Digits(-n) + rest;
    } else {
      DecodeNatInverts(n, rest);
      assert (Digits(n) + rest)[0] == Digits(n)[0];
    }
  }

  // ----- key order -----

  /** The order of `Array.prototype.sort` on strings: by code units. */
  predicate Less(a: Text, b: Text) {
    if b == [] then false
    else if a == [] then true
    else a[0] < b[0] || (a[0] == b[0] && Less(a[1..], b[1..]))
  }

  /** Ascending by code units: a proper prefix, or a smaller unit at the first place where they differ. */
  ghost predicate Ascending(a: Text, b: Text) {
    || (|a| < |b| && a == b[..|a|])
    || exists i :: 0 <= i < |a| && i < |b| && a[i] < b[i] && forall j :: 0 <= j < i ==> a[j] == b[j]
  }

  lemma {:induction false} LessIsAscending(a: Text, b: Text)
    requires Less(a, b)
    ensures Ascending(a, b)
  {
    if a != [] && a[0] == b[0] {
      LessIsAscending(a[1..], b[1..]);
      if |a| < |b| && a[1..] == b[1..][..|a| - 1] {
        assert a == [a[0]] + a[1..] && b[..|a|] == [b[0]] + b[1..][..|a| - 1];
      } else {
        var i :| 0 <= i < |a| - 1 && i < |b| - 1 && a[1..][i] < b[1..][i]
                 && forall j :: 0 <= j < i ==> a[1..][j] == b[1..][j];
        assert a[i + 1] < b[i + 1];
        forall j | 0 <= j < i + 1 ensures a[j] == b[j] {
          if j > 0 {
            assert a[1..][j - 1] == b[1..][j - 1];
          }
        }
      }
    }
  }

  lemma {:induction false} LessIsIrreflexive(a: Text)
    ensures !Less(a, a)
  {
    if a != [] {
      LessIsIrreflexive(a[1..]);
    }
  }

  lemma {:induction false} LessIsTotal(a: Text, b: Text)
    ensures a == b || Less(a, b) || Less(b, a)
    ensures !(Less(a, b) && Less(b, a)) && !Less(a, a)
    decreases |a| + |b|
  {
    if a != [] {
      LessIsIrreflexive(a);
      if b != [] && a[0] == b[0] {
        LessIsTotal(a[1..], b[1..]);
        assert a == [a[0]] + a[1..] && b == [b[0]] + b[1..];
      }
    }
  }

  lemma {:induction false} LessIsTransitive(a: Text, b: Text, c: Text)
    requires Less(a, b) && Less(b, c)
    ensures Less(a, c)
  {
    if a != [] && a[0] == b[0] && b[0] == c[0] {
      LessIsTransitive(a[1..], b[1..], c[1..]);
    }
  }

  ghost predicate Sorted(keys: seq<Text>) {
    forall i, j :: 0 <= i < j < |keys| ==> Less(keys[i], keys[j])
  }

  function InsertKey(k: Text, keys: seq<Text>): (r: seq<Text>)
    ensures forall x :: x in r <==> x == k || x in keys
    ensures |r| == |keys| + 1
  {
    if keys == [] || Less(k, keys[0]) then [k] + keys else [keys[0]] + InsertKey(k, keys[1..])
  }

  lemma {:induction false} InsertKeySorted(k: Text, keys: seq<Text>)
    requires Sorted(keys) && k !in keys
    ensures Sorted(InsertKey(k, keys))
  {
    if keys != [] {
      LessIsTotal(k, keys[0]);
      if Less(k, keys[0]) {
        forall j | 0 < j < |keys| ensures Less(k, keys[j]) {
          LessIsTransitive(k, keys[0], keys[j]);
        }
      } else {
        InsertKeySorted(k, keys[1..]);
        var r := InsertKey(k, keys[1..]);
        forall j | 0 <= j < |r| ensures Less(keys[0], r[j]) {
          assert r[j] in r;
        }
      }
    }
  }

  function KeysOf(members: seq<Member>): (keys: set<Text>) {
    set m | m in members :: m.key
  }

  ghost predicate DistinctKeys(members: seq<Member>) {
    forall i, j :: 0 <= i < j < |members| ==> members[i].key != members[j].key
  }

  /** `Object.keys(value).sort()`. */
  function SortedKeys(members: seq<Member>): (keys: seq<Text>)
    ensures forall k :: k in keys <==> k in KeysOf(members)
  {
    if members == [] then []
    else
      assert members == [members[0]] + members[1..];
      InsertKey(members[0].key, SortedKeys(members[1..]))
  }

  lemma {:induction false} SortedKeysSorted(members: seq<Member>)
    requires DistinctKeys(members)
    ensures Sorted(SortedKeys(members))
  {
    if members != [] {
      SortedKeysSorted(members[1..]);
      InsertKeySorted(members[0].key, SortedKeys(members[1..]));
    }
  }

  lemma {:induction false} SortedUnique(a: seq<Text>, b: seq<Text>)
    requires Sorted(a) && Sorted(b) && forall k :: k in a <==> k in b
    ensures a == b
  {
    assert a != [] ==> a[0] in b;
    assert b != [] ==> b[0] in a;
    if a != [] {
      LessIsTotal(a[0], b[0]);
      assert a[0] == b[0];
      LessIsTotal(a[0], a[0]);
      forall k ensures k in a[1..] <==> k in b[1..] {
        assert k in a <==> k == a[0] || k in a[1..];
        assert k in b <==> k == b[0] || k in b[1..];
      }
      SortedUnique(a[1..], b[1..]);
    }
  }

  function IndexOf(members: seq<Member>, k: Text): (i: nat)
    requires k in KeysOf(members)
    ensures i < |members| && members[i].key == k
  {
    if members[0].key == k then 0
    else
      assert members == [members[0]] + members[1..];
      1 + IndexOf(members[1..], k)
  }

  // ----- the encoder -----

  function Encode(v: Json): Text
    decreases v, 0
  {
    match v
    case Null => NULL_TEXT
    case Bool(b) => if b then TRUE_TEXT else FALSE_TEXT
    case Num(n) => Decimal(n)
    case Str(s) => Quoted(s)
    case Arr(items) => [LBRACKET] + EncodeItems(items) + [RBRACKET]
    case Obj(members) => [LBRACE] + EncodeMembers(members, SortedKeys(members)) + [RBRACE]
  }

  function EncodeItems(items: seq<Json>): Text
    decreases items, 0
  {
    if items == [] then []
    else if |items| == 1 then Encode(items[0])
    else Encode(items[0]) + [COMMA] + EncodeItems(items[1..])
  }

  function EncodeMembers(members: seq<Member>, keys: seq<Text>): Text
    requires forall k <- keys :: k in KeysOf(members)
    decreases members, |keys|
  {
    if keys == [] then []
    else
      var first := Quoted(keys[0]) + [COLON] + Encode(members[IndexOf(members, keys[0])].value);
      if |keys| == 1 then first else first + [COMMA] + EncodeMembers(members, keys[1..])
  }

  // ----- the decoder -----

  function DecodeWord(t: Text, word: Text, v: Json): (r: Option<(Json, Text)>)
    requires |word| > 0
    ensures r.Some? ==> |r.value.1| < |t|
  {
    if word <= t then Some((v, t[|word|..])) else None
  }

  function DecodeValue(t: Text): (r: Option<(Json, Text)>)
    ensures r.Some? ==> |r.value.1| < |t|
    decreases |t|, 1
  {
    if t == [] then None
    else if t[0] == 110 then DecodeWord(t, NULL_TEXT, Null)
    else if t[0] == 116 then DecodeWord(t, TRUE_TEXT, Bool(true))
    else if t[0] == 102 then DecodeWord(t, FALSE_TEXT, Bool(false))
    else if t[0] == QUOTE then
      match Unescape(t[1..]) case None => None case Some((s, rest)) => Some((Str(s), rest))
    else if t[0] == LBRACKET then
      if |t| > 1 && t[1] == RBRACKET then Some((Arr([]), t[2..]))
      else match DecodeItems(t[1..]) case None => None case Some((items, rest)) => Some((Arr(items), rest))
    else if t[0] == LBRACE then
      if |t| > 1 && t[1] == RBRACE then Some((Obj([]), t[2..]))
      else match DecodeMembers(t[1..]) case None => None case Some((ms, rest)) => Some((Obj(ms), rest))
    else DecodeNumber(t)
  }

  function DecodeItems(t: Text): (r: Option<(seq<Json>, Text)>)
    ensures r.Some? ==> |r.value.1| < |t|
    decreases |t|, 2
  {
    match DecodeValue(t)
    case None => None
    case Some((v, rest)) =>
      if rest != [] && rest[0] == RBRACKET then Some(([v], rest[1..]))
      else if rest != [] && rest[0] == COMMA then
        match DecodeItems(rest[1..]) case None => None case Some((vs, rest')) => Some(([v] + vs, rest'))
      else None
  }

  function DecodeMember(t: Text): (r: Option<(Member, Text)>)
    ensures r.Some? ==> |r.value.1| < |t|
    decreases |t|, 2
  {
    if t == [] || t[0] != QUOTE then None
    else
      match Unescape(t[1..])
      case None => None
      case Some((k, rest)) =>
        if rest == [] || rest[0] != COLON then None
        else match DecodeValue(rest[1..]) case None => None case Some((v, rest')) => Some((Member(k, v), rest'))
  }

  function DecodeMembers(t: Text): (r: Option<(seq<Member>, Text)>)
    ensures r.Some? ==> |r.value.1| < |t|
    decreases |t|, 3
  {
    match DecodeMember(t)
    case None => None
    case Some((m, rest)) =>
      if rest != [] && rest[0] == RBRACE then Some(([m], rest[1..]))
      else if rest != [] && rest[0] == COMMA then
        match DecodeMembers(rest[1..]) case None => None case Some((ms, rest')) => Some(([m] + ms, rest'))
      else None
  }

  /** The value of a whole text. */
  function Decode(t: Text): Option<Json> {
    match DecodeValue(t)
    case Some((v, rest)) => if rest == [] then Some(v) else None
    case None => None
  }

  // ----- equality up to key order -----

  /** Objects name each key once. */
  ghost predicate WellFormed(v: Json)
    decreases v
  {
    match v
    case Arr(items) => forall i :: 0 <= i < |items| ==> WellFormed(items[i])
    case Obj(members) => DistinctKeys(members) && forall i :: 0 <= i < |members| ==> WellFormed(members[i].value)
    case _ => true
  }

  /** Equal up to the order of object members. */
  ghost predicate Same(v: Json, w: Json)
    decreases v
  {
    match v
    case Arr(items) =>
      w.Arr? && |items| == |w.items| && forall i :: 0 <= i < |items| ==> Same(items[i], w.items[i])
    case Obj(members) =>
      && w.Obj? && KeysOf(members) == KeysOf(w.members)
      && forall i, j :: 0 <= i < |members| && 0 <= j < |w.members| && members[i].key == w.members[j].key ==>
                          Same(members[i].value, w.members[j].value)
    case _ => v == w
  }

  /** The value with the members of every object in key order. */
  ghost function Normal(v: Json): Json
    decreases v, 0
  {
    match v
    case Arr(items) => Arr(NormalItems(items))
    case Obj(members) => Obj(NormalMembers(members, SortedKeys(members)))
    case _ => v
  }

  ghost function NormalItems(items: seq<Json>): (r: seq<Json>)
    ensures |r| == |items|
    decreases items, 0
  {
    if items == [] then [] else [Normal(items[0])] + NormalItems(items[1..])
  }

  ghost function NormalMembers(members: seq<Member>, keys: seq<Text>): (r: seq<Member>)
    requires forall k <- keys :: k in KeysOf(members)
    ensures |r| == |keys| && forall i :: 0 <= i < |r| ==> r[i].key == keys[i]
    decreases members, |keys|
  {
    if keys == [] then []
    else [Member(keys[0], Normal(members[IndexOf(members, keys[0])].value))] + NormalMembers(members, keys[1..])
  }

  lemma {:induction false} NormalItemsAt(items: seq<Json>, i: nat)
    requires i < |items|
    ensures NormalItems(items)[i] == Normal(items[i])
  {
    if i > 0 {
      NormalItemsAt(items[1..], i - 1);
    }
  }

  lemma {:induction false} NormalMembersAt(members: seq<Member>, keys: seq<Text>, i: nat)
    requires (forall k <- keys :: k in KeysOf(members)) && i < |keys|
    ensures NormalMembers(members, keys)[i].value == Normal(members[IndexOf(members, keys[i])].value)
    decreases i
  {
    if i > 0 {
      NormalMembersAt(members, keys[1..], i - 1);
    }
  }

  // ----- the decoder inverts the encoder -----

  ghost predicate EndsNumber(rest: Text) {
    rest == [] || !IsDigit(rest[0])
  }

  lemma {:induction false} EncodeStarts(v: Json)
    ensures |Encode(v)| > 0 && Encode(v)[0] !in {RBRACKET, RBRACE}
  {
    if v.Num? {
      if v.n >= 0 {
        assert IsDigit(Digits(v.n)[0]);
      }
    }
  }

  /** Decoding the encoding of a value, whatever follows it, gives back the value in key order and
      leaves what follows. */
  lemma {:induction false} DecodeInverts(v: Json, rest: Text)
    requires EndsNumber(rest)
    ensures DecodeValue(Encode(v) + rest) == Some((Normal(v), rest))
    decreases v, 0
  {
    hide DecodeItems, DecodeMembers, DecodeNumber, Unescape, EncodeItems, EncodeMembers, SortedKeys, Escape;
    var t := Encode(v) + rest;
    match v {
      case Null =>
        assert t[4..] == rest;
      case Bool(b) =>
        assert t[|Encode(v)|..] == rest;
      case Num(n) =>
        DecodeNumberInverts(n, rest);
        if n >= 0 {
          assert t[0] == Digits(n)[0] && IsDigit(t[0]);
        }
      case Str(s) =>
        UnescapeInverts(s, rest);
        assert t[1..] == Escape(s) + [QUOTE] + rest;
      case Arr(items) =>
        if items != [] {
          DecodeItemsInverts(items, rest);
        }
        DecodeArrInverts(items, rest);
      case Obj(members) =>
        if members != [] {
          assert members[0] in members && members[0].key in SortedKeys(members);
          DecodeMembersInverts(members, SortedKeys(members), rest);
        }
        DecodeObjInverts(members, rest);
    }
  }

  lemma DecodeArrInverts(items: seq<Json>, rest: Text)
    requires items != [] ==> DecodeItems(EncodeItems(items) + ([RBRACKET] + rest)) == Some((NormalItems(items), rest))
    ensures DecodeValue(Encode(Arr(items)) + rest) == Some((Normal(Arr(items)), rest))
  {
    hide DecodeItems, DecodeMembers, NormalItems;
    var t := Encode(Arr(items)) + rest;
    if items == [] {
      assert t == [LBRACKET, RBRACKET] + rest && t[2..] == rest;
    } else {
      assert t[1..] == EncodeItems(items) + ([RBRACKET] + rest);
      EncodeStarts(items[0]);
      assert t[1] == Encode(items[0])[0];
    }
  }

  lemma MembersStart(members: seq<Member>, keys: seq<Text>)
    requires keys != [] && forall k <- keys :: k in KeysOf(members)
    ensures |EncodeMembers(members, keys)| > 0 && EncodeMembers(members, keys)[0] == QUOTE
  {
  }

  lemma NoMembers()
    ensures SortedKeys([]) == [] && EncodeMembers([], []) == [] && NormalMembers([], []) == []
  {
  }

  lemma DecodeObjInverts(members: seq<Member>, rest: Text)
    requires var keys := SortedKeys(members);
             members == []
             || (keys != []
                 && DecodeMembers(EncodeMembers(members, keys) + ([RBRACE] + rest))
                    == Some((NormalMembers(members, keys), rest)))
    ensures DecodeValue(Encode(Obj(members)) + rest) == Some((Normal(Obj(members)), rest))
  {
    hide DecodeItems, DecodeMembers, EncodeMembers, SortedKeys, NormalMembers;
    var t := Encode(Obj(members)) + rest;
    if members == [] {
      NoMembers();
      assert t == [LBRACE, RBRACE] + rest && t[2..] == rest;
    } else {
      MembersStart(members, SortedKeys(members));
      assert t[1..] == EncodeMembers(members, SortedKeys(members)) + ([RBRACE] + rest);
    }
  }

  lemma {:induction false} DecodeItemsInverts(items: seq<Json>, rest: Text)
    requires items != []
    ensures DecodeItems(EncodeItems(items) + ([RBRACKET] + rest)) == Some((NormalItems(items), rest))
    decreases items, 0
  {
    hide DecodeValue, Encode, Normal;
    var tail := [RBRACKET] + rest;
    if |items| == 1 {
      DecodeInverts(items[0], tail);
      assert tail[1..] == rest;
      assert NormalItems(items) == [Normal(items[0])];
    } else {
      var more := EncodeItems(items[1..]) + tail;
      DecodeItemsInverts(items[1..], rest);
      DecodeInverts(items[0], [COMMA] + more);
      assert EncodeItems(items) + tail == Encode(items[0]) + ([COMMA] + more);
      assert ([COMMA] + more)[1..] == more;
    }
  }

  lemma {:induction false} DecodeMembersInverts(members: seq<Member>, keys: seq<Text>, rest: Text)
    requires keys != [] && forall k <- keys :: k in KeysOf(members)
    ensures DecodeMembers(EncodeMembers(members, keys) + ([RBRACE] + rest))
            == Some((NormalMembers(members, keys), rest))
    decreases members, |keys|
  {
    hide DecodeValue, DecodeMember, Normal, Encode, Quoted, IndexOf, KeysOf;
    var tail := [RBRACE] + rest;
    var v := members[IndexOf(members, keys[0])].value;
    var first := Quoted(keys[0]) + [COLON] + Encode(v);
    if |keys| == 1 {
      DecodeInverts(v, tail);
      DecodeMemberInverts(keys[0], v, tail);
      assert tail[1..] == rest;
      assert NormalMembers(members, keys) == [Member(keys[0], Normal(v))];
    } else {
      var more := EncodeMembers(members, keys[1..]) + tail;
      DecodeMembersInverts(members, keys[1..], rest);
      DecodeInverts(v, [COMMA] + more);
      DecodeMemberInverts(keys[0], v, [COMMA] + more);
      assert EncodeMembers(members, keys) + tail == first + ([COMMA] + more);
      assert ([COMMA] + more)[1..] == more;
    }
  }

  lemma DecodeMemberInverts(k: Text, v: Json, rest: Text)
    requires DecodeValue(Encode(v) + rest) == Some((Normal(v), rest))
    ensures DecodeMember(Quoted(k) + [COLON] + Encode(v) + rest) == Some((Member(k, Normal(v)), rest))
  {
    hide Unescape, Escape, Encode, Normal, DecodeValue;
    var t := Quoted(k) + [COLON] + Encode(v) + rest;
    var more := [COLON] + (Encode(v) + rest);
    UnescapeInverts(k, more);
    assert t[1..] == Escape(k) + [QUOTE] + more;
    assert more[1..] == Encode(v) + rest;
  }

  /** The keys of every object, at any depth, ascend by code units. */
  ghost predicate KeysAscend(v: Json)
    decreases v
  {
    match v
    case Arr(items) => forall i :: 0 <= i < |items| ==> KeysAscend(items[i])
    case Obj(members) =>
      && (forall i, j :: 0 <= i < j < |members| ==> Ascending(members[i].key, members[j].key))
      && forall i :: 0 <= i < |members| ==> KeysAscend(members[i].value)
    case _ => true
  }

  lemma {:induction false} NormalAscends(v: Json)
    requires WellFormed(v)
    ensures KeysAscend(Normal(v))
    decreases v
  {
    hide Ascending, Less;
    match v {
      case Arr(items) =>
        forall i | 0 <= i < |items| ensures KeysAscend(NormalItems(items)[i]) {
          NormalItemsAt(items, i);
          NormalAscends(items[i]);
        }
      case Obj(members) =>
        var keys := SortedKeys(members);
        var sorted := NormalMembers(members, keys);
        SortedKeysSorted(members);
        forall i, j | 0 <= i < j < |sorted| ensures Ascending(sorted[i].key, sorted[j].key) {
          LessIsAscending(keys[i], keys[j]);
        }
        forall i | 0 <= i < |sorted| ensures KeysAscend(sorted[i].value) {
          NormalMembersAt(members, keys, i);
          NormalAscends(members[IndexOf(members, keys[i])].value);
        }
      case _ =>
    }
  }

  /** Decoding an encoded value gives the value, its objects with their members in the order of their keys:
      ascending by code units. */
  lemma RoundTrip(v: Json)
    requires WellFormed(v)
    ensures Decode(Encode(v)) == Some(Normal(v)) && Same(v, Normal(v)) && KeysAscend(Normal(v))
  {
    assert Encode(v) + [] == Encode(v);
    DecodeInverts(v, []);
    SameAsNormal(v);
    NormalAscends(v);
  }

  /** Code units of a text without characters outside the basic plane. */
  function Units(text: string): (t: Text)
    ensures |t| == |text| && forall i :: 0 <= i < |t| ==> t[i] == text[i] as nat
  {
    seq(|text|, i requires 0 <= i < |text| => text[i] as nat)
  }

  lemma UnitsJoin(a: string, b: string)
    ensures Units(a + b) == Units(a) + Units(b)
  {
  }

  /** Strings, character by character: the short escapes, the others in hexadecimal, everything else as it is. */
  lemma EscapesAre(u: Unit)
    ensures match u
            case 8 => EscapeUnit(u) == Units("\\b")
            case 9 => EscapeUnit(u) == Units("\\t")
            case 10 => EscapeUnit(u) == Units("\\n")
            case 12 => EscapeUnit(u) == Units("\\f")
            case 13 => EscapeUnit(u) == Units("\\r")
            case 34 => EscapeUnit(u) == Units("\\\"")
            case 92 => EscapeUnit(u) == Units("\\\\")
            case _ => if u < 32 || 0xD800 <= u < 0xE000
                      then |EscapeUnit(u)| == 6 && EscapeUnit(u)[..2] == Units("\\u")
                           && forall i :: 2 <= i < 6 ==> EscapeUnit(u)[i] in Units("0123456789abcdef")
                      else EscapeUnit(u) == [u]
  {
    if ShortEscape(u).None? && (u < 32 || IsLead(u) || IsTrail(u)) {
      HexLooks(u / 4096);
      HexLooks(u / 256 % 16);
      HexLooks(u / 16 % 16);
      HexLooks(u % 16);
    }
  }

  lemma HexLooks(n: nat)
    requires n < 16
    ensures HexDigit(n) in Units("0123456789abcdef")
  {
    assert HexDigit(n) == Units("0123456789abcdef")[n];
  }

  lemma LetterLooks(c: Unit)
    requires 97 <= c <= 122
    ensures Quoted([c]) == [QUOTE, c, QUOTE]
  {
    assert [c][1..] == [] && Escape([]) == [];
    assert Escape([c]) == [c];
  }

  lemma OneItem(v: Json)
    ensures EncodeItems([v]) == Encode(v)
  {
  }

  lemma MoreItems(v: Json, rest: seq<Json>)
    requires rest != []
    ensures EncodeItems([v] + rest) == Encode(v) + [COMMA] + EncodeItems(rest)
  {
    assert ([v] + rest)[1..] == rest;
  }

  lemma WordsLook()
    ensures Encode(Null) == Units("null") && Encode(Bool(true)) == Units("true")
    ensures Encode(Bool(false)) == Units("false") && Encode(Num(-12)) == Units("-12")
  {
    assert Digits(12) == Digits(1) + [50] == [49, 50];
  }

  lemma BracketsLook(items: seq<Json>, members: seq<Member>, s: Text)
    ensures Encode(Arr(items)) == [LBRACKET] + EncodeItems(items) + [RBRACKET]
    ensures Encode(Obj(members)) == [LBRACE] + EncodeMembers(members, SortedKeys(members)) + [RBRACE]
    ensures Encode(Str(s)) == Quoted(s)
  {
  }

  lemma ItemsLook()
    ensures Encode(Arr([Null, Num(-12)])) == Units("[null,-12]")
  {
    hide EncodeItems, Encode;
    var (a, b) := (Null, Num(-12));
    BracketsLook([a, b], [], []);
    WordsLook();
    OneItem(b);
    assert [a, b] == [a] + [b];
    MoreItems(a, [b]);
  }

  lemma KeysLook(m: Member, n: Member)
    requires m.key == [98] && n.key == [97]
    ensures SortedKeys([m, n]) == [[97], [98]]
  {
    assert [m, n][1..] == [n] && [n][1..] == [];
    assert SortedKeys([n]) == InsertKey([97], []) == [[97]];
    assert InsertKey([98], [[97]]) == [[97]] + InsertKey([98], []);
  }

  lemma MembersLook(m: Member, n: Member)
    requires m.key == [98] && n.key == [97]
    ensures [97] in KeysOf([m, n]) && [98] in KeysOf([m, n])
    ensures EncodeMembers([m, n], [[97], [98]])
         == [QUOTE, 97, QUOTE, COLON] + Encode(n.value) + [COMMA] + ([QUOTE, 98, QUOTE, COLON] + Encode(m.value))
  {
    hide Quoted, Encode;
    var ms := [m, n];
    assert m in ms && n in ms;
    LetterLooks(97);
    LetterLooks(98);
    assert IndexOf(ms, [98]) == 0;
    assert [[97], [98]][1..] == [[98]];
    assert EncodeMembers(ms, [[98]]) == Quoted([98]) + [COLON] + Encode(m.value);
  }

  lemma PartsLook(x: Text, y: Text)
    requires x == [QUOTE, 120, QUOTE] && y == Units("[null,-12]")
    ensures [LBRACE] + ([QUOTE, 97, QUOTE, COLON] + x + [COMMA] + ([QUOTE, 98, QUOTE, COLON] + y)) + [RBRACE]
         == Units("{\"a\":\"x\",\"b\":[null,-12]}")
  {
    var (l, r) := ("{\"a\":\"x\",\"b\":", "[null,-12]}");
    assert [LBRACE] + [QUOTE, 97, QUOTE, COLON] + x + [COMMA] + [QUOTE, 98, QUOTE, COLON] == Units(l);
    assert y + [RBRACE] == Units(r);
    UnitsJoin(l, r);
  }

  /** A small object, character by character. */
  lemma EncodingLooksLike()
    ensures Encode(Obj([Member([98], Arr([Null, Num(-12)])), Member([97], Str([120]))]))
         == Units("{\"a\":\"x\",\"b\":[null,-12]}")
  {
    hide EncodeItems, EncodeMembers, Quoted, SortedKeys, KeysOf, Encode;
    var items := Arr([Null, Num(-12)]);
    var (m, n) := (Member([98], items), Member([97], Str([120])));
    KeysLook(m, n);
    MembersLook(m, n);
    BracketsLook([], [m, n], [120]);
    LetterLooks(120);
    ItemsLook();
    hide *;
    PartsLook([QUOTE, 120, QUOTE], Units("[null,-12]"));
  }

  // ----- canonical: equal encodings are equal values -----

  lemma {:induction false} SameAsNormal(v: Json)
    requires WellFormed(v)
    ensures Same(v, Normal(v))
    decreases v
  {
    match v {
      case Arr(items) =>
        forall i | 0 <= i < |items| ensures Same(items[i], NormalItems(items)[i]) {
          NormalItemsAt(items, i);
          SameAsNormal(items[i]);
        }
      case Obj(members) =>
        var keys := SortedKeys(members);
        var sorted := NormalMembers(members, keys);
        NormalKeys(members);
        forall i, j | 0 <= i < |members| && 0 <= j < |sorted| && members[i].key == sorted[j].key
          ensures Same(members[i].value, sorted[j].value)
        {
          NormalMembersAt(members, keys, j);
          SameAsNormal(members[i].value);
        }
      case _ =>
    }
  }

  lemma NormalKeys(members: seq<Member>)
    ensures KeysOf(NormalMembers(members, SortedKeys(members))) == KeysOf(members)
  {
    var keys := SortedKeys(members);
    var sorted := NormalMembers(members, keys);
    forall k ensures k in KeysOf(sorted) <==> k in KeysOf(members) {
      if k in KeysOf(members) {
        var i :| 0 <= i < |keys| && keys[i] == k;
        assert sorted[i] in sorted && sorted[i].key == k;
      }
    }
  }

  lemma MatchingNormals(a: seq<Member>, b: seq<Member>, i: nat, j: nat)
    requires DistinctKeys(a) && DistinctKeys(b)
    requires NormalMembers(a, SortedKeys(a)) == NormalMembers(b, SortedKeys(b))
    requires i < |a| && j < |b| && a[i].key == b[j].key
    ensures Normal(a[i].value) == Normal(b[j].value)
  {
    hide Normal, SortedKeys, NormalMembers;
    var keys, keys' := SortedKeys(a), SortedKeys(b);
    assert a[i] in a && a[i].key in keys;
    var at :| 0 <= at < |keys| && keys[at] == a[i].key;
    NormalMembersAt(a, keys, at);
    NormalMembersAt(b, keys', at);
    assert NormalMembers(a, keys)[at].key == keys'[at];
    assert IndexOf(a, keys[at]) == i && IndexOf(b, keys'[at]) == j;
  }

  lemma {:induction false} NormalImpliesSame(v: Json, w: Json)
    requires WellFormed(v) && WellFormed(w) && Normal(v) == Normal(w)
    ensures Same(v, w)
    decreases v
  {
    match v {
      case Arr(items) =>
        forall i | 0 <= i < |items| ensures Same(items[i], w.items[i]) {
          NormalItemsAt(items, i);
          NormalItemsAt(w.items, i);
          NormalImpliesSame(items[i], w.items[i]);
        }
      case Obj(members) =>
        NormalKeys(members);
        NormalKeys(w.members);
        forall i, j | 0 <= i < |members| && 0 <= j < |w.members| && members[i].key == w.members[j].key
          ensures Same(members[i].value, w.members[j].value)
        {
          MatchingNormals(members, w.members, i, j);
          NormalImpliesSame(members[i].value, w.members[j].value);
        }
      case _ =>
    }
  }

  lemma {:induction false} SameImpliesEncode(v: Json, w: Json)
    requires WellFormed(v) && WellFormed(w) && Same(v, w)
    ensures Encode(v) == Encode(w)
    decreases v, 0
  {
    match v {
      case Arr(items) =>
        SameItemsEncode(items, w.items);
      case Obj(members) =>
        SortedKeysSorted(members);
        SortedKeysSorted(w.members);
        SortedUnique(SortedKeys(members), SortedKeys(w.members));
        SameMembersEncode(members, w.members, SortedKeys(members));
      case _ =>
    }
  }

  lemma {:induction false} SameItemsEncode(a: seq<Json>, b: seq<Json>)
    requires |a| == |b|
    requires forall i :: 0 <= i < |a| ==> WellFormed(a[i]) && WellFormed(b[i]) && Same(a[i], b[i])
    ensures EncodeItems(a) == EncodeItems(b)
    decreases a, 0
  {
    if a != [] {
      SameImpliesEncode(a[0], b[0]);
      SameItemsEncode(a[1..], b[1..]);
    }
  }

  lemma {:induction false} SameMembersEncode(a: seq<Member>, b: seq<Member>, keys: seq<Text>)
    requires forall k <- keys :: k in KeysOf(a) && k in KeysOf(b)
    requires WellFormed(Obj(a)) && WellFormed(Obj(b))
    requires forall i, j :: 0 <= i < |a| && 0 <= j < |b| && a[i].key == b[j].key ==> Same(a[i].value, b[j].value)
    ensures EncodeMembers(a, keys) == EncodeMembers(b, keys)
    decreases a, |keys|
  {
    if keys != [] {
      SameImpliesEncode(a[IndexOf(a, keys[0])].value, b[IndexOf(b, keys[0])].value);
      SameMembersEncode(a, b, keys[1..]);
    }
  }

  /** The encoding is canonical and unambiguous: two values have the same encoding exactly when they
      are equal up to the order of object members. */
  lemma EncodingIsCanonical(v: Json, w: Json)
    requires WellFormed(v) && WellFormed(w)
    ensures Encode(v) == Encode(w) <==> Same(v, w)
  {
    if Encode(v) == Encode(w) {
      RoundTrip(v);
      RoundTrip(w);
      NormalImpliesSame(v, w);
    }
    if Same(v, w) {
      SameImpliesEncode(v, w);
    }
  }
}
