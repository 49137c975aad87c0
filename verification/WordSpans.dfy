/** Words of a text, as `word_spans` finds them: maximal runs of non-whitespace characters.
    Rust strings are indexed by byte, so a span holds UTF-8 byte offsets; the reference
    definition `WordsFrom` works on character positions and `ByteOff` connects the two. */
module WordSpans {
  import opened Common

  /** A half-open range, of characters or of bytes. */
  datatype Span = Span(lo: nat, hi: nat)

  /** The Unicode White_Space property. */
  predicate IsWhitespace(c: char) {
    var n := c as int;
    9 <= n <= 13 || n == 0x20 || n == 0x85 || n == 0xA0 || n == 0x1680 || 0x2000 <= n <= 0x200A
    || n == 0x2028 || n == 0x2029 || n == 0x202F || n == 0x205F || n == 0x3000
  }

  /** The characters that have it, one by one. */
  const WHITE_SPACE :=
    "\t\n\U{B}\U{C}\r \U{85}\U{A0}\U{1680}\U{2000}\U{2001}\U{2002}\U{2003}\U{2004}\U{2005}\U{2006}"
    + "\U{2007}\U{2008}\U{2009}\U{200A}\U{2028}\U{2029}\U{202F}\U{205F}\U{3000}"

  lemma WhitespaceIs(c: char)
    ensures IsWhitespace(c) <==> c in WHITE_SPACE
  {
    if IsWhitespace(c) {
      assert exists i :: 0 <= i < 25 && WHITE_SPACE[i] == c by {
        var n := c as int;
        var i := if n <= 13 then n - 9 else if n <= 0x20 then 5 else if n <= 0x85 then 6 else if n <= 0xA0 then 7
                 else if n <= 0x1680 then 8 else if n <= 0x200A then n - 0x2000 + 9 else if n <= 0x2028 then 20
                 else if n <= 0x2029 then 21 else if n <= 0x202F then 22 else if n <= 0x205F then 23 else 24;
        assert WHITE_SPACE[i] == c;
      }
    }
  }

  /** Number of bytes of a character in UTF-8. */
  function Utf8Len(c: char): (n: nat)
    ensures 1 <= n <= 4
  {
    var n := c as int;
    if n < 0x80 then 1 else if n < 0x800 then 2 else if n < 0x1_0000 then 3 else 4
  }

  /** The bytes of a character in UTF-8, section 3 of RFC 3629. */
  function Utf8(c: char): (b: seq<nat>)
    ensures |b| == Utf8Len(c)
  {
    var n := c as int;
    match Utf8Len(c)
    case 1 => [n]
    case 2 => [0xC0 + n / 64, 0x80 + n % 64]
    case 3 => [0xE0 + n / 4096, 0x80 + n / 64 % 64, 0x80 + n % 64]
    case _ => [0xF0 + n / 262144, 0x80 + n / 4096 % 64, 0x80 + n / 64 % 64, 0x80 + n % 64]
  }

  /** They are what the standard asks for: the first byte tells the number of bytes, the others are continuation
      bytes, the form is the shortest, and the character can be read off again. */
  lemma Utf8IsStandard(c: char)
    ensures var (b, n) := (Utf8(c), c as int);
            && (forall i :: 1 <= i < |b| ==> 0x80 <= b[i] < 0xC0)
            && match |b|
               case 1 => b[0] < 0x80 && n == b[0]
               case 2 => 0xC2 <= b[0] < 0xE0 && n == (b[0] - 0xC0) * 64 + b[1] - 0x80
               case 3 => 0xE0 <= b[0] < 0xF0 && n >= 0x800
                         && n == ((b[0] - 0xE0) * 64 + b[1] - 0x80) * 64 + b[2] - 0x80
               case _ => 0xF0 <= b[0] < 0xF5 && n >= 0x1_0000
                         && n == (((b[0] - 0xF0) * 64 + b[1] - 0x80) * 64 + b[2] - 0x80) * 64 + b[3] - 0x80
  {
    Sextets(c as int);
  }

  lemma Sextets(n: nat)
    ensures n == n / 64 * 64 + n % 64 && n / 64 == n / 4096 * 64 + n / 64 % 64
    ensures n / 4096 == n / 262144 * 64 + n / 4096 % 64
    ensures 0 <= n % 64 < 64 && 0 <= n / 64 % 64 < 64 && 0 <= n / 4096 % 64 < 64
  {
    var (p, q, r) := (n / 64, n / 4096, n / 262144);
    assert p / 64 == q && q / 64 == r;
  }

  /** Byte offset of character position i. */
  function ByteOff(text: string, i: nat): (b: nat)
    requires i <= |text|
    ensures i <= b
  {
    if i == 0 then 0 else ByteOff(text, i - 1) + Utf8Len(text[i - 1])
  }

  lemma {:induction false} ByteOffMonotone(text: string, i: nat, j: nat)
    requires i < j <= |text|
    ensures ByteOff(text, i) < ByteOff(text, j)
  {
    if i + 1 < j {
      ByteOffMonotone(text, i, j - 1);
    }
  }

  ghost predicate IsBoundary(text: string, b: nat) {
    exists i: nat :: i <= |text| && ByteOff(text, i) == b
  }

  /** First character position, from i on, whose byte offset is not below b. */
  function CharAtFrom(text: string, b: nat, i: nat): (c: nat)
    requires i <= |text|
    ensures i <= c <= |text|
    decreases |text| - i
  {
    if i == |text| || b <= ByteOff(text, i) then i else CharAtFrom(text, b, i + 1)
  }

  lemma {:induction false} CharAtInvertsFrom(text: string, j: nat, i: nat)
    requires i <= j <= |text|
    ensures CharAtFrom(text, ByteOff(text, j), i) == j
    decreases j - i
  {
    if i < j {
      ByteOffMonotone(text, i, j);
      CharAtInvertsFrom(text, j, i + 1);
    }
  }

  /** `&text[a..b]`: Rust panics unless both ends are character boundaries. */
  function Slice(text: string, a: nat, b: nat): string
    requires a <= b && IsBoundary(text, a) && IsBoundary(text, b)
  {
    var i, j := CharAtFrom(text, a, 0), CharAtFrom(text, b, 0);
    if i <= j then text[i..j] else []
  }

  /** Slicing by the byte offsets of two character positions takes the characters between them. */
  lemma SliceIsSubstring(text: string, i: nat, j: nat)
    requires i <= j <= |text|
    ensures ByteOff(text, i) <= ByteOff(text, j)
    ensures IsBoundary(text, ByteOff(text, i)) && IsBoundary(text, ByteOff(text, j))
    ensures Slice(text, ByteOff(text, i), ByteOff(text, j)) == text[i..j]
  {
    if i < j {
      ByteOffMonotone(text, i, j);
    }
    CharAtInvertsFrom(text, i, 0);
    CharAtInvertsFrom(text, j, 0);
  }

  /** End of the non-whitespace run that contains position i. */
  function RunEnd(text: string, i: nat): (j: nat)
    requires i <= |text|
    ensures i <= j <= |text|
    ensures forall k :: i <= k < j ==> !IsWhitespace(text[k])
    ensures j < |text| ==> IsWhitespace(text[j])
    decreases |text| - i
  {
    if i == |text| || IsWhitespace(text[i]) then i else RunEnd(text, i + 1)
  }

  /** The words at or after character position i. */
  function WordsFrom(text: string, i: nat): seq<Span>
    requires i <= |text|
    decreases |text| - i
  {
    if i == |text| then []
    else if IsWhitespace(text[i]) then WordsFrom(text, i + 1)
    else [Span(i, RunEnd(text, i))] + WordsFrom(text, RunEnd(text, i))
  }

  function Words(text: string): seq<Span> {
    WordsFrom(text, 0)
  }

  /** Every word is a non-empty run without whitespace; consecutive words are separated. */
  lemma {:induction false} WordsAreRuns(text: string, i: nat, k: nat)
    requires i <= |text| && k < |WordsFrom(text, i)|
    ensures var w := WordsFrom(text, i)[k];
            && i <= w.lo < w.hi <= |text| && RunEnd(text, w.lo) == w.hi
            && (forall c :: w.lo <= c < w.hi ==> !IsWhitespace(text[c]))
            && (w.hi < |text| ==> IsWhitespace(text[w.hi]))
            && (k + 1 < |WordsFrom(text, i)| ==> w.hi < WordsFrom(text, i)[k + 1].lo)
    decreases |text| - i
  {
    if IsWhitespace(text[i]) {
      WordsAreRuns(text, i + 1, k);
    } else {
      var e := RunEnd(text, i);
      if k > 0 {
        WordsAreRuns(text, e, k - 1);
      } else if |WordsFrom(text, e)| > 0 {
        WordsAreRuns(text, e, 0);
      }
    }
  }

  /** No non-whitespace character is outside a word: together with `WordsAreRuns`, the words are
      exactly the maximal runs. */
  lemma {:induction false} WordsCover(text: string, i: nat, c: nat) returns (k: nat)
    requires i <= c < |text| && !IsWhitespace(text[c])
    ensures k < |WordsFrom(text, i)| && WordsFrom(text, i)[k].lo <= c < WordsFrom(text, i)[k].hi
    decreases |text| - i
  {
    if IsWhitespace(text[i]) {
      k := WordsCover(text, i + 1, c);
    } else if c < RunEnd(text, i) {
      k := 0;
    } else {
      var k' := WordsCover(text, RunEnd(text, i), c);
      k := k' + 1;
    }
  }

  /** Words of a later starting point are a suffix: dropping the first k words is restarting at
      the end of word k - 1. */
  lemma {:induction false} WordsSuffix(text: string, i: nat, k: nat)
    requires i <= |text| && k < |WordsFrom(text, i)|
    ensures var w := WordsFrom(text, i);
            w[k].lo < |text| && !IsWhitespace(text[w[k].lo]) && w[k..] == WordsFrom(text, w[k].lo)
    decreases |text| - i
  {
    if IsWhitespace(text[i]) {
      WordsSuffix(text, i + 1, k);
    } else if k > 0 {
      var e := RunEnd(text, i);
      WordsSuffix(text, e, k - 1);
      assert WordsFrom(text, i)[k..] == WordsFrom(text, e)[k - 1..];
    }
  }

  /** The same words further right in a larger text. */
  function Shift(words: seq<Span>, off: nat): (r: seq<Span>)
    ensures |r| == |words|
    ensures forall k :: 0 <= k < |r| ==> r[k] == Span(words[k].lo + off, words[k].hi + off)
  {
    seq(|words|, k requires 0 <= k < |words| => Span(words[k].lo + off, words[k].hi + off))
  }

  lemma ShiftCons(w: Span, words: seq<Span>, all: seq<Span>, off: nat, e: nat)
    requires 0 < e <= |all| && all[0] == Span(w.lo + off, w.hi + off)
    requires Shift(words, off) == all[1..][..e - 1]
    ensures Shift([w] + words, off) == all[..e]
  {
    assert all[..e] == [all[0]] + all[1..][..e - 1];
  }

  /** A cut of the text that starts at position i and ends at the end of word e - 1 holds exactly
      the first e words from i on. */
  lemma CutWords(text: string, i: nat, e: nat)
    requires i <= |text| && 0 < e <= |WordsFrom(text, i)|
    ensures var b := WordsFrom(text, i)[e - 1].hi;
            && i <= b <= |text| && Shift(Words(text[i..b]), i) == WordsFrom(text, i)[..e]
  {
    WordsAreRuns(text, i, e - 1);
    CutWordsAt(text, i, WordsFrom(text, i)[e - 1].hi, 0, e);
  }

  lemma FirstWord(text: string, i: nat)
    requires i < |text|
    ensures WordsFrom(text, i)
            == if IsWhitespace(text[i]) then WordsFrom(text, i + 1)
               else [Span(i, RunEnd(text, i))] + WordsFrom(text, RunEnd(text, i))
  {
  }

  lemma NoWord(text: string)
    ensures WordsFrom(text, |text|) == []
  {
  }

  /** `CutWords` for the words at or after position a of the cut text[i..b]. */
  lemma {:induction false} CutWordsAt(text: string, i: nat, b: nat, a: nat, e: nat)
    requires i + a <= b <= |text| && e <= |WordsFrom(text, i + a)|
    requires if e == 0 then i + a == b else b == WordsFrom(text, i + a)[e - 1].hi
    ensures Shift(WordsFrom(text[i..b], a), i) == WordsFrom(text, i + a)[..e]
    decreases b - i - a
  {
    hide WordsFrom, RunEnd, IsWhitespace;
    if e == 0 {
      NoWord(text[i..b]);
      assert Shift([], i) == [];
    } else {
      WordsAreRuns(text, i + a, e - 1);
      FirstWord(text, i + a);
      FirstWord(text[i..b], a);
      if IsWhitespace(text[i + a]) {
        assert i + (a + 1) == i + a + 1;
        CutWordsAt(text, i, b, a + 1, e);
        assert text[i..b][a] == text[i + a];
        assert WordsFrom(text[i..b], a) == WordsFrom(text[i..b], a + 1);
      } else {
        var r := RunEnd(text, i + a);
        if e > 1 {
          WordsAreRuns(text, r, e - 2);
        }
        CutRunEnd(text, i, b, a, r);
        CutWordsAt(text, i, b, r - i, e - 1);
        var rest := WordsFrom(text, r);
        assert ([Span(i + a, r)] + rest)[1..] == rest;
        ShiftCons(Span(a, r - i), WordsFrom(text[i..b], r - i), [Span(i + a, r)] + rest, i, e);
        assert text[i..b][a] == text[i + a];
        assert WordsFrom(text[i..b], a) == [Span(a, r - i)] + WordsFrom(text[i..b], r - i);
      }
    }
  }

  lemma {:induction false} CutRunEnd(text: string, i: nat, b: nat, a: nat, r: nat)
    requires i + a <= r <= b <= |text|
    requires forall k :: i + a <= k < r ==> !IsWhitespace(text[k])
    requires r < b ==> IsWhitespace(text[r])
    ensures RunEnd(text[i..b], a) == r - i
    decreases r - i - a
  {
    if i + a < r {
      assert text[i..b][a] == text[i + a];
      CutRunEnd(text, i, b, a + 1, r);
    }
  }

  /** Spans of the words in bytes. */
  function ToBytes(text: string, words: seq<Span>): (r: seq<Span>)
    requires forall w <- words :: w.lo <= |text| && w.hi <= |text|
    ensures |r| == |words|
    ensures forall k :: 0 <= k < |r| ==>
                          r[k] == Span(ByteOff(text, words[k].lo), ByteOff(text, words[k].hi))
  {
    seq(|words|, k requires 0 <= k < |words| =>
          assert words[k] in words; Span(ByteOff(text, words[k].lo), ByteOff(text, words[k].hi)))
  }

  lemma WordsInText(text: string, i: nat)
    requires i <= |text|
    ensures forall w <- WordsFrom(text, i) :: i <= w.lo < w.hi <= |text|
  {
    forall k | 0 <= k < |WordsFrom(text, i)|
      ensures i <= WordsFrom(text, i)[k].lo < WordsFrom(text, i)[k].hi <= |text|
    {
      WordsAreRuns(text, i, k);
    }
  }

  /** `word_spans`: one pass over the characters with their byte offsets, remembering where the
      current word started. */
  method FindWordSpans(text: string) returns (spans: seq<Span>)
    ensures forall w <- Words(text) :: w.lo <= |text| && w.hi <= |text|
    ensures spans == ToBytes(text, Words(text))
  {
    WordsInText(text, 0);
    spans := [];
    ghost var chars: seq<Span> := [];
    var start: Option<nat> := None;
    ghost var from := 0;
    var idx := 0;
    for i := 0 to |text|
      invariant idx == ByteOff(text, i)
      invariant forall w <- chars :: w.lo <= |text| && w.hi <= |text|
      invariant spans == ToBytes(text, chars)
      invariant start.None? ==> Words(text) == chars + WordsFrom(text, i)
      invariant start.Some? ==> from < i && start.value == ByteOff(text, from)
      invariant start.Some? ==> forall k :: from <= k < i ==> !IsWhitespace(text[k])
      invariant start.Some? ==> Words(text) == chars + WordsFrom(text, from)
    {
      if IsWhitespace(text[i]) {
        if start.Some? {
          CutRunEnd(text, 0, |text|, from, i);
          assert text[0..|text|] == text;
          assert Words(text) == (chars + [Span(from, i)]) + WordsFrom(text, i);
          spans := spans + [Span(start.value, idx)];
          chars := chars + [Span(from, i)];
          start := None;
        }
      } else if start.None? {
        start := Some(idx);
        from := i;
      }
      idx := idx + Utf8Len(text[i]);
    }
    if start.Some? {
      CutRunEnd(text, 0, |text|, from, |text|);
      assert text[0..|text|] == text;
      assert Words(text) == chars + [Span(from, |text|)];
      spans := spans + [Span(start.value, idx)];
      chars := chars + [Span(from, |text|)];
    }
    assert chars == Words(text);
  }
}
