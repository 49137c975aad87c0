/** The sentence-aware chunker: a window over the words of a text that ends at a sentence where it
    can and steps back by `overlap` words before the next chunk. */
module Chunker {
  import opened Common
  import opened WordSpans

  datatype Params = Params(minParent: nat, target: nat, max: nat, overlap: nat)

  datatype Validation = Accepted | Rejected(reason: string)

  function ValidateChunkParams(p: Params): Validation {
    if p.minParent == 0 || p.target == 0 || p.max == 0 then Rejected("chunk word limits must be positive")
    else if p.target > p.max then Rejected("--target-words must be <= --max-words")
    else if p.overlap >= p.target then Rejected("--overlap-words must be smaller than --target-words")
    else Accepted
  }

  ghost predicate Valid(p: Params) {
    ValidateChunkParams(p).Accepted?
  }

  lemma AcceptedParams(p: Params)
    ensures Valid(p) <==> p.minParent > 0 && p.overlap < p.target <= p.max
  {
  }

  predicate IsStop(c: char) {
    c == '.' || c == '!' || c == '?' || c == ';' || c == ':'
  }

  /** For each word, whether it ends a sentence. */
  ghost function Stops(text: string): (s: seq<bool>)
    ensures |s| == |Words(text)|
  {
    WordsInText(text, 0);
    seq(|Words(text)|, k requires 0 <= k < |Words(text)| =>
          assert Words(text)[k] in Words(text); IsStop(text[Words(text)[k].hi - 1]))
  }

  // ----- the window on word numbers -----

  /** The largest end in [lo, hi] whose last word ends a sentence. */
  ghost function BestBoundary(stops: seq<bool>, lo: nat, hi: nat): (r: Option<nat>)
    requires 1 <= lo && hi <= |stops|
    ensures r.Some? ==> lo <= r.value <= hi
    decreases hi
  {
    if hi < lo then None else if stops[hi - 1] then Some(hi) else BestBoundary(stops, lo, hi - 1)
  }

  lemma {:induction false} BoundaryIsBest(stops: seq<bool>, lo: nat, hi: nat)
    requires 1 <= lo && hi <= |stops|
    ensures match BestBoundary(stops, lo, hi)
            case Some(r) => lo <= r <= hi && stops[r - 1] && forall k :: r <= k < hi ==> !stops[k]
            case None => forall k :: lo - 1 <= k < hi ==> !stops[k]
    decreases hi
  {
    if lo <= hi && !stops[hi - 1] {
      BoundaryIsBest(stops, lo, hi - 1);
    }
  }

  /** The smallest number of words the boundary search accepts. */
  function MinAdvance(p: Params): nat {
    if 2 * p.target / 3 == 0 then 1 else 2 * p.target / 3
  }

  ghost predicate FitsRest(n: nat, p: Params, start: nat)
    requires start < n
  {
    n - start <= p.max && n - start <= p.target + p.overlap
  }

  /** Where the chunk that starts at word `start` ends. */
  ghost function EndOf(stops: seq<bool>, p: Params, start: nat): (end: nat)
    requires Valid(p) && start < |stops|
    ensures start < end <= |stops| && end <= start + p.max
    ensures end == |stops| || start + MinAdvance(p) <= end
  {
    if FitsRest(|stops|, p, start) then |stops|
    else
      var hard := Min(start + p.max, |stops|);
      var boundary := BestBoundary(stops, start + MinAdvance(p), hard);
      if boundary.Some? then boundary.value else hard
  }

  /** First word of the chunk after one that ends at `end`. */
  function StepBack(p: Params, end: nat): nat {
    if end < p.overlap then 0 else end - p.overlap
  }

  /** The loop, from word `start`, ends within `fuel` rounds. */
  ghost predicate HaltsIn(stops: seq<bool>, p: Params, start: nat, fuel: nat)
    requires Valid(p)
    decreases fuel
  {
    start >= |stops|
    || (fuel > 0
        && (EndOf(stops, p, start) >= |stops|
            || HaltsIn(stops, p, StepBack(p, EndOf(stops, p, start)), fuel - 1)))
  }

  /** The chunker returns on this text. */
  ghost predicate Halts(text: string, p: Params)
    requires Valid(p)
  {
    |Words(text)| < p.minParent || exists fuel :: HaltsIn(Stops(text), p, 0, fuel)
  }

  /** Chunks as ranges of words. */
  ghost function Ranges(stops: seq<bool>, p: Params, start: nat, fuel: nat): (r: seq<Span>)
    requires Valid(p) && HaltsIn(stops, p, start, fuel)
    ensures forall c <- r :: c.lo < c.hi <= |stops|
    decreases fuel
  {
    if start >= |stops| then []
    else
      var end := EndOf(stops, p, start);
      if end >= |stops| then [Span(start, end)]
      else [Span(start, end)] + Ranges(stops, p, StepBack(p, end), fuel - 1)
  }

  // ----- when the loop ends -----

  /** Every step forward is longer than the step back. */
  predicate Progresses(p: Params) {
    p.overlap < MinAdvance(p)
  }

  /** Chunk d after chunk c: it shares exactly `overlap` words with c and ends later, and c has at
      least the minimum number of words. */
  ghost predicate Follows(c: Span, d: Span, p: Params) {
    c.hi < d.hi && p.overlap <= c.hi && d.lo == c.hi - p.overlap && c.lo + MinAdvance(p) <= c.hi
  }

  /** What the chunks of a text of n words from word `start` on must look like. */
  ghost predicate Covers(r: seq<Span>, n: nat, p: Params, start: nat) {
    && |r| > 0 && r[0].lo == start && r[|r| - 1].hi == n
    && (forall i :: 0 <= i < |r| ==> r[i].lo < r[i].hi <= r[i].lo + p.max)
    && (forall i {:trigger r[i]} :: 0 <= i < |r| - 1 ==> Follows(r[i], r[i + 1], p))
  }

  lemma {:induction false} ProgressHaltsIn(stops: seq<bool>, p: Params, start: nat, fuel: nat)
    requires Valid(p) && Progresses(p) && |stops| <= start + fuel
    ensures HaltsIn(stops, p, start, fuel)
    decreases fuel
  {
    if start < |stops| && EndOf(stops, p, start) < |stops| {
      ProgressHaltsIn(stops, p, StepBack(p, EndOf(stops, p, start)), fuel - 1);
    }
  }

  /** With progress the chunks cover the words: consecutive chunks share exactly `overlap` words, no
      chunk exceeds `max`, and only the last may be shorter than the minimum advance. */
  lemma {:induction false} RangesCover(stops: seq<bool>, p: Params, start: nat, fuel: nat)
    requires Valid(p) && Progresses(p) && start < |stops| && HaltsIn(stops, p, start, fuel)
    ensures Covers(Ranges(stops, p, start, fuel), |stops|, p, start)
    ensures Ranges(stops, p, start, fuel)[0].hi == EndOf(stops, p, start)
    decreases fuel
  {
    hide EndOf;
    var end := EndOf(stops, p, start);
    if end < |stops| {
      var next := StepBack(p, end);
      RangesCover(stops, p, next, fuel - 1);
      CoversCons(Span(start, end), Ranges(stops, p, next, fuel - 1), |stops|, p);
    }
  }

  lemma CoversCons(c: Span, tail: seq<Span>, n: nat, p: Params)
    requires |tail| > 0 && Follows(c, tail[0], p) && Covers(tail, n, p, tail[0].lo)
    requires c.lo < c.hi <= c.lo + p.max
    ensures Covers([c] + tail, n, p, c.lo)
  {
    hide Follows;
    var r := [c] + tail;
    forall i | 0 <= i < |r| - 1 ensures Follows(r[i], r[i + 1], p) {
      if i > 0 {
        assert r[i] == tail[i - 1] && r[i + 1] == tail[i];
      }
    }
  }

  /** A covering starts its chunk i at least i steps in, which bounds the number of chunks. */
  lemma {:induction false} CoverAdvances(r: seq<Span>, n: nat, p: Params, start: nat, i: nat)
    requires Covers(r, n, p, start) && Progresses(p) && i < |r|
    ensures start + i * (MinAdvance(p) - p.overlap) <= r[i].lo
  {
    if i > 0 {
      CoverAdvances(r, n, p, start, i - 1);
      var step := MinAdvance(p) - p.overlap;
      assert i * step == (i - 1) * step + step;
    }
  }

  // ----- a text on which the loop never ends -----

  /** The text whose word k is "." if stops[k] and "a" otherwise. */
  ghost function Spell(stops: seq<bool>): (text: string)
    ensures |text| == 2 * |stops|
    ensures forall k :: 0 <= k < |stops| ==>
                          text[2 * k] == (if stops[k] then '.' else 'a') && text[2 * k + 1] == ' '
  {
    if stops == [] then "" else Spell(stops[..|stops| - 1]) + [if stops[|stops| - 1] then '.' else 'a', ' ']
  }

  lemma {:induction false} SpellWords(stops: seq<bool>, k: nat)
    requires k <= |stops|
    ensures |WordsFrom(Spell(stops), 2 * k)| == |stops| - k
    ensures forall j :: 0 <= j < |stops| - k ==>
                          WordsFrom(Spell(stops), 2 * k)[j] == Span(2 * (k + j), 2 * (k + j) + 1)
    decreases |stops| - k
  {
    var text := Spell(stops);
    if k < |stops| {
      SpellWords(stops, k + 1);
      assert text[2 * k] == (if stops[k] then '.' else 'a') && text[2 * k + 1] == ' ';
      assert RunEnd(text, 2 * k) == 2 * k + 1;
      assert WordsFrom(text, 2 * k + 1) == WordsFrom(text, 2 * (k + 1));
      assert WordsFrom(text, 2 * k) == [Span(2 * k, 2 * k + 1)] + WordsFrom(text, 2 * k + 1);
    }
  }

  lemma SpellStops(stops: seq<bool>)
    ensures Stops(Spell(stops)) == stops
  {
    SpellWords(stops, 0);
    forall k | 0 <= k < |stops| ensures Stops(Spell(stops))[k] == stops[k] {
      assert Words(Spell(stops))[k] == Span(2 * (0 + k), 2 * (0 + k) + 1);
    }
  }

  /** Enough words for the loop to start, one sentence end: after the first MinAdvance words. */
  ghost function StuckStops(p: Params): (s: seq<bool>)
    ensures |s| == p.minParent + p.max + p.target + p.overlap + 1
    ensures forall k :: 0 <= k < |s| ==> s[k] == (k + 1 == MinAdvance(p))
  {
    seq(p.minParent + p.max + p.target + p.overlap + 1, k => k + 1 == MinAdvance(p))
  }

  lemma {:induction false} StuckForever(p: Params, fuel: nat)
    requires Valid(p) && !Progresses(p)
    ensures !HaltsIn(StuckStops(p), p, 0, fuel)
  {
    if fuel > 0 {
      var stops := StuckStops(p);
      assert stops[MinAdvance(p) - 1];
      BoundaryIsBest(stops, MinAdvance(p), Min(p.max, |stops|));
      assert EndOf(StuckStops(p), p, 0) == MinAdvance(p);
      StuckForever(p, fuel - 1);
    }
  }

  lemma StuckText(p: Params)
    requires Valid(p) && !Progresses(p)
    ensures !Halts(Spell(StuckStops(p)), p)
  {
    SpellStops(StuckStops(p));
    forall fuel ensures !HaltsIn(StuckStops(p), p, 0, fuel) {
      StuckForever(p, fuel);
    }
  }

  /** The parameter check alone does not make the chunker return: it does on every text exactly
      when the overlap is below max(1, 2 * target / 3). */
  lemma HaltsIffProgress(p: Params)
    requires Valid(p)
    ensures (forall text :: Halts(text, p)) <==> Progresses(p)
    ensures Progresses(p) <==> p.overlap < 2 * p.target / 3 || p.overlap == 0
  {
    if Progresses(p) {
      forall text ensures Halts(text, p) {
        ProgressHalts(text, p);
      }
    } else {
      StuckText(p);
    }
  }

  lemma ProgressHalts(text: string, p: Params)
    requires Valid(p) && Progresses(p)
    ensures Halts(text, p)
  {
    ProgressHaltsIn(Stops(text), p, 0, |Stops(text)|);
  }

  /** Parameters the check accepts although the chunker can run forever. */
  lemma AcceptedButStuck()
    ensures Valid(Params(1, 3, 3, 2)) && !Halts(Spell(StuckStops(Params(1, 3, 3, 2))), Params(1, 3, 3, 2))
  {
    StuckText(Params(1, 3, 3, 2));
  }

  /** The word ranges of the chunks of a text. */
  ghost function ChunkRanges(text: string, p: Params): (r: seq<Span>)
    requires Valid(p) && Halts(text, p)
    ensures forall c <- r :: c.lo < c.hi <= |Words(text)|
  {
    if |Words(text)| < p.minParent then []
    else
      var fuel :| HaltsIn(Stops(text), p, 0, fuel);
      Ranges(Stops(text), p, 0, fuel)
  }

  /** The chunks of a text with enough words cover it, and there are at most
      ceil(words / (MinAdvance - overlap)) of them. */
  lemma ChunksCover(text: string, p: Params)
    requires Valid(p) && Progresses(p) && p.minParent <= |Words(text)|
    ensures Halts(text, p) && Covers(ChunkRanges(text, p), |Words(text)|, p, 0)
    ensures var step := MinAdvance(p) - p.overlap;
            (|ChunkRanges(text, p)| - 1) * step < |Words(text)|
  {
    ProgressHalts(text, p);
    var stops := Stops(text);
    var fuel :| HaltsIn(stops, p, 0, fuel) && ChunkRanges(text, p) == Ranges(stops, p, 0, fuel);
    RangesCover(stops, p, 0, fuel);
    var r := ChunkRanges(text, p);
    CoverAdvances(r, |stops|, p, 0, |r| - 1);
  }

  // ----- where chunks end -----

  /** Where a chunk has to end, given which words end a sentence. It takes the rest of the text if that has
      at most `max` and at most `target + overlap` words. Otherwise it ends with the last sentence end
      among the words it may reach, at least two thirds of the target (or one word) and at most `max` words
      in; without one it takes all the words it may. */
  ghost predicate EndsRight(stops: seq<bool>, p: Params, r: Span)
    requires r.hi <= |stops|
  {
    var n := |stops|;
    var least := if 2 * p.target / 3 == 0 then r.lo + 1 else r.lo + 2 * p.target / 3;
    var most := if r.lo + p.max < n then r.lo + p.max else n;
    if n <= r.lo + p.max && n <= r.lo + p.target + p.overlap then r.hi == n
    else
      && 0 < least <= r.hi <= most
      && if stops[r.hi - 1] then forall k :: r.hi <= k < most ==> !stops[k]
         else r.hi == most && forall k :: least - 1 <= k < most ==> !stops[k]
  }

  lemma EndOfEndsRight(stops: seq<bool>, p: Params, start: nat)
    requires Valid(p) && start < |stops|
    ensures EndsRight(stops, p, Span(start, EndOf(stops, p, start)))
  {
    hide BestBoundary;
    if !FitsRest(|stops|, p, start) {
      BoundaryIsBest(stops, start + MinAdvance(p), Min(start + p.max, |stops|));
    }
  }

  lemma {:induction false} RangesEndRight(stops: seq<bool>, p: Params, start: nat, fuel: nat)
    requires Valid(p) && HaltsIn(stops, p, start, fuel)
    ensures forall r <- Ranges(stops, p, start, fuel) :: EndsRight(stops, p, r)
    decreases fuel
  {
    hide EndOf, EndsRight;
    if start < |stops| {
      EndOfEndsRight(stops, p, start);
      if EndOf(stops, p, start) < |stops| {
        RangesEndRight(stops, p, StepBack(p, EndOf(stops, p, start)), fuel - 1);
      }
    }
  }

  /** Every chunk ends where it has to; a word ends a sentence if its last character is one of five. */
  lemma ChunksEndRight(text: string, p: Params)
    requires Valid(p) && Halts(text, p)
    ensures forall r <- ChunkRanges(text, p) :: EndsRight(Stops(text), p, r)
    ensures forall k :: 0 <= k < |Words(text)| ==>
                          0 < Words(text)[k].hi <= |text|
                          && (Stops(text)[k] <==> text[Words(text)[k].hi - 1] in ".!?;:")
  {
    WordsInText(text, 0);
    assert forall k :: 0 <= k < |Words(text)| ==> Words(text)[k] in Words(text);
    hide EndsRight;
    if p.minParent <= |Words(text)| {
      var fuel :| HaltsIn(Stops(text), p, 0, fuel) && ChunkRanges(text, p) == Ranges(Stops(text), p, 0, fuel);
      RangesEndRight(Stops(text), p, 0, fuel);
    }
  }

  /** A text with too few words has no chunk, one that a single chunk may hold has exactly one. */
  lemma ShortTextsStayWhole(text: string, p: Params)
    requires Valid(p) && |Words(text)| <= p.max && |Words(text)| <= p.target + p.overlap
    ensures Halts(text, p)
    ensures ChunkRanges(text, p) == if |Words(text)| < p.minParent then [] else [Span(0, |Words(text)|)]
  {
    hide Words, Stops;
    var stops := Stops(text);
    if p.minParent <= |stops| {
      assert EndOf(stops, p, 0) == |stops|;
      assert HaltsIn(stops, p, 0, 1);
    }
  }

  // ----- the code -----

  /** `ChunkSpan`: byte range and number of words. */
  datatype ChunkSpan = ChunkSpan(startByte: nat, endByte: nat, wordCount: nat)

  ghost predicate AreWordsOf(words: seq<Span>, text: string) {
    WordsInText(text, 0);
    words == ToBytes(text, Words(text))
  }

  function SpanFromWords(words: seq<Span>, start: nat, end: nat): ChunkSpan
    requires start < end <= |words|
  {
    ChunkSpan(words[start].lo, words[end - 1].hi, end - start)
  }

  lemma StopBeforeWordEnd(text: string, words: seq<Span>, k: nat)
    requires AreWordsOf(words, text) && k < |words|
    ensures IsBoundary(text, 0) && IsBoundary(text, words[k].hi)
    ensures var prefix := Slice(text, 0, words[k].hi);
            |prefix| > 0 && Stops(text)[k] == IsStop(prefix[|prefix| - 1])
  {
    WordsAreRuns(text, 0, k);
    SliceIsSubstring(text, 0, Words(text)[k].hi);
  }

  lemma StopForEachWord(text: string, words: seq<Span>)
    requires AreWordsOf(words, text)
    ensures |Stops(text)| == |words|
  {
  }

  /** Whether the text up to the end of word k ends a sentence. */
  method EndsSentence(text: string, words: seq<Span>, k: nat) returns (ends: bool)
    requires AreWordsOf(words, text) && k < |words|
    ensures |Stops(text)| == |words| && ends == Stops(text)[k]
  {
    hide WordsFrom, Words, Stops, AreWordsOf, ByteOff;
    StopForEachWord(text, words);
    StopBeforeWordEnd(text, words, k);
    var prefix := Slice(text, 0, words[k].hi);
    ends := IsStop(prefix[|prefix| - 1]);
  }

  method BestSentenceBoundary(text: string, words: seq<Span>, start: nat, targetEnd: nat, hardEnd: nat)
    returns (best: Option<nat>)
    requires AreWordsOf(words, text) && start < targetEnd && hardEnd <= |words|
    ensures var twoThirds := start + (targetEnd - start) * 2 / 3;
            best == BestBoundary(Stops(text), if twoThirds < start + 1 then start + 1 else twoThirds, hardEnd)
  {
    StopForEachWord(text, words);
    hide *;
    var minEnd := start + (targetEnd - start) * 2 / 3;
    if minEnd < start + 1 {
      minEnd := start + 1;
    }
    best := None;
    ghost var stops := Stops(text);
    var idx := minEnd;
    while idx <= hardEnd
      invariant minEnd <= idx && (idx > minEnd ==> idx <= hardEnd + 1)
      invariant if idx == minEnd then best.None? else best == BestBoundary(stops, minEnd, idx - 1)
      decreases hardEnd + 1 - idx
    {
      var ends := EndsSentence(text, words, idx - 1);
      BoundaryStep(stops, minEnd, idx);
      if ends {
        best := Some(idx);
      }
      idx := idx + 1;
    }
    if hardEnd < minEnd {
      NoBoundary(stops, minEnd, hardEnd);
    }
  }

  lemma BoundaryStep(stops: seq<bool>, lo: nat, hi: nat)
    requires 1 <= lo <= hi <= |stops|
    ensures BestBoundary(stops, lo, hi)
         == if stops[hi - 1] then Some(hi) else if hi == lo then None else BestBoundary(stops, lo, hi - 1)
  {
  }

  lemma NoBoundary(stops: seq<bool>, lo: nat, hi: nat)
    requires 1 <= lo && hi < lo && hi <= |stops|
    ensures BestBoundary(stops, lo, hi) == None
  {
  }

  /** Chunks as byte ranges. */
  ghost function ToChunks(words: seq<Span>, r: seq<Span>): (c: seq<ChunkSpan>)
    requires forall s <- r :: s.lo < s.hi <= |words|
    ensures |c| == |r| && forall i :: 0 <= i < |r| ==> c[i] == SpanFromWords(words, r[i].lo, r[i].hi)
  {
    seq(|r|, i requires 0 <= i < |r| => assert r[i] in r; SpanFromWords(words, r[i].lo, r[i].hi))
  }

  lemma ToChunksSnoc(words: seq<Span>, r: seq<Span>, c: Span)
    requires (forall s <- r :: s.lo < s.hi <= |words|) && c.lo < c.hi <= |words|
    ensures forall s <- r + [c] :: s.lo < s.hi <= |words|
    ensures ToChunks(words, r + [c]) == ToChunks(words, r) + [SpanFromWords(words, c.lo, c.hi)]
  {
  }

  /** The search window of the code, cut off at the end of the text, is never cut off where it matters. */
  lemma SearchWindow(stops: seq<bool>, p: Params, start: nat)
    requires Valid(p) && start < |stops| && !FitsRest(|stops|, p, start)
    ensures var end := Min(start + p.target, |stops|);
            var hard := Min(start + p.max, |stops|);
            var twoThirds := start + (end - start) * 2 / 3;
            var boundary := BestBoundary(stops, if twoThirds < start + 1 then start + 1 else twoThirds, hard);
            EndOf(stops, p, start) == match boundary case Some(b) => b case None => hard
  {
    assert start + p.target < |stops|;
    var twoThirds := start + (start + p.target - start) * 2 / 3;
    assert (start + p.target - start) * 2 == 2 * p.target;
    assert start + MinAdvance(p) == if twoThirds < start + 1 then start + 1 else twoThirds;
  }

  /** The end of a chunk that does not take the rest of the text. */
  method ChunkEnd(text: string, words: seq<Span>, p: Params, start: nat) returns (end: nat)
    requires AreWordsOf(words, text) && Valid(p) && start < |words| && !FitsRest(|words|, p, start)
    ensures end == EndOf(Stops(text), p, start)
  {
    end := Min(start + p.target, |words|);
    var hardEnd := Min(start + p.max, |words|);
    var boundary := BestSentenceBoundary(text, words, start, end, hardEnd);
    end := match boundary case Some(b) => b case None => hardEnd;
    SearchWindow(Stops(text), p, start);
  }

  /** One round of the loop, in terms of what is still to come. */
  lemma RangesRound(stops: seq<bool>, p: Params, start: nat, fuel: nat, done: seq<Span>, all: seq<Span>)
    requires Valid(p) && start < |stops| && HaltsIn(stops, p, start, fuel)
    requires all == done + Ranges(stops, p, start, fuel)
    ensures var end := EndOf(stops, p, start);
            && (end >= |stops| ==> all == done + [Span(start, end)])
            && (end < |stops| ==>
                  && fuel > 0 && HaltsIn(stops, p, StepBack(p, end), fuel - 1)
                  && all == done + [Span(start, end)] + Ranges(stops, p, StepBack(p, end), fuel - 1))
  {
  }

  /** The loop of `chunk_spans`. It asks only what it needs to return at all. */
  method ChunkSpans(text: string, p: Params) returns (chunks: seq<ChunkSpan>)
    requires Valid(p) && Halts(text, p)
    ensures forall w <- Words(text) :: w.lo <= |text| && w.hi <= |text|
    ensures chunks == ToChunks(ToBytes(text, Words(text)), ChunkRanges(text, p))
  {
    var words := FindWordSpans(text);
    ghost var stops := Stops(text);
    chunks := [];
    if |words| < p.minParent {
      return;
    }
    ghost var all := ChunkRanges(text, p);
    ghost var fuel: nat :| HaltsIn(stops, p, 0, fuel) && all == Ranges(stops, p, 0, fuel);
    ghost var done: seq<Span> := [];
    var start: nat := 0;
    while start < |words|
      invariant 0 <= fuel && HaltsIn(stops, p, start, fuel)
      invariant forall c <- done :: c.lo < c.hi <= |words|
      invariant chunks == ToChunks(words, done)
      invariant all == done + Ranges(stops, p, start, fuel)
      decreases fuel
    {
      RangesRound(stops, p, start, fuel, done, all);
      ToChunksSnoc(words, done, Span(start, EndOf(stops, p, start)));
      done := done + [Span(start, EndOf(stops, p, start))];
      var remaining := |words| - start;
      if remaining <= p.max && remaining <= p.target + p.overlap {
        chunks := chunks + [SpanFromWords(words, start, |words|)];
        return;
      }
      var end := ChunkEnd(text, words, p, start);
      chunks := chunks + [SpanFromWords(words, start, end)];
      if end >= |words| {
        return;
      }
      start := StepBack(p, end);
      fuel := fuel - 1;
    }
    assert done == all;
  }

  // ----- the text of a chunk -----

  function TrimStart(s: string): string {
    if s != [] && IsWhitespace(s[0]) then TrimStart(s[1..]) else s
  }

  function TrimEnd(s: string): string {
    if s != [] && IsWhitespace(s[|s| - 1]) then TrimEnd(s[..|s| - 1]) else s
  }

  function Trim(s: string): string {
    TrimEnd(TrimStart(s))
  }

  /** The characters from the start of word r.lo to the end of word r.hi - 1 hold exactly those
      words, and neither begin nor end with whitespace. */
  lemma RangeHoldsItsWords(text: string, r: Span)
    requires r.lo < r.hi <= |Words(text)|
    ensures var i, b := Words(text)[r.lo].lo, Words(text)[r.hi - 1].hi;
            && i < b <= |text| && Trim(text[i..b]) == text[i..b]
            && Shift(Words(text[i..b]), i) == Words(text)[r.lo..r.hi]
  {
    var words := Words(text);
    var i := words[r.lo].lo;
    WordsAreRuns(text, 0, r.hi - 1);
    WordsSuffix(text, 0, r.lo);
    var tail := WordsFrom(text, i);
    assert tail == words[r.lo..];
    assert tail[r.hi - r.lo - 1] == words[r.hi - 1];
    WordsAreRuns(text, i, r.hi - r.lo - 1);
    CutWords(text, i, r.hi - r.lo);
    assert tail[..r.hi - r.lo] == words[r.lo..r.hi];
  }

  /** The byte range of a range of words can be sliced without splitting a character, trimming the
      slice changes nothing, and the slice tokenises to exactly the words of the range. */
  lemma ChunkTextIsItsWords(q: Parent, bytes: seq<Span>, r: Span, index: nat)
    requires AreWordsOf(bytes, q.content) && r.lo < r.hi <= |bytes|
    ensures var c := SpanFromWords(bytes, r.lo, r.hi);
            && c.startByte <= c.endByte && IsBoundary(q.content, c.startByte) && IsBoundary(q.content, c.endByte)
            && var s := Slice(q.content, c.startByte, c.endByte);
            && Trim(s) == s
            && ProposedAs(q, r, index, ProposedChunk(q.id, index, s, c.startByte, c.endByte, c.wordCount))
  {
    hide WordsFrom, Slice, IsBoundary, ByteOff, Trim, Shift;
    RangeHoldsItsWords(q.content, r);
    SliceIsSubstring(q.content, Words(q.content)[r.lo].lo, Words(q.content)[r.hi - 1].hi);
  }

  datatype Parent = Parent(id: nat, content: string)

  datatype ProposedChunk = ProposedChunk(
    parent: nat, index: nat, content: string, startByte: nat, endByte: nat, wordCount: nat)

  ghost predicate AllHalt(parents: seq<Parent>, p: Params)
    requires Valid(p)
  {
    forall q <- parents :: Halts(q.content, p)
  }

  /** What the chunks proposed for one parent are: one per range, in order, none for a single range. */
  ghost predicate ProposedFor(q: Parent, p: Params, out: seq<ProposedChunk>)
    requires Valid(p) && Halts(q.content, p)
  {
    var ranges := ChunkRanges(q.content, p);
    && |out| == (if |ranges| <= 1 then 0 else |ranges|)
    && forall i :: 0 <= i < |out| ==> ProposedAs(q, ranges[i], i, out[i])
  }

  /** The chunk's content tokenises to the parent's words of its range. */
  ghost predicate ProposedAs(q: Parent, r: Span, index: nat, c: ProposedChunk)
    requires r.lo < r.hi <= |Words(q.content)|
  {
    && c.parent == q.id && c.index == index
    && IsBoundary(q.content, c.startByte) && IsBoundary(q.content, c.endByte) && c.startByte <= c.endByte
    && c.content == Slice(q.content, c.startByte, c.endByte)
    && c.wordCount == |Words(c.content)|
    && Shift(Words(c.content), Words(q.content)[r.lo].lo) == Words(q.content)[r.lo..r.hi]
  }

  /** Nothing is proposed for a parent that a single chunk may hold. */
  lemma NothingForShortParents(q: Parent, p: Params, out: seq<ProposedChunk>)
    requires Valid(p) && |Words(q.content)| <= p.max && |Words(q.content)| <= p.target + p.overlap
    ensures Halts(q.content, p) && (ProposedFor(q, p, out) ==> out == [])
  {
    hide Words, Halts, ProposedAs;
    ShortTextsStayWhole(q.content, p);
  }

  ghost predicate ProposedForAll(parents: seq<Parent>, p: Params, out: seq<ProposedChunk>)
    requires Valid(p) && AllHalt(parents, p)
  {
    if parents == [] then out == []
    else
      var q := parents[|parents| - 1];
      exists cut: nat :: cut <= |out| && ProposedFor(q, p, out[cut..])
                         && ProposedForAll(parents[..|parents| - 1], p, out[..cut])
  }

  lemma ProposedNothing(parents: seq<Parent>, p: Params)
    requires Valid(p) && AllHalt(parents, p)
    ensures ProposedForAll(parents[..0], p, [])
  {
  }

  lemma ProposedNext(parents: seq<Parent>, k: nat, p: Params, out: seq<ProposedChunk>, mine: seq<ProposedChunk>)
    requires Valid(p) && AllHalt(parents, p) && k < |parents|
    ensures ProposedForAll(parents[..k], p, out) && ProposedFor(parents[k], p, mine)
        ==> ProposedForAll(parents[..k + 1], p, out + mine)
  {
    hide Halts, ProposedFor;
    assert parents[..k + 1][..k] == parents[..k];
    assert (out + mine)[|out|..] == mine && (out + mine)[..|out|] == out;
  }

  method ProposeChunks(parents: seq<Parent>, p: Params) returns (out: seq<ProposedChunk>)
    requires Valid(p) && AllHalt(parents, p)
    ensures ProposedForAll(parents, p, out)
  {
    hide ProposedForAll, ProposedFor, Halts;
    out := [];
    ProposedNothing(parents, p);
    for k := 0 to |parents|
      invariant ProposedForAll(parents[..k], p, out)
    {
      var mine := ProposeFor(parents[k], p);
      ProposedNext(parents, k, p, out, mine);
      out := out + mine;
    }
    assert parents[..|parents|] == parents;
  }

  /** The inner loop of `propose_chunks`. */
  method ProposeFor(q: Parent, p: Params) returns (out: seq<ProposedChunk>)
    requires Valid(p) && Halts(q.content, p)
    ensures ProposedFor(q, p, out)
  {
    hide WordsFrom, Words, Halts, ChunkRanges, ProposedAs, ByteOff, IsBoundary, Slice, Trim;
    out := [];
    var spans := ChunkSpans(q.content, p);
    if |spans| <= 1 {
      return;
    }
    ghost var ranges := ChunkRanges(q.content, p);
    ghost var bytes := ToBytes(q.content, Words(q.content));
    for idx := 0 to |spans|
      invariant |out| == idx && forall i :: 0 <= i < idx ==> ProposedAs(q, ranges[i], i, out[i])
    {
      var span := spans[idx];
      assert ranges[idx] in ranges;
      ChunkTextIsItsWords(q, bytes, ranges[idx], idx);
      var content := Trim(Slice(q.content, span.startByte, span.endByte));
      out := out + [ProposedChunk(q.id, idx, content, span.startByte, span.endByte, span.wordCount)];
    }
  }
}
