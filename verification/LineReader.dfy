/** Reading the complete lines of an append-only log from a byte offset. */
module LineReader {
  import opened Common

  newtype Byte = b: int | 0 <= b < 256

  const NEWLINE: Byte := 10

  type Bytes = seq<Byte>

  /** A complete line: bytes [start, end) of the file, the last of which is the newline. */
  datatype Line = Line(start: nat, end: nat)

  /** The first newline at or after i, or the length of the data. */
  function FindNewline(data: Bytes, i: nat): (k: nat)
    requires i <= |data|
    ensures i <= k <= |data|
    ensures forall j :: i <= j < k ==> data[j] != NEWLINE
    ensures k < |data| ==> data[k] == NEWLINE
    decreases |data| - i
  {
    if i == |data| || data[i] == NEWLINE then i else FindNewline(data, i + 1)
  }

  /** The newline split of the data from offset `from`: its complete lines. */
  function Split(data: Bytes, from: nat): seq<Line>
    requires from <= |data|
    decreases |data| - from
  {
    var k := FindNewline(data, from);
    if k == |data| then [] else [Line(from, k + 1)] + Split(data, k + 1)
  }

  function EndOf(lines: seq<Line>, from: nat): nat {
    if lines == [] then from else lines[|lines| - 1].end
  }

  function LineText(data: Bytes, l: Line): Bytes
    requires l.start < l.end <= |data|
  {
    data[l.start..l.end - 1]
  }

  /** Non-empty byte ranges, the first from `from` on and each where the last one ended. */
  ghost predicate Chain(lines: seq<Line>, from: nat) {
    lines == [] || (lines[0].start == from && from < lines[0].end && Chain(lines[1..], lines[0].end))
  }

  lemma {:induction false} SplitIsChain(data: Bytes, from: nat)
    requires from <= |data|
    ensures Chain(Split(data, from), from) && from <= EndOf(Split(data, from), from) <= |data|
    decreases |data| - from
  {
    var k := FindNewline(data, from);
    if k < |data| {
      SplitIsChain(data, k + 1);
      assert Split(data, from)[1..] == Split(data, k + 1);
    }
  }

  lemma {:induction false} ChainAt(lines: seq<Line>, from: nat, i: nat)
    requires Chain(lines, from) && i < |lines|
    ensures from <= lines[i].start < lines[i].end <= EndOf(lines, from)
    ensures i > 0 ==> lines[i - 1].end == lines[i].start
    decreases |lines|
  {
    if i > 0 {
      ChainAt(lines[1..], lines[0].end, i - 1);
    } else if |lines| > 1 {
      ChainAt(lines[1..], lines[0].end, 0);
    }
  }

  lemma LinesWithin(data: Bytes, from: nat)
    requires from <= |data|
    ensures forall l <- Split(data, from) :: from <= l.start < l.end <= |data|
  {
    SplitIsChain(data, from);
    forall i | 0 <= i < |Split(data, from)|
      ensures from <= Split(data, from)[i].start < Split(data, from)[i].end <= |data|
    {
      ChainAt(Split(data, from), from, i);
    }
  }

  /** What the split is: every line ends with a newline and has no other, each starts where the last one
      ended, and no newline follows the last. */
  lemma {:induction false} SplitIsExact(data: Bytes, from: nat)
    requires from <= |data|
    ensures var lines := Split(data, from);
            && Chain(lines, from) && EndOf(lines, from) <= |data|
            && (forall l <- lines :: from <= l.start < l.end <= |data| && data[l.end - 1] == NEWLINE
                                     && forall j :: l.start <= j < l.end - 1 ==> data[j] != NEWLINE)
            && forall j :: EndOf(lines, from) <= j < |data| ==> data[j] != NEWLINE
    decreases |data| - from
  {
    var k := FindNewline(data, from);
    if k < |data| {
      SplitIsExact(data, k + 1);
      SplitIsChain(data, from);
      var rest := Split(data, k + 1);
      assert Split(data, from) == [Line(from, k + 1)] + rest;
      assert EndOf(Split(data, from), from) == EndOf(rest, k + 1);
    }
  }

  /** Lines end in the order they stand in the file. */
  lemma {:induction false} ChainIncreases(lines: seq<Line>, from: nat, i: nat, j: nat)
    requires Chain(lines, from) && i < j < |lines|
    ensures lines[i].end <= lines[j].start < lines[j].end
    decreases j
  {
    ChainAt(lines, from, j);
    if i + 1 < j {
      ChainIncreases(lines, from, i, j - 1);
    }
  }

  /** Splitting can stop after any line and resume at its end. */
  lemma {:induction false} SplitResumes(data: Bytes, from: nat, n: nat)
    requires from <= |data| && n <= |Split(data, from)|
    ensures var first := Split(data, from)[..n];
            && from <= EndOf(first, from) <= |data|
            && Split(data, from) == first + Split(data, EndOf(first, from))
    decreases n
  {
    if n > 0 {
      var k := FindNewline(data, from);
      var rest := Split(data, k + 1);
      SplitResumes(data, k + 1, n - 1);
      assert Split(data, from)[..n] == [Line(from, k + 1)] + rest[..n - 1];
      assert EndOf(Split(data, from)[..n], from) == EndOf(rest[..n - 1], k + 1);
    }
  }

  lemma PrefixCons(l: Line, a: seq<Line>, b: seq<Line>)
    requires a <= b
    ensures [l] + a <= [l] + b
  {
  }

  /** Appending to the file keeps the lines that were complete. */
  lemma {:induction false} SplitGrows(data: Bytes, more: Bytes, from: nat)
    requires from <= |data|
    ensures Split(data, from) <= Split(data + more, from)
    decreases |data| - from
  {
    var k := FindNewline(data, from);
    if k < |data| {
      NewlineStays(data, more, from);
      SplitGrows(data, more, k + 1);
      PrefixCons(Line(from, k + 1), Split(data, k + 1), Split(data + more, k + 1));
      assert Split(data + more, from) == [Line(from, k + 1)] + Split(data + more, k + 1);
    }
  }

  lemma {:induction false} NewlineStays(data: Bytes, more: Bytes, i: nat)
    requires i <= |data| && FindNewline(data, i) < |data|
    ensures FindNewline(data + more, i) == FindNewline(data, i)
    decreases |data| - i
  {
    if i < |data| {
      assert (data + more)[i] == data[i];
      if data[i] != NEWLINE {
        NewlineStays(data, more, i + 1);
      }
    }
  }

  // ----- one bounded read -----

  /** The part of the file that a read of at most maxBytes sees. */
  function Reach(data: Bytes, from: nat, maxBytes: nat): (w: Bytes)
    requires from <= |data|
    ensures from <= |w| <= |data|
  {
    data[..from + Min(|data| - from, maxBytes)]
  }

  /** The lines of one read: those complete within the window, at most maxLines of them. The count
      is checked after a line is taken, so a cap of 0 still takes one. */
  function ReadLines(data: Bytes, from: nat, maxBytes: nat, maxLines: nat): seq<Line>
    requires from <= |data|
  {
    var all := Split(Reach(data, from, maxBytes), from);
    all[..Min(|all|, if maxLines == 0 then 1 else maxLines)]
  }

  /** A read takes the next lines of the file, whatever the caps. */
  lemma ReadTakesNext(data: Bytes, from: nat, maxBytes: nat, maxLines: nat)
    requires from <= |data|
    ensures var lines := ReadLines(data, from, maxBytes, maxLines);
            && lines <= Split(data, from)
            && from <= EndOf(lines, from) <= |data|
            && Split(data, from) == lines + Split(data, EndOf(lines, from))
  {
    var w := Reach(data, from, maxBytes);
    assert data == w + data[|w|..];
    SplitGrows(w, data[|w|..], from);
    var lines := ReadLines(data, from, maxBytes, maxLines);
    assert lines == Split(data, from)[..|lines|];
    SplitResumes(data, from, |lines|);
  }

  /** A read returns a line exactly when one is complete within the byte cap. */
  lemma {:induction false} ReadProgresses(data: Bytes, from: nat, maxBytes: nat, maxLines: nat)
    requires from <= |data|
    ensures ReadLines(data, from, maxBytes, maxLines) != []
            <==> exists k :: from <= k < |data| && k < from + maxBytes && data[k] == NEWLINE
  {
    var w := Reach(data, from, maxBytes);
    var k := FindNewline(w, from);
    if k < |w| {
      assert data[k] == w[k];
    } else {
      assert forall j :: from <= j < |w| ==> data[j] == w[j];
    }
  }

  /** A read stops only at a cap: it takes at most maxLines lines (or one) and stays within the byte cap, and
      when it takes fewer no other line is complete within that. */
  lemma ReadIsFull(data: Bytes, from: nat, maxBytes: nat, maxLines: nat)
    requires from <= |data|
    ensures var lines := ReadLines(data, from, maxBytes, maxLines);
            && |lines| <= (if maxLines == 0 then 1 else maxLines)
            && EndOf(lines, from) <= from + maxBytes
            && (|lines| < maxLines || lines == [] ==>
                  forall j :: EndOf(lines, from) <= j < |data| && j < from + maxBytes ==> data[j] != NEWLINE)
  {
    var w := Reach(data, from, maxBytes);
    var all := Split(w, from);
    SplitIsExact(w, from);
    var lines := ReadLines(data, from, maxBytes, maxLines);
    SplitResumes(w, from, |lines|);
    SplitIsChain(w, EndOf(lines, from));
    if |lines| == |all| {
      assert lines == all;
      forall j | EndOf(lines, from) <= j < |data| && j < from + maxBytes ensures data[j] != NEWLINE {
        assert data[j] == w[j];
      }
    }
  }

  /** A scan of w from `from` has taken `lines`, the last of which ends at i, and has seen no newline
      between i and k. */
  ghost predicate Scanned(w: Bytes, from: nat, lines: seq<Line>, i: nat, k: nat) {
    && from <= i <= k <= |w| && EndOf(lines, from) == i
    && Split(w, from) == lines + Split(w, i)
    && forall j :: i <= j < k ==> w[j] != NEWLINE
  }

  lemma ScanStep(w: Bytes, from: nat, lines: seq<Line>, i: nat, k: nat)
    requires Scanned(w, from, lines, i, k) && k < |w|
    ensures w[k] != NEWLINE ==> Scanned(w, from, lines, i, k + 1)
    ensures w[k] == NEWLINE ==> Scanned(w, from, lines + [Line(i, k + 1)], k + 1, k + 1)
    ensures w[k] == NEWLINE ==> lines + [Line(i, k + 1)] <= Split(w, from)
  {
    if w[k] == NEWLINE {
      NewlineAt(w, i, k);
      assert Split(w, i) == [Line(i, k + 1)] + Split(w, k + 1);
      assert lines + Split(w, i) == lines + [Line(i, k + 1)] + Split(w, k + 1);
    }
  }

  lemma ScanEnd(w: Bytes, from: nat, lines: seq<Line>, i: nat)
    requires Scanned(w, from, lines, i, |w|)
    ensures Split(w, from) == lines && EndOf(lines, from) == i
  {
    NewlineAt(w, i, |w|);
  }

  /** What the session reader returns when it stops at k: at the line cap or at the end. */
  lemma ScanStops(data: Bytes, from: nat, maxBytes: nat, maxLines: nat, lines: seq<Line>, i: nat, k: nat)
    requires from <= |data| && Scanned(Reach(data, from, maxBytes), from, lines, i, k)
    requires var cap := if maxLines == 0 then 1 else maxLines;
             |lines| == cap || (k == |Reach(data, from, maxBytes)| && |lines| < cap)
    ensures lines == ReadLines(data, from, maxBytes, maxLines) && i == EndOf(lines, from)
  {
    var w := Reach(data, from, maxBytes);
    if k == |w| {
      ScanEnd(w, from, lines, i);
    }
  }

  lemma NothingToRead(data: Bytes, maxBytes: nat, maxLines: nat)
    ensures ReadLines(data, |data|, maxBytes, maxLines) == [] && EndOf([], |data|) == |data|
  {
  }

  lemma ScanStart(w: Bytes, from: nat)
    requires from <= |w|
    ensures Scanned(w, from, [], from, from)
  {
  }

  /** `readNewLines` of the session producer. */
  method ReadNewLines(data: Bytes, fromOffset: nat, maxBytes: nat, maxLines: nat)
    returns (lines: seq<Line>, nextOffset: nat)
    ensures |data| <= fromOffset ==> lines == [] && nextOffset == fromOffset
    ensures fromOffset <= |data| ==>
              && lines == ReadLines(data, fromOffset, maxBytes, maxLines)
              && nextOffset == EndOf(lines, fromOffset)
  {
    hide Split, FindNewline, Reach, EndOf, Scanned, ReadLines;
    lines, nextOffset := [], fromOffset;
    if |data| <= fromOffset {
      if fromOffset <= |data| {
        NothingToRead(data, maxBytes, maxLines);
      }
      return;
    }
    ghost var w := Reach(data, fromOffset, maxBytes);
    var buf := Reach(data, fromOffset, maxBytes)[fromOffset..];
    ScanStart(w, fromOffset);
    var lineStart: nat := 0;
    for idx := 0 to |buf|
      invariant lineStart <= idx && nextOffset == fromOffset + lineStart
      invariant Scanned(w, fromOffset, lines, nextOffset, fromOffset + idx)
      invariant |lines| < (if maxLines == 0 then 1 else maxLines)
    {
      ScanStep(w, fromOffset, lines, nextOffset, fromOffset + idx);
      if buf[idx] == NEWLINE {
        lines := lines + [Line(fromOffset + lineStart, fromOffset + idx + 1)];
        lineStart := idx + 1;
        nextOffset := fromOffset + idx + 1;
        if |lines| >= maxLines {
          ScanStops(data, fromOffset, maxBytes, maxLines, lines, nextOffset, fromOffset + idx + 1);
          return;
        }
      }
    }
    ScanStops(data, fromOffset, maxBytes, maxLines, lines, nextOffset, |w|);
  }

  lemma {:induction false} NewlineAt(data: Bytes, i: nat, k: nat)
    requires i <= k <= |data| && (forall j :: i <= j < k ==> data[j] != NEWLINE)
    requires k == |data| || data[k] == NEWLINE
    ensures FindNewline(data, i) == k
    decreases k - i
  {
    if i < k {
      NewlineAt(data, i + 1, k);
    }
  }

  datatype CompleteLines = Lines(lines: seq<Line>, nextOffset: nat) | ShrinkGuard(heldOffset: nat, size: nat)

  /** `readCompleteLines` of the Telegram producer: no line cap, and a file that shrank below the
      saved offset is an error. */
  method ReadCompleteLines(data: Bytes, fromOffset: nat, maxBytes: nat) returns (r: CompleteLines)
    ensures |data| < fromOffset ==> r == ShrinkGuard(fromOffset, |data|)
    ensures fromOffset <= |data| ==>
              var lines := Split(Reach(data, fromOffset, maxBytes), fromOffset);
              r == Lines(lines, EndOf(lines, fromOffset))
  {
    if |data| < fromOffset {
      return ShrinkGuard(fromOffset, |data|);
    }
    ghost var w := Reach(data, fromOffset, maxBytes);
    var buf := Reach(data, fromOffset, maxBytes)[fromOffset..];
    hide Split, FindNewline, Reach, EndOf, Scanned;
    ScanStart(w, fromOffset);
    var lines: seq<Line>, lineStart: nat, nextOffset := [], 0, fromOffset;
    for idx := 0 to |buf|
      invariant lineStart <= idx && nextOffset == fromOffset + lineStart
      invariant Scanned(w, fromOffset, lines, nextOffset, fromOffset + idx)
    {
      ScanStep(w, fromOffset, lines, nextOffset, fromOffset + idx);
      if buf[idx] == NEWLINE {
        lines := lines + [Line(fromOffset + lineStart, fromOffset + idx + 1)];
        lineStart := idx + 1;
        nextOffset := fromOffset + idx + 1;
      }
    }
    ScanEnd(w, fromOffset, lines, nextOffset);
    return Lines(lines, nextOffset);
  }

  // ----- successive reads of a growing file -----

  datatype Step = Append(more: Bytes) | Read(maxBytes: nat, maxLines: nat)

  datatype Tail = Tail(data: Bytes, offset: nat, lines: seq<Line>)

  /** A file being appended to while a reader follows it, each read starting where the last ended. */
  function Follow(t: Tail, steps: seq<Step>): (r: Tail)
    requires t.offset <= |t.data|
    ensures r.offset <= |r.data| && |t.data| <= |r.data|
    decreases |steps|
  {
    if steps == [] then t
    else
      match steps[0]
      case Append(more) => Follow(t.(data := t.data + more), steps[1..])
      case Read(maxBytes, maxLines) =>
        ReadTakesNext(t.data, t.offset, maxBytes, maxLines);
        var lines := ReadLines(t.data, t.offset, maxBytes, maxLines);
        Follow(Tail(t.data, EndOf(lines, t.offset), t.lines + lines), steps[1..])
  }

  /** However reads and appends interleave and whatever the caps, the lines read so far are the
      newline split of the final file up to the current offset. */
  lemma {:induction false} FollowSplits(t: Tail, steps: seq<Step>, from: nat)
    requires from <= t.offset <= |t.data|
    requires Split(t.data, from) == t.lines + Split(t.data, t.offset) && EndOf(t.lines, from) == t.offset
    ensures var r := Follow(t, steps);
            && from <= r.offset <= |r.data| && EndOf(r.lines, from) == r.offset
            && Split(r.data, from) == r.lines + Split(r.data, r.offset)
    decreases |steps|
  {
    hide Split;
    if steps != [] {
      match steps[0]
      case Append(more) =>
        SplitGrows(t.data, more, from);
        assert t.lines == Split(t.data + more, from)[..|t.lines|];
        SplitResumes(t.data + more, from, |t.lines|);
        FollowSplits(t.(data := t.data + more), steps[1..], from);
      case Read(maxBytes, maxLines) =>
        ReadTakesNext(t.data, t.offset, maxBytes, maxLines);
        var lines := ReadLines(t.data, t.offset, maxBytes, maxLines);
        FollowSplits(Tail(t.data, EndOf(lines, t.offset), t.lines + lines), steps[1..], from);
    }
  }

  lemma FirstLine(data: Bytes, from: nat)
    requires from <= |data|
    ensures Split(data, from) != [] ==>
              var l := Split(data, from)[0];
              l.start == from && from < l.end <= |data| && data[l.end - 1] == NEWLINE
  {
  }

  /** Once a read with a byte cap no line exceeds comes back empty, the lines read are the whole
      split: incremental reading equals splitting once. */
  lemma IncrementalEqualsOneShot(data: Bytes, from: nat, steps: seq<Step>, maxBytes: nat, maxLines: nat)
    requires from <= |data|
    requires var r := Follow(Tail(data, from, []), steps);
             && (forall l <- Split(r.data, from) :: l.end - l.start <= maxBytes)
             && ReadLines(r.data, r.offset, maxBytes, maxLines) == []
    ensures var r := Follow(Tail(data, from, []), steps);
            r.lines == Split(r.data, from) && Chain(r.lines, from)
  {
    hide Split;
    FollowSplits(Tail(data, from, []), steps, from);
    var r := Follow(Tail(data, from, []), steps);
    SplitIsChain(r.data, from);
    FirstLine(r.data, r.offset);
    if Split(r.data, r.offset) != [] {
      assert Split(r.data, r.offset)[0] in Split(r.data, from);
      ReadProgresses(r.data, r.offset, maxBytes, maxLines);
      assert false;
    }
  }
}
