/** Repeated passes over a capture file that does not change, and two ways in which the producer
    does less than it looks. */
module TelegramRuns {
  import opened LineReader
  import opened TelegramWindows
  import opened TelegramProducer
  import opened TelegramLiveness
  import opened TelegramFile
  import opened TelegramSafety
  import opened TelegramWork
  import opened TelegramEndings
  import opened TelegramRecords
  import opened TelegramTexts

  // ----- rows of a batch -----

  lemma {:induction false} CountOfDistinct(rows: seq<Row>, x: Row)
    requires DistinctRowsOf(rows)
    ensures multiset(rows)[x] <= 1
  {
    if rows != [] {
      var (rest, y) := (rows[..|rows| - 1], rows[|rows| - 1]);
      CountOfDistinct(rest, x);
      assert rows == rest + [y];
    }
  }

  lemma TwiceInB(b: seq<Row>, i: nat, j: nat)
    requires i < j < |b| && b[i] == b[j]
    ensures multiset(b)[b[i]] >= 2
  {
    assert b == b[..j] + [b[j]] + b[j + 1..];
    assert b[i] in b[..j];
  }

  lemma PermutationDistinct(a: seq<Row>, b: seq<Row>)
    requires DistinctRowsOf(a) && multiset(a) == multiset(b)
    ensures DistinctRowsOf(b)
  {
    forall i, j | 0 <= i < j < |b| ensures b[i] != b[j] {
      if b[i] == b[j] {
        TwiceInB(b, i, j);
        CountOfDistinct(a, b[i]);
        assert false;
      }
    }
  }

  lemma PermutationDistinctIds(a: seq<Row>, b: seq<Row>)
    requires DistinctIds(a) && multiset(a) == multiset(b)
    ensures DistinctIds(b)
  {
    assert DistinctRowsOf(a) by {
      assert forall i, j :: 0 <= i < j < |a| ==> OtherMessage(a[i], a[j]);
    }
    PermutationDistinct(a, b);
    forall i, j | 0 <= i < j < |b| ensures OtherMessage(b[i], b[j]) {
      assert b[i] in multiset(b) && b[j] in multiset(b);
      assert b[i] in a && b[j] in a;
      var k :| 0 <= k < |a| && a[k] == b[i];
      var l :| 0 <= l < |a| && a[l] == b[j];
      assert k < l ==> OtherMessage(a[k], a[l]);
      assert l < k ==> OtherMessage(a[l], a[k]);
    }
  }

  // ----- repeated runs over one file -----

  /** The caps, the parser and the outside world of a run. */
  datatype Setup = Setup(maxBytes: nat, maxRecords: nat, parse: Parser, world: World)

  ghost function LinesAt(f: File, data: Bytes, u: Setup): (lines: seq<Line>)
    requires f.offset <= |data|
    ensures forall l <- lines :: l.start < l.end <= |data|
  {
    LinesWithin(Reach(data, f.offset, u.maxBytes), f.offset);
    Split(Reach(data, f.offset, u.maxBytes), f.offset)
  }

  /** What a pass over the batch visits. */
  ghost function TraceAt(f: File, data: Bytes, u: Setup): (t: seq<Visit>)
    requires f.offset <= |data| && u.maxRecords > 0
    ensures Visits(t)
  {
    BatchTrace(BatchAt(f, data, u), u.world)
  }

  ghost function BatchAt(f: File, data: Bytes, u: Setup): (ws: seq<Window>)
    requires f.offset <= |data| && u.maxRecords > 0
    ensures forall w <- ws :: w.rows != []
  {
    WindowsAt(f.offset, data, u.maxBytes, u.maxRecords, u.parse)
  }

  /** One run: prune the attempt counters to the pending windows, then pass over the file. */
  ghost function RunOnce(f: File, data: Bytes, u: Setup): Pass
    requires f.offset <= |data| && u.maxRecords > 0
  {
    var pruned := File(f.offset, PruneTo(f.state, AllPendingKeys(BatchAt(f, data, u))));
    FilePass(pruned, data, u.maxBytes, u.maxRecords, u.parse, u.world)
  }

  lemma RunStaysInFile(f: File, data: Bytes, u: Setup)
    requires f.offset <= |data| && u.maxRecords > 0
    ensures RunOnce(f, data, u).file.offset <= |data|
  {
    var w := Reach(data, f.offset, u.maxBytes);
    SplitIsChain(w, f.offset);
    InvalidAreLines(data, LinesAt(f, data, u), u.parse);
  }

  lemma {:induction false} InvalidAreLines(data: Bytes, lines: seq<Line>, parse: Parser)
    requires forall l <- lines :: l.start < l.end <= |data|
    ensures forall l <- InvalidLines(data, lines, parse) :: l in lines
  {
    if lines != [] {
      InvalidAreLines(data, lines[..|lines| - 1], parse);
    }
  }

  ghost function Runs(f: File, data: Bytes, u: Setup, n: nat): (r: File)
    requires f.offset <= |data| && u.maxRecords > 0
    ensures r.offset <= |data|
  {
    if n == 0 then f
    else
      RunStaysInFile(Runs(f, data, u, n - 1), data, u);
      RunOnce(Runs(f, data, u, n - 1), data, u).file
  }

  /** Message ids that do not repeat within a chat keep the source refs of a batch apart, whatever is
      split. */
  lemma DistinctIdsKeepApart(f: File, data: Bytes, u: Setup)
    requires f.offset <= |data| && u.maxRecords > 0
    requires DistinctIds(ValidRows(data, LinesAt(f, data, u), u.parse))
    ensures RefsApart(TraceAt(f, data, u))
  {
    hide Split, ValidRows, BuildWindows, DistinctIds, RefsApart, RowsOf, RowsOfItems, Trace, OfOneChat;
    var (rows, ws) := (ValidRows(data, LinesAt(f, data, u), u.parse), BatchAt(f, data, u));
    WindowsConserveRows(rows, u.maxRecords);
    PermutationDistinctIds(rows, RowsOf(ws));
    RowsOfBatch(ws);
    forall i <- ItemsOf(ws) ensures OfOneChat(i.window) {
      assert i.window in ws;
      GoodIsOfOneChat(i.window, u.maxRecords);
    }
    DistinctIdsApart(ItemsOf(ws), u.world);
  }

  lemma GoodIsOfOneChat(w: Window, n: nat)
    requires GoodWindow(w, n)
    ensures OfOneChat(w)
  {
  }

  /** Bounded poison liveness of a file. Take a batch whose windows have their own source refs (as they
      have if no message id repeats within a chat), that behaves the same in every run, of which nothing
      inconsistent is on file, and in which no window visited before one that always fails has its
      attempt key. With P the cost of the batch, at most five per final window, the first P runs throw
      and hold the offset; run P + 1 moves the offset to the end of the batch with every window settled:
      quarantined if it always fails, published with its own text or judged noise if not. A batch with
      invalid rows is held by no run that throws, so for it this is said of cost 0 alone. */
  lemma {:induction false} FileCompletes(f: File, data: Bytes, u: Setup, n: nat)
    requires f.offset <= |data| && u.maxRecords > 0
    requires var t := TraceAt(f, data, u);
             && RefsApart(t) && FitsTrace(f.state, t, u.world) && KeysClear(f.state, t, u.world)
             && n <= TraceCost(f.state, t, u.world)
             && (InvalidLines(data, LinesAt(f, data, u), u.parse) == [] || TraceCost(f.state, t, u.world) == 0)
    ensures var t := TraceAt(f, data, u);
            var cost := TraceCost(f.state, t, u.world);
            var next := RunOnce(Runs(f, data, u, n), data, u);
            && cost <= 5 * WholeCount(t)
            && Runs(f, data, u, n).offset == f.offset
            && (n < cost ==> next.threw && next.file.offset == f.offset)
            && (n == cost ==> !next.threw && next.file.offset == EndOf(LinesAt(f, data, u), f.offset)
                              && SettledTrace(next.file.state, t, u.world))
  {
    hide FitsTrace, TraceCost, SettledTrace, KeysClear, RefsApart, WholeCount, ValidRows, InvalidLines,
         BuildWindows, Split, AfterPass, OnePass, RunOnce, BatchTrace;
    var ws := BatchAt(f, data, u);
    TraceCostBound(f.state, TraceAt(f, data, u), u.world);
    RunsFollowPasses(f, data, u, n);
    PassesToCompletion(f.state, ws, u.world, n);
    SameBatch(f, Runs(f, data, u, n), data, u);
    RunIsPass(Runs(f, data, u, n), data, u);
  }

  /** And the condition on attempt keys is exact: of batches without invalid rows, those that are ever
      got through are the ones in which no window visited before one that always fails, and is not
      quarantined yet, has its attempt key. */
  lemma FileCompletesIff(f: File, data: Bytes, u: Setup)
    requires f.offset <= |data| && u.maxRecords > 0
    requires InvalidLines(data, LinesAt(f, data, u), u.parse) == []
    requires var t := TraceAt(f, data, u); RefsApart(t) && FitsTrace(f.state, t, u.world)
    ensures (exists n: nat :: !RunOnce(Runs(f, data, u, n), data, u).threw)
       <==> KeysClear(f.state, TraceAt(f, data, u), u.world)
  {
    hide FitsTrace, TraceCost, SettledTrace, KeysClear, RefsApart, WholeCount, ValidRows, InvalidLines,
         BuildWindows, Split, AfterPass, OnePass, RunOnce, BatchTrace, Runs;
    var t := TraceAt(f, data, u);
    if KeysClear(f.state, t, u.world) {
      FileCompletes(f, data, u, TraceCost(f.state, t, u.world));
    } else {
      StallKeys(f.state, t, u.world);
      var i, j :| 0 <= i < j < |t| && Doomed(f.state, t[j], u.world) && KeyOf(t[i].window) == KeyOf(t[j].window);
      forall n: nat ensures RunOnce(Runs(f, data, u, n), data, u).threw {
        StalledRuns(f, data, u, i, j, n);
        StallsForever(f.state, BatchAt(f, data, u), u.world, i, j, n);
        SameBatch(f, Runs(f, data, u, n), data, u);
        RunIsPass(Runs(f, data, u, n), data, u);
      }
    }
  }

  lemma StallKeys(s: State, t: seq<Visit>, world: World)
    requires Visits(t) && !KeysClear(s, t, world)
    ensures exists i, j :: 0 <= i < j < |t| && Doomed(s, t[j], world) && KeyOf(t[i].window) == KeyOf(t[j].window)
  {
    hide Doomed, KeyOf;
  }

  lemma {:induction false} StalledRuns(f: File, data: Bytes, u: Setup, i: nat, j: nat, n: nat)
    requires f.offset <= |data| && u.maxRecords > 0
    requires InvalidLines(data, LinesAt(f, data, u), u.parse) == []
    requires var t := TraceAt(f, data, u);
             && RefsApart(t) && FitsTrace(f.state, t, u.world) && i < j < |t|
             && Doomed(f.state, t[j], u.world) && KeyOf(t[i].window) == KeyOf(t[j].window)
    ensures Runs(f, data, u, n) == File(f.offset, AfterPasses(f.state, BatchAt(f, data, u), u.world, n))
  {
    hide FitsTrace, RefsApart, Doomed, KeyOf, ValidRows, InvalidLines, BatchAt, LinesAt, RunOnce, AfterPass,
         OnePass, BatchTrace;
    if n > 0 {
      StalledRuns(f, data, u, i, j, n - 1);
      StallsForever(f.state, BatchAt(f, data, u), u.world, i, j, n - 1);
      SameBatch(f, Runs(f, data, u, n - 1), data, u);
      RunIsPass(Runs(f, data, u, n - 1), data, u);
    }
  }

  /** A file of which nothing is on file yet: the number of throwing runs can be read off what its windows
      do. */
  lemma FreshFileCompletes(f: File, data: Bytes, u: Setup)
    requires f.offset <= |data| && u.maxRecords > 0 && f.state.seen == map[] && f.state.attempts == map[]
    requires InvalidLines(data, LinesAt(f, data, u), u.parse) == []
    requires var t := TraceAt(f, data, u); RefsApart(t) && KeysClear(f.state, t, u.world)
    ensures var t := TraceAt(f, data, u);
            var cost := FreshCost(t, u.world);
            var last := RunOnce(Runs(f, data, u, cost), data, u);
            && (forall n: nat :: n < cost ==> RunOnce(Runs(f, data, u, n), data, u).threw)
            && !last.threw && last.file.offset == EndOf(LinesAt(f, data, u), f.offset)
            && SettledTrace(last.file.state, t, u.world)
  {
    hide TraceCost, SettledTrace, KeysClear, RefsApart, WholeCount, ValidRows, InvalidLines, BuildWindows, Split,
         RunOnce, BatchTrace, FreshCost, Runs;
    var t := TraceAt(f, data, u);
    FreshCostIsCost(f.state, t, u.world);
    var cost := FreshCost(t, u.world);
    forall n: nat | n <= cost
      ensures var next := RunOnce(Runs(f, data, u, n), data, u);
              && (n < cost ==> next.threw)
              && (n == cost ==> !next.threw && next.file.offset == EndOf(LinesAt(f, data, u), f.offset)
                                && SettledTrace(next.file.state, t, u.world))
    {
      FileCompletes(f, data, u, n);
    }
  }

  /** A run, in terms of the passes of `TelegramLiveness`. */
  lemma RunIsPass(f: File, data: Bytes, u: Setup)
    requires f.offset <= |data| && u.maxRecords > 0
    ensures var ws := BatchAt(f, data, u);
            var bad := InvalidLines(data, LinesAt(f, data, u), u.parse);
            var run := RunOnce(f, data, u);
            && run.file.state == AfterPass(f.state, ws, u.world)
            && run.threw == OnePass(f.state, ws, u.world).result.Threw?
            && run.file.offset == if run.threw then EndOf(bad, f.offset) else EndOf(LinesAt(f, data, u), f.offset)
  {
    hide Split, ProcessAll, ApplyAll, BuildWindows, ValidRows, InvalidLines, PruneTo, AllPendingKeys;
    if ValidRows(data, LinesAt(f, data, u), u.parse) == [] {
      NoRowsNoWindows(u.maxRecords);
      NothingLeft(PruneTo(f.state, AllPendingKeys(BatchAt(f, data, u))), u.world);
      ApplyNone(PruneTo(f.state, AllPendingKeys(BatchAt(f, data, u))));
    }
  }

  /** While runs throw, they repeat the same batch on the state of the passes before. */
  lemma {:induction false} RunsFollowPasses(f: File, data: Bytes, u: Setup, n: nat)
    requires f.offset <= |data| && u.maxRecords > 0
    requires var t := TraceAt(f, data, u);
             && RefsApart(t) && FitsTrace(f.state, t, u.world) && KeysClear(f.state, t, u.world)
             && n <= TraceCost(f.state, t, u.world)
             && (InvalidLines(data, LinesAt(f, data, u), u.parse) == [] || TraceCost(f.state, t, u.world) == 0)
    ensures Runs(f, data, u, n) == File(f.offset, AfterPasses(f.state, BatchAt(f, data, u), u.world, n))
  {
    hide FitsTrace, TraceCost, SettledTrace, KeysClear, RefsApart, ValidRows, InvalidLines, BatchAt, LinesAt,
         RunOnce, AfterPass, OnePass, BatchTrace;
    if n > 0 {
      RunsFollowPasses(f, data, u, n - 1);
      PassesToCompletion(f.state, BatchAt(f, data, u), u.world, n - 1);
      SameBatch(f, Runs(f, data, u, n - 1), data, u);
      RunIsPass(Runs(f, data, u, n - 1), data, u);
    }
  }

  /** The batch depends on the offset alone. */
  lemma SameBatch(f: File, g: File, data: Bytes, u: Setup)
    requires f.offset == g.offset <= |data| && u.maxRecords > 0
    ensures LinesAt(f, data, u) == LinesAt(g, data, u) && BatchAt(f, data, u) == BatchAt(g, data, u)
  {
    hide Split, ValidRows, BuildWindows;
  }

  /** The final windows of a run, with how each ended. */
  ghost function FinalWindows(f: File, data: Bytes, u: Setup): seq<Leaf>
    requires f.offset <= |data| && u.maxRecords > 0
  {
    ProcessAll(PruneTo(f.state, AllPendingKeys(BatchAt(f, data, u))), BatchAt(f, data, u), u.world).leaves
  }

  lemma {:induction false} LinesPart(data: Bytes, lines: seq<Line>, parse: Parser)
    requires forall l <- lines :: l.start < l.end <= |data|
    ensures |InvalidLines(data, lines, parse)| + |ValidRows(data, lines, parse)| == |lines|
    ensures forall l :: l in InvalidLines(data, lines, parse) <==> l in lines && parse(LineText(data, l), l).Invalid?
    ensures forall l <- lines :: parse(LineText(data, l), l).Valid? ==>
                                   parse(LineText(data, l), l).row.(line := l) in ValidRows(data, lines, parse)
  {
    hide LineText;
    if lines != [] {
      assert lines == lines[..|lines| - 1] + [lines[|lines| - 1]];
      LinesPart(data, lines[..|lines| - 1], parse);
    }
  }

  /** No line is lost and none is handled twice: when a run returns normally, each complete line it
      read is either dead-lettered as invalid or its row is in the final windows, as often as it was
      read. Each final window was published, and then its envelope is on file as that and has been sent,
      or is on file as quarantined, or was judged noise. */
  lemma EveryLineEndsOnce(f: File, data: Bytes, u: Setup)
    requires f.offset <= |data| && u.maxRecords > 0 && !RunOnce(f, data, u).threw && Safe(f.state)
    ensures var lines := LinesAt(f, data, u);
            var bad := RunOnce(f, data, u).invalid;
            var rows := ValidRows(data, lines, u.parse);
            && |bad| + |rows| == |lines|
            && (forall l <- lines :: l in bad <==> u.parse(LineText(data, l), l).Invalid?)
            && (forall l <- lines :: l !in bad ==> u.parse(LineText(data, l), l).row.(line := l) in rows)
            && multiset(LeafRows(FinalWindows(f, data, u))) == multiset(rows)
            && RunOnce(f, data, u).file.offset == EndOf(lines, f.offset)
    ensures AllEnded(RunOnce(f, data, u).file.state, FinalWindows(f, data, u))
  {
    hide Split, ProcessAll, ApplyAll, BuildWindows, ValidRows, InvalidLines, PruneTo, AllPendingKeys, LeafRows,
         RowsOf, LineText, Work, AllEnded, Safe;
    var (rows, ws) := (ValidRows(data, LinesAt(f, data, u), u.parse), BatchAt(f, data, u));
    var pruned := PruneTo(f.state, AllPendingKeys(ws));
    LinesPart(data, LinesAt(f, data, u), u.parse);
    WindowsConserveRows(rows, u.maxRecords);
    BatchConservesRows(pruned, ws, u.world);
    PruneKeepsSafe(f.state, AllPendingKeys(ws));
    WorkIsProcessAll(pruned, ws, u.world);
    if rows == [] {
      NoRowsNoWindows(u.maxRecords);
      NothingLeft(pruned, u.world);
      ApplyNone(pruned);
    }
    WorkEnds(pruned, ItemsOf(ws), u.world);
  }

  /** Nothing fails without a record, and nothing is reported that did not happen. A run that returns adds
      no row to the poison and dead-letter files of windows and reports the messages it sent and the rows
      it published or judged noise; one that throws adds exactly one row: to the poison file if the window
      is on file as quarantined afterwards, to the dead-letter file if it is not. */
  lemma RunOnRecord(f: File, data: Bytes, u: Setup)
    requires f.offset <= |data| && u.maxRecords > 0
    ensures var run := RunOnce(f, data, u);
            var (s, s') := (f.state, run.file.state);
            if run.threw then
              exists ref :: if ref in s'.seen && s'.seen[ref].Quarantined?
                            then s'.poison == s.poison + [ref] && s'.held == s.held
                            else s'.held == s.held + [ref] && s'.poison == s.poison
            else
              && s'.poison == s.poison && s'.held == s.held
              && run.published == |s'.sent| - |s.sent|
              && run.accepted == RowsEnding(FinalWindows(f, data, u), {WasPublished, WasNoise})
  {
    hide Split, ProcessAll, ApplyAll, BuildWindows, ValidRows, InvalidLines, AllPendingKeys, RowsEnding, OnRecord,
         RowsOf, LeafRows;
    var ws := BatchAt(f, data, u);
    var pruned := PruneTo(f.state, AllPendingKeys(ws));
    RunIsPass(f, data, u);
    var t, v := PassOnRecord(pruned, ws, u.world);
    if RunOnce(f, data, u).threw {
      RecordsOnce(t, RunOnce(f, data, u).file.state, v, u.world(v));
    } else {
      PassCounts(pruned, ws, u.world);
      if ValidRows(data, LinesAt(f, data, u), u.parse) == [] {
        NoRowsNoWindows(u.maxRecords);
        NothingLeft(pruned, u.world);
        ApplyNone(pruned);
      }
    }
  }

  lemma RecordsOnce(t: State, s': State, v: Window, b: Behaviour)
    requires v.rows != [] && Throws(t, v, b) && OnRecord(t, s', v, b)
    ensures var ref := RefOf(v);
            if ref in s'.seen && s'.seen[ref].Quarantined?
            then s'.poison == t.poison + [ref] && s'.held == t.held
            else s'.held == t.held + [ref] && s'.poison == t.poison
  {
  }

  lemma PruneKeepsSafe(s: State, keys: set<AttemptKey>)
    requires Safe(s)
    ensures Safe(PruneTo(s, keys))
  {
  }

  lemma NoRowsNoWindows(n: nat)
    requires n > 0
    ensures BuildWindows([], n) == []
  {
  }

  // ----- where the producer does less than it looks -----

  /** A pass that throws holds the offset exactly when its batch has no invalid row. Otherwise the next
      pass starts behind the last invalid row, and no row before that is read again. */
  lemma HeldIffNoInvalidRow(f: File, data: Bytes, u: Setup)
    requires f.offset <= |data| && u.maxRecords > 0
    ensures var bad := InvalidLines(data, LinesAt(f, data, u), u.parse);
            var next := RunOnce(f, data, u).file;
            RunOnce(f, data, u).threw ==>
            && next.offset <= |data|
            && (next.offset == f.offset <==> bad == [])
            && (bad != [] ==> forall l <- LinesAt(next, data, u) :: bad[|bad| - 1].end <= l.start)
  {
    hide Split, ProcessAll, ApplyAll, BuildWindows, ValidRows, InvalidLines, PruneTo, AllPendingKeys;
    var lines := LinesAt(f, data, u);
    var bad := InvalidLines(data, lines, u.parse);
    var next := RunOnce(f, data, u).file;
    RunStaysInFile(f, data, u);
    SplitIsChain(Reach(data, f.offset, u.maxBytes), f.offset);
    InvalidAreLines(data, lines, u.parse);
    if bad != [] {
      assert bad[|bad| - 1] in lines;
      var i :| 0 <= i < |lines| && lines[i] == bad[|bad| - 1];
      ChainAt(lines, f.offset, i);
    }
    var later := LinesAt(next, data, u);
    SplitIsChain(Reach(data, next.offset, u.maxBytes), next.offset);
    forall i | 0 <= i < |later| ensures next.offset <= later[i].start {
      ChainAt(later, next.offset, i);
    }
  }

  lemma {:induction false} ReadRowsDiffer(data: Bytes, lines: seq<Line>, from: nat, parse: Parser)
    requires Chain(lines, from) && forall l <- lines :: l.start < l.end <= |data|
    ensures DistinctRowsOf(ValidRows(data, lines, parse))
    ensures forall x <- ValidRows(data, lines, parse) :: x.line.end <= EndOf(lines, from)
    decreases |lines|
  {
    hide LineText;
    if lines != [] {
      var n := |lines| - 1;
      ChainInit(lines, from);
      ReadRowsDiffer(data, lines[..n], from, parse);
      ChainAt(lines, from, n);
    }
  }

  lemma {:induction false} ChainInit(lines: seq<Line>, from: nat)
    requires Chain(lines, from) && lines != []
    ensures Chain(lines[..|lines| - 1], from) && EndOf(lines[..|lines| - 1], from) == lines[|lines| - 1].start
    decreases |lines|
  {
    if |lines| > 1 {
      ChainInit(lines[1..], lines[0].end);
      assert lines[..|lines| - 1][1..] == lines[1..][..|lines| - 2];
      assert EndOf(lines[..|lines| - 1], from) == EndOf(lines[1..][..|lines| - 2], lines[0].end);
    }
  }

  /** The rows of a batch differ, since each has its own byte range. */
  lemma BatchRowsDiffer(f: File, data: Bytes, u: Setup)
    requires f.offset <= |data| && u.maxRecords > 0
    ensures DistinctRowsOf(RowsOfItems(ItemsOf(BatchAt(f, data, u))))
  {
    hide Split, ValidRows, BuildWindows, DistinctRowsOf, RowsOf, RowsOfItems;
    var lines := LinesAt(f, data, u);
    var rows := ValidRows(data, lines, u.parse);
    SplitIsChain(Reach(data, f.offset, u.maxBytes), f.offset);
    ReadRowsDiffer(data, lines, f.offset, u.parse);
    WindowsConserveRows(rows, u.maxRecords);
    PermutationDistinct(rows, RowsOf(BatchAt(f, data, u)));
    RowsOfBatch(BatchAt(f, data, u));
  }

  /** Every final window of a run that counts as published has been sent with its own text. */
  ghost predicate RunSendsOwnTexts(f: File, data: Bytes, u: Setup, text: Texts)
    requires f.offset <= |data| && u.maxRecords > 0
  {
    forall l <- FinalWindows(f, data, u) :: l.window.rows != [] && l.ending.WasPublished? ==>
      Message(RefOf(l.window), text(l.window)) in RunOnce(f, data, u).file.state.sent
  }

  lemma RunSends(f: File, data: Bytes, u: Setup, text: Texts)
    requires f.offset <= |data| && u.maxRecords > 0
    ensures var ws := BatchAt(f, data, u);
            RunSendsOwnTexts(f, data, u, text)
            == PassSendsOwnTexts(PruneTo(f.state, AllPendingKeys(ws)), ws, u.world, text)
  {
    hide Split, ProcessAll, ApplyAll, BuildWindows, ValidRows, InvalidLines, PruneTo, AllPendingKeys, RunOnce;
    RunIsPass(f, data, u);
  }

  lemma PruneKeepsTexts(s: State, keys: set<AttemptKey>, items: seq<Item>, text: Texts)
    requires NonEmpty(items)
    ensures KeepsTexts(PruneTo(s, keys), items, text) == KeepsTexts(s, items, text)
  {
    hide Reachable, Together;
    var p := PruneTo(s, keys);
    assert p.seen == s.seen;
    assert forall v: Window | v.rows != [] :: FileAgreesOn(p, v, text) == FileAgreesOn(s, v, text);
    assert forall u: Window, v: Window :: Sharing(p, u, v) == Sharing(s, u, v);
  }

  /** For a file: a run of it, whatever the world does, sends every window that counts as published with
      its own text if and only if windows of the batch that can be final together and share a source ref
      have one text, and what is on file for a window that can be final is its own text or a quarantine. */
  lemma RunSendsOwnTextsIff(f: File, data: Bytes, u: Setup, text: Texts)
    requires f.offset <= |data| && u.maxRecords > 0 && Safe(f.state)
    ensures var items := ItemsOf(BatchAt(f, data, u));
            NonEmpty(items)
            && ((forall world | Writes(world, text) :: RunSendsOwnTexts(f, data, u.(world := world), text))
                <==> KeepsTexts(f.state, items, text))
  {
    hide Writes, PassSendsOwnTexts, RunSendsOwnTexts, KeepsTexts, DistinctRowsOf, RowsOfItems, Safe, Split,
         BuildWindows, ValidRows, AllPendingKeys, PruneTo;
    var ws := BatchAt(f, data, u);
    var pruned := PruneTo(f.state, AllPendingKeys(ws));
    PruneKeepsSafe(f.state, AllPendingKeys(ws));
    BatchRowsDiffer(f, data, u);
    OwnTextsSentIff(pruned, ws, text);
    PruneKeepsTexts(f.state, AllPendingKeys(ws), ItemsOf(ws), text);
    forall world
      ensures RunSendsOwnTexts(f, data, u.(world := world), text) == PassSendsOwnTexts(pruned, ws, world, text)
    {
      RunSends(f, data, u.(world := world), text);
    }
  }

  const ROW_X := Row("a", "c", 5, "k1", Time(1), Line(0, 1))
  const ROW_Y := Row("a", "c", 5, "k2", Time(2), Line(1, 2))

  /** A summarizer for which both rows together are too long. */
  function SplitsBoth(v: Window): Behaviour {
    if |v.rows| > 1 then Behaviour(true, TooLong, Broken, true, Acked)
    else Behaviour(true, Text(if v.rows == [ROW_X] then 1 else 2), Broken, true, Acked)
  }

  /** Repeated message ids hide a row: when a window of two rows with the same id has to be split, both
      halves have one source ref, and the second counts as published although only the first was sent.
      `RunSendsOwnTextsIff` says when such a thing can happen. */
  lemma RepeatedIdsHideARow()
    ensures var s := State(map[], map[], [], [], []);
            var out := Process(s, Window("a", "c", [ROW_X, ROW_Y]), 0, SplitsBoth);
            && out.result == Done(2, 1, 0)
            && out.leaves == [Leaf(Window("a", "c", [ROW_X]), WasPublished),
                              Leaf(Window("a", "c", [ROW_Y]), WasPublished)]
            && ApplyAll(s, out.effects).sent == [Message(Batch("a", "c", 5, 5), 1)]
  {
    hide ApplyAll;
    var w := Window("a", "c", [ROW_X, ROW_Y]);
    var s := State(map[], map[], [], [], []);
    var (first, second) := (Window("a", "c", [ROW_X]), Window("a", "c", [ROW_Y]));
    assert FirstHalf(w) == first && SecondHalf(w) == second;
    var ref := Batch("a", "c", 5, 5);
    var drop := DropAttempts(KeyOf(w));
    var s0 := Apply(s, drop);
    var es := [SaveSeen(ref, Prepared(1)), Send(ref, 1), SaveSeen(ref, Published(1)), DropAttempts(KeyOf(first))];
    assert Process(s0, first, 1, SplitsBoth) == Outcome(es, Done(1, 1, 0), [Leaf(first, WasPublished)]);
    ApplyCons(s0, es[0], es[1..]);
    ThreeWrites(Apply(s0, es[0]), es[1], es[2], es[3]);
    assert es == [es[0]] + es[1..] && es[1..] == [es[1], es[2], es[3]];
    var s1 := ApplyAll(s0, es);
    assert s1.seen == map[ref := Published(1)];
    assert Process(s1, second, 1, SplitsBoth)
        == Outcome([DropAttempts(KeyOf(second))], Done(1, 0, 0), [Leaf(second, WasPublished)]);
    ApplyCons(s, drop, es + [DropAttempts(KeyOf(second))]);
    ApplyAppend(s0, es, [DropAttempts(KeyOf(second))]);
    ApplyOne(s1, DropAttempts(KeyOf(second)));
  }
}
