/** One pass of the Telegram producer over a capture file, and repeated passes over a file that does
    not change. */
module TelegramFile {
  import opened Common
  import opened LineReader
  import opened TelegramWindows
  import opened TelegramProducer
  import opened TelegramLiveness

  /** `normalizeRecord` of the parsed line, as far as it decides: a row or an invalid line. */
  datatype Parsed = Valid(row: Row) | Invalid

  type Parser = (Bytes, Line) -> Parsed

  /** The valid rows of some lines, each with the byte range it was read from. */
  function ValidRows(data: Bytes, lines: seq<Line>, parse: Parser): seq<Row>
    requires forall l <- lines :: l.start < l.end <= |data|
  {
    if lines == [] then []
    else
      var l := lines[|lines| - 1];
      ValidRows(data, lines[..|lines| - 1], parse)
      + match parse(LineText(data, l), l) case Valid(row) => [row.(line := l)] case Invalid => []
  }

  function InvalidLines(data: Bytes, lines: seq<Line>, parse: Parser): seq<Line>
    requires forall l <- lines :: l.start < l.end <= |data|
  {
    if lines == [] then []
    else
      var l := lines[|lines| - 1];
      InvalidLines(data, lines[..|lines| - 1], parse)
      + if parse(LineText(data, l), l).Invalid? then [l] else []
  }

  /** Where a pass over a file starts. */
  function StartOf(key: string, seed: Option<nat>, offsets: map<string, nat>): nat {
    if key in offsets then offsets[key] else if seed.Some? then seed.value else 0
  }

  // ----- the code -----

  class TelegramTail {
    /** The saved offset of each file, the seen file, the attempts file, the broker, the poison file and
        the dead-letter file (held windows and invalid rows). */
    var offsets: map<string, nat>
    var seen: map<SourceRef, Entry>
    var attempts: map<AttemptKey, nat>
    var sent: seq<Message>
    var poison: seq<SourceRef>
    var held: seq<SourceRef>
    var invalid: seq<Line>
    /** Every durable write for a window so far, in order. */
    ghost var journal: seq<Effect>

    constructor ()
      ensures offsets == map[] && invalid == [] && journal == []
      ensures Snapshot() == State(map[], map[], [], [], [])
    {
      offsets, seen, attempts, sent, poison, held, invalid := map[], map[], map[], [], [], [], [];
      journal := [];
    }

    function Snapshot(): State
      reads this
    {
      State(seen, attempts, sent, poison, held)
    }

    method SaveSeenEntry(ref: SourceRef, entry: Entry)
      modifies `seen, `journal
      ensures Snapshot() == Apply(old(Snapshot()), SaveSeen(ref, entry))
      ensures journal == old(journal) + [SaveSeen(ref, entry)]
    {
      seen := seen[ref := entry];
      journal := journal + [SaveSeen(ref, entry)];
    }

    method PublishEnvelope(ref: SourceRef, hash: Hash)
      modifies `sent, `journal
      ensures Snapshot() == Apply(old(Snapshot()), Send(ref, hash))
      ensures journal == old(journal) + [Send(ref, hash)]
    {
      sent := sent + [Message(ref, hash)];
      journal := journal + [Send(ref, hash)];
    }

    method DeleteWindowAttempt(key: AttemptKey)
      modifies `attempts, `journal
      ensures Snapshot() == Apply(old(Snapshot()), DropAttempts(key))
      ensures journal == old(journal) + [DropAttempts(key)]
    {
      attempts := attempts - {key};
      journal := journal + [DropAttempts(key)];
    }

    /** `recordWindowAttempt`. */
    method RecordWindowAttempt(key: AttemptKey) returns (count: nat)
      modifies `attempts, `journal
      ensures count == Attempts(old(Snapshot()), key) + 1
      ensures Snapshot() == Apply(old(Snapshot()), SaveAttempts(key, count))
      ensures journal == old(journal) + [SaveAttempts(key, count)]
    {
      count := (if key in attempts then attempts[key] else 0) + 1;
      attempts := attempts[key := count];
      journal := journal + [SaveAttempts(key, count)];
    }

    /** `quarantineWindow`. */
    method QuarantineWindow(w: Window)
      requires w.rows != []
      modifies `seen, `attempts, `poison, `journal
      ensures Snapshot() == ApplyAll(old(Snapshot()), Quarantine(w))
      ensures journal == old(journal) + Quarantine(w)
    {
      ghost var s := Snapshot();
      var ref := RefOf(w);
      poison := poison + [ref];
      journal := journal + [PoisonRow(ref)];
      SaveSeenEntry(ref, Quarantined);
      DeleteWindowAttempt(KeyOf(w));
      ThreeWrites(s, PoisonRow(ref), SaveSeen(ref, Quarantined), DropAttempts(KeyOf(w)));
    }

    /** The catch block of `processWindow`. */
    method WindowFailed(w: Window)
      requires w.rows != []
      modifies `seen, `attempts, `poison, `held, `journal
      ensures Snapshot() == ApplyAll(old(Snapshot()), Failure(old(Snapshot()), w))
      ensures journal == old(journal) + Failure(old(Snapshot()), w)
    {
      hide ApplyAll;
      ghost var s := Snapshot();
      var count := RecordWindowAttempt(KeyOf(w));
      if count >= POISON_ATTEMPTS {
        ApplyCons(s, SaveAttempts(KeyOf(w), count), Quarantine(w));
        QuarantineWindow(w);
      } else {
        ApplyCons(s, SaveAttempts(KeyOf(w), count), [HeldRow(RefOf(w))]);
        ApplyOne(Apply(s, SaveAttempts(KeyOf(w), count)), HeldRow(RefOf(w)));
        held := held + [RefOf(w)];
        journal := journal + [HeldRow(RefOf(w))];
      }
    }

    /** `processWindow`, live. */
    method ProcessWindow(w: Window, depth: nat, world: World) returns (r: Result)
      requires w.rows != []
      modifies `seen, `attempts, `sent, `poison, `held, `journal
      ensures var out := Process(old(Snapshot()), w, depth, world);
              && r == out.result && journal == old(journal) + out.effects
              && Snapshot() == ApplyAll(old(Snapshot()), out.effects)
      decreases |w.rows|, 1
    {
      var (ref, key, b) := (RefOf(w), KeyOf(w), world(w));
      ghost var s := Snapshot();
      NotSplit(s, w, depth, world);
      hide ApplyAll, Failure, Quarantine, Deliver, Process;
      if ref in seen && seen[ref].Quarantined? {
        ApplyOne(s, DropAttempts(key));
        DeleteWindowAttempt(key);
        return Done(0, 0, |w.rows|);
      }
      if !b.timesOk {
        WindowFailed(w);
        return Threw;
      }
      if ref in seen {
        r := PublishPrepared(w, seen[ref].hash, seen[ref].Published?, b);
        return;
      }
      if b.summary.TooLong? && |w.rows| > 1 && depth < MAX_CONTEXT_SPLIT_DEPTH {
        r := ProcessHalves(w, depth, world);
        return;
      }
      r := SummariseWhole(w, b);
    }

    /** The split of a window that is too long for the summarizer. */
    method ProcessHalves(w: Window, depth: nat, world: World) returns (r: Result)
      requires w.rows != [] && IsSplit(Snapshot(), w, depth, world(w))
      modifies `seen, `attempts, `sent, `poison, `held, `journal
      ensures var out := Process(old(Snapshot()), w, depth, world);
              && r == out.result && journal == old(journal) + out.effects
              && Snapshot() == ApplyAll(old(Snapshot()), out.effects)
      decreases |w.rows|, 0
    {
      hide ApplyAll, Process, Both, Apply, IsSplit;
      ghost var s := Snapshot();
      ghost var drop := DropAttempts(KeyOf(w));
      SplitInto(s, w, depth, world);
      DeleteWindowAttempt(KeyOf(w));
      ghost var s0 := Snapshot();
      ghost var one := Process(s0, FirstHalf(w), depth + 1, world);
      var first := ProcessWindow(FirstHalf(w), depth + 1, world);
      if first.Threw? {
        ApplyCons(s, drop, one.effects);
        return Threw;
      }
      ghost var two := Process(Snapshot(), SecondHalf(w), depth + 1, world);
      BothParts(one, two);
      var second := ProcessWindow(SecondHalf(w), depth + 1, world);
      ApplyCons(s, drop, one.effects + two.effects);
      ApplyAppend(s0, one.effects, two.effects);
      if second.Threw? {
        return Threw;
      }
      return Done(first.accepted + second.accepted, first.published + second.published,
                  first.skipped + second.skipped);
    }

    /** Summarising and publishing a window that has nothing on file and is not split. */
    method SummariseWhole(w: Window, b: Behaviour) returns (r: Result)
      requires w.rows != [] && RefOf(w) !in seen && b.timesOk
      modifies `seen, `attempts, `sent, `poison, `held, `journal
      ensures var out := ProcessLeaf(old(Snapshot()), w, b);
              && r == out.result && journal == old(journal) + out.effects
              && Snapshot() == ApplyAll(old(Snapshot()), out.effects)
    {
      hide ApplyAll, Failure, Quarantine, Deliver;
      var (ref, key) := (RefOf(w), KeyOf(w));
      ghost var s := Snapshot();
      var summary := b.summary;
      if summary.TooLong? {
        if |w.rows| == 1 {
          summary := b.truncated;
        }
        if summary.TooLong? {
          QuarantineWindow(w);
          return Threw;
        }
      }
      if summary.Broken? {
        WindowFailed(w);
        return Threw;
      }
      if summary.Noise? {
        ApplyOne(s, DropAttempts(key));
        DeleteWindowAttempt(key);
        return Done(|w.rows|, 0, |w.rows|);
      }
      if !b.envelopeOk {
        WindowFailed(w);
        return Threw;
      }
      var prepared := SaveSeen(ref, Prepared(summary.hash));
      ApplyCons(s, prepared, Deliver(s, w, summary.hash, false, b).effects);
      SameDelivery(s, Apply(s, prepared), w, summary.hash, b);
      SaveSeenEntry(ref, Prepared(summary.hash));
      r := PublishPrepared(w, summary.hash, false, b);
    }

    /** The second half of `processWindow`: publish the envelope on file unless it already was. */
    method PublishPrepared(w: Window, hash: Hash, already: bool, b: Behaviour) returns (r: Result)
      requires w.rows != []
      modifies `seen, `attempts, `sent, `poison, `held, `journal
      ensures var out := Deliver(old(Snapshot()), w, hash, already, b);
              && r == out.result && journal == old(journal) + out.effects
              && Snapshot() == ApplyAll(old(Snapshot()), out.effects)
    {
      hide ApplyAll, Quarantine;
      ghost var s := Snapshot();
      var (ref, key) := (RefOf(w), KeyOf(w));
      if !b.envelopeOk || (!already && b.delivery.Refused?) {
        WindowFailed(w);
        return Threw;
      }
      if !already {
        if b.delivery.DeliveredNoAck? {
          ApplyCons(s, Send(ref, hash), Failure(s, w));
          assert Failure(Apply(s, Send(ref, hash)), w) == Failure(s, w);
          PublishEnvelope(ref, hash);
          WindowFailed(w);
          return Threw;
        }
        ThreeWrites(s, Send(ref, hash), SaveSeen(ref, Published(hash)), DropAttempts(key));
        PublishEnvelope(ref, hash);
        SaveSeenEntry(ref, Published(hash));
        DeleteWindowAttempt(key);
        return Done(|w.rows|, 1, 0);
      }
      ApplyOne(s, DropAttempts(key));
      DeleteWindowAttempt(key);
      return Done(|w.rows|, 0, 0);
    }

    /** `processFile`, live. A file without a saved offset starts at its seeded one, or at 0. */
    method ProcessFile(key: string, seed: Option<nat>, data: Bytes, maxBytes: nat, maxRecords: nat, parse: Parser,
                       world: World)
      returns (r: Result)
      requires maxRecords > 0
      modifies this
      ensures forall k <- old(offsets) :: k in offsets && (k != key ==> offsets[k] == old(offsets)[k])
      ensures var start := StartOf(key, seed, old(offsets));
              && key in offsets
              && (|data| < start ==>
                    && r.Threw? && offsets == old(offsets)[key := start]
                    && Snapshot() == old(Snapshot()) && invalid == old(invalid))
              && (start <= |data| ==>
                    var file := File(start, old(Snapshot()));
                    var pass := FilePass(file, data, maxBytes, maxRecords, parse, world);
                    && File(offsets[key], Snapshot()) == pass.file && (r.Threw? <==> pass.threw)
                    && invalid == old(invalid) + pass.invalid
                    && (r.Done? ==> r.accepted == pass.accepted && r.published == pass.published))
    {
      hide Split, ApplyAll, ValidRows, InvalidLines, BuildWindows, ProcessAll;
      if key !in offsets {
        offsets := offsets[key := if seed.Some? then seed.value else 0];
      }
      var offset := offsets[key];
      var read := ReadCompleteLines(data, offset, maxBytes);
      if read.ShrinkGuard? {
        return Threw;
      }
      LinesWithin(Reach(data, offset, maxBytes), offset);
      var lines := read.lines;
      var rows := ParseRows(key, data, lines, parse);
      if rows == [] {
        offsets := offsets[key := read.nextOffset];
        return Done(0, 0, |lines|);
      }
      var windows := BuildWindowsLoop(rows, maxRecords);
      WindowsConserveRows(rows, maxRecords);
      r := ProcessWindows(windows, world);
      if r.Done? {
        offsets := offsets[key := read.nextOffset];
        r := Done(r.accepted, r.published, r.skipped + |lines| - |rows|);
      }
    }

    /** The window loop of `processFile`. */
    method ProcessWindows(windows: seq<Window>, world: World) returns (r: Result)
      requires forall w <- windows :: w.rows != []
      modifies `seen, `attempts, `sent, `poison, `held, `journal
      ensures var out := ProcessAll(old(Snapshot()), windows, world);
              && r == out.result && Snapshot() == ApplyAll(old(Snapshot()), out.effects)
    {
      hide ApplyAll, Process, ProcessAll, Both;
      ghost var s := Snapshot();
      ghost var whole := ProcessAll(s, windows, world);
      ghost var done := Outcome([], Done(0, 0, 0), []);
      var accepted: nat, published: nat, skipped: nat := 0, 0, 0;
      ApplyNone(s);
      BothUnit(whole);
      assert windows[0..] == windows;
      for i := 0 to |windows|
        invariant done.result == Done(accepted, published, skipped)
        invariant Snapshot() == ApplyAll(s, done.effects)
        invariant whole == Both(done, ProcessAll(Snapshot(), windows[i..], world))
      {
        ghost var now := Snapshot();
        ghost var out := Process(now, windows[i], 0, world);
        ProcessAllFront(now, windows[i..], world);
        assert windows[i..][1..] == windows[i + 1..];
        BothParts(done, out);
        ApplyAppend(s, done.effects, out.effects);
        var result := ProcessWindow(windows[i], 0, world);
        if result.Threw? {
          return Threw;
        }
        BothAssociates(done, out, ProcessAll(Snapshot(), windows[i + 1..], world));
        done := Both(done, out);
        accepted, published, skipped :=
          accepted + result.accepted, published + result.published, skipped + result.skipped;
      }
      NothingLeft(Snapshot(), world);
      assert windows[|windows|..] == [];
      BothUnit(done);
      return Done(accepted, published, skipped);
    }

    /** `collectPendingAttemptKeys`: the keys of all windows of all files, read from where each file's next
        pass starts. A file that shrank below that is skipped. */
    method CollectPendingAttemptKeys(files: seq<Capture>, maxBytes: nat, maxRecords: nat, parse: Parser)
      returns (pending: set<AttemptKey>)
      requires maxRecords > 0
      ensures pending == PendingInAll(files, offsets, maxBytes, maxRecords, parse)
    {
      hide Split, ValidRows, BuildWindows, AllPendingKeys;
      pending := {};
      for i := 0 to |files|
        invariant pending == PendingInAll(files[..i], offsets, maxBytes, maxRecords, parse)
      {
        assert files[..i + 1][..i] == files[..i];
        var (c, start) := (files[i], StartOf(files[i].key, files[i].seed, offsets));
        var read := ReadCompleteLines(c.data, start, maxBytes);
        if !read.ShrinkGuard? {
          LinesWithin(Reach(c.data, start, maxBytes), start);
          var rows := ParseValid(c.data, read.lines, parse);
          var windows := BuildWindowsLoop(rows, maxRecords);
          var keys := CollectPendingKeys(windows);
          pending := pending + keys;
        }
      }
      assert files[..|files|] == files;
    }

    /** The parse loop of the pending scan, which passes over invalid rows. */
    method ParseValid(data: Bytes, lines: seq<Line>, parse: Parser) returns (rows: seq<Row>)
      requires forall l <- lines :: l.start < l.end <= |data|
      ensures rows == ValidRows(data, lines, parse)
    {
      rows := [];
      for i := 0 to |lines|
        invariant rows == ValidRows(data, lines[..i], parse)
      {
        assert lines[..i + 1][..i] == lines[..i];
        match parse(LineText(data, lines[i]), lines[i])
        case Valid(row) => rows := rows + [row.(line := lines[i])];
        case Invalid =>
      }
      assert lines[..|lines|] == lines;
    }

    /** The parse loop of `processFile`: an invalid row is dead-lettered and the offset moves past it. */
    method ParseRows(key: string, data: Bytes, lines: seq<Line>, parse: Parser) returns (rows: seq<Row>)
      requires key in offsets && forall l <- lines :: l.start < l.end <= |data|
      modifies `offsets, `invalid
      ensures rows == ValidRows(data, lines, parse) && |rows| <= |lines|
      ensures invalid == old(invalid) + InvalidLines(data, lines, parse)
      ensures offsets == old(offsets)[key := EndOf(InvalidLines(data, lines, parse), old(offsets)[key])]
    {
      rows := [];
      for i := 0 to |lines|
        invariant rows == ValidRows(data, lines[..i], parse) && |rows| <= i
        invariant invalid == old(invalid) + InvalidLines(data, lines[..i], parse)
        invariant offsets == old(offsets)[key := EndOf(InvalidLines(data, lines[..i], parse), old(offsets)[key])]
      {
        assert lines[..i + 1][..i] == lines[..i];
        match parse(LineText(data, lines[i]), lines[i])
        case Valid(row) => rows := rows + [row.(line := lines[i])];
        case Invalid =>
          invalid := invalid + [lines[i]];
          offsets := offsets[key := lines[i].end];
      }
      assert lines[..|lines|] == lines;
    }
  }

  lemma NotSplit(s: State, w: Window, depth: nat, world: World)
    requires w.rows != []
    ensures !IsSplit(s, w, depth, world(w)) ==> Process(s, w, depth, world) == ProcessLeaf(s, w, world(w))
  {
  }

  lemma SplitInto(s: State, w: Window, depth: nat, world: World)
    requires w.rows != [] && IsSplit(s, w, depth, world(w))
    ensures var drop := DropAttempts(KeyOf(w));
            var s0 := Apply(s, drop);
            var one := Process(s0, FirstHalf(w), depth + 1, world);
            var out := Process(s, w, depth, world);
            && (one.result.Threw? ==> out.effects == [drop] + one.effects && out.result == Threw)
            && (one.result.Done? ==>
                  var both := Both(one, Process(ApplyAll(s0, one.effects), SecondHalf(w), depth + 1, world));
                  out.effects == [drop] + both.effects && out.result == both.result)
  {
  }

  lemma ProcessAllFront(s: State, ws: seq<Window>, world: World)
    requires ws != [] && forall w <- ws :: w.rows != []
    ensures var first := Process(s, ws[0], 0, world);
            ProcessAll(s, ws, world)
            == if first.result.Threw? then first
               else Both(first, ProcessAll(ApplyAll(s, first.effects), ws[1..], world))
  {
  }

  lemma NothingLeft(s: State, world: World)
    ensures ProcessAll(s, [], world) == Outcome([], Done(0, 0, 0), [])
  {
  }

  // ----- one pass, as a function -----

  datatype File = File(offset: nat, state: State)

  datatype Pass = Pass(file: File, threw: bool, invalid: seq<Line>, accepted: nat, published: nat)

  /** The windows of the lines a pass reads. */
  ghost function WindowsAt(offset: nat, data: Bytes, maxBytes: nat, maxRecords: nat, parse: Parser): (ws: seq<Window>)
    requires offset <= |data| && maxRecords > 0
    ensures forall w <- ws :: w.rows != []
  {
    LinesWithin(Reach(data, offset, maxBytes), offset);
    var rows := ValidRows(data, Split(Reach(data, offset, maxBytes), offset), parse);
    WindowsConserveRows(rows, maxRecords);
    BuildWindows(rows, maxRecords)
  }

  /** Invalid rows are dead-lettered; the offset moves past them at once, and to the end of the batch
      when no window throws. */
  ghost function FilePass(f: File, data: Bytes, maxBytes: nat, maxRecords: nat, parse: Parser, world: World): Pass
    requires f.offset <= |data| && maxRecords > 0
  {
    LinesWithin(Reach(data, f.offset, maxBytes), f.offset);
    var lines := Split(Reach(data, f.offset, maxBytes), f.offset);
    var bad := InvalidLines(data, lines, parse);
    if ValidRows(data, lines, parse) == [] then Pass(File(EndOf(lines, f.offset), f.state), false, bad, 0, 0)
    else
      var out := ProcessAll(f.state, WindowsAt(f.offset, data, maxBytes, maxRecords, parse), world);
      var state := ApplyAll(f.state, out.effects);
      match out.result
      case Threw => Pass(File(EndOf(bad, f.offset), state), true, bad, 0, 0)
      case Done(accepted, published, _) => Pass(File(EndOf(lines, f.offset), state), false, bad, accepted, published)
  }

  // ----- the pending scan -----

  /** A capture file as a run finds it. */
  datatype Capture = Capture(key: string, seed: Option<nat>, data: Bytes)

  ghost function PendingIn(
      c: Capture, offsets: map<string, nat>, maxBytes: nat, maxRecords: nat, parse: Parser): set<AttemptKey>
    requires maxRecords > 0
  {
    var start := StartOf(c.key, c.seed, offsets);
    if |c.data| < start then {} else AllPendingKeys(WindowsAt(start, c.data, maxBytes, maxRecords, parse))
  }

  ghost function PendingInAll(
      files: seq<Capture>, offsets: map<string, nat>, maxBytes: nat, maxRecords: nat, parse: Parser): set<AttemptKey>
    requires maxRecords > 0
  {
    if files == [] then {}
    else
      PendingInAll(files[..|files| - 1], offsets, maxBytes, maxRecords, parse)
      + PendingIn(files[|files| - 1], offsets, maxBytes, maxRecords, parse)
  }

  lemma {:induction false} FileIsPending(
      files: seq<Capture>, i: nat, offsets: map<string, nat>, maxBytes: nat, maxRecords: nat, parse: Parser)
    requires maxRecords > 0 && i < |files|
    ensures PendingIn(files[i], offsets, maxBytes, maxRecords, parse)
         <= PendingInAll(files, offsets, maxBytes, maxRecords, parse)
  {
    hide PendingIn;
    if i < |files| - 1 {
      FileIsPending(files[..|files| - 1], i, offsets, maxBytes, maxRecords, parse);
    }
  }

  /** Every key under which a pass over any of the files can count a failure is collected, whatever its
      windows do and whatever is on file. */
  lemma RunKeysCovered(files: seq<Capture>, i: nat, offsets: map<string, nat>, maxBytes: nat, maxRecords: nat,
                       parse: Parser, s: State, world: World)
    requires maxRecords > 0 && i < |files| && StartOf(files[i].key, files[i].seed, offsets) <= |files[i].data|
    ensures var start := StartOf(files[i].key, files[i].seed, offsets);
            var ws := WindowsAt(start, files[i].data, maxBytes, maxRecords, parse);
            CountsWithin(ProcessAll(s, ws, world).effects, PendingInAll(files, offsets, maxBytes, maxRecords, parse))
  {
    hide ProcessAll, PendingInAll, AllPendingKeys, CountsWithin, WindowsAt;
    var start := StartOf(files[i].key, files[i].seed, offsets);
    var ws := WindowsAt(start, files[i].data, maxBytes, maxRecords, parse);
    FileIsPending(files, i, offsets, maxBytes, maxRecords, parse);
    AllWindowsPending(ws);
    PassCountsPending(s, ws, world, AllPendingKeys(ws));
    CountsWiden(ProcessAll(s, ws, world).effects, AllPendingKeys(ws),
                PendingInAll(files, offsets, maxBytes, maxRecords, parse));
  }

  lemma {:induction false} PassCountsPending(s: State, ws: seq<Window>, world: World, keys: set<AttemptKey>)
    requires forall w <- ws :: w.rows != [] && PendingKeys(w, 0) <= keys
    ensures CountsWithin(ProcessAll(s, ws, world).effects, keys)
    decreases |ws|
  {
    hide Process, CountsWithin, ApplyAll, PendingKeys;
    if ws == [] {
      NothingLeft(s, world);
      NothingCounted(keys);
    } else {
      ProcessAllFront(s, ws, world);
      var first := Process(s, ws[0], 0, world);
      AttemptKeysCovered(s, ws[0], 0, world);
      CountsWiden(first.effects, PendingKeys(ws[0], 0), keys);
      if first.result.Done? {
        var rest := ProcessAll(ApplyAll(s, first.effects), ws[1..], world);
        PassCountsPending(ApplyAll(s, first.effects), ws[1..], world, keys);
        CountsTogether(first.effects, rest.effects, keys, {});
        assert keys + {} == keys;
        BothParts(first, rest);
      }
    }
  }

  lemma NothingCounted(keys: set<AttemptKey>)
    ensures CountsWithin([], keys)
  {
  }
}
