/** Whole runs of the session producer: any interleaving of appends to the log and passes over it,
    each with any caps and any failures short of a crash. */
module SessionRuns {
  import opened LineReader
  import opened SessionProducer

  // ----- lines, records and offsets -----

  /** The leading lines that end at or before an offset. */
  ghost function Below(lines: seq<Line>, offset: nat): seq<Line> {
    if lines == [] || offset < lines[0].end then [] else [lines[0]] + Below(lines[1..], offset)
  }

  lemma {:induction false} BelowEndOf(lines: seq<Line>, from: nat, n: nat)
    requires Chain(lines, from) && n <= |lines|
    ensures Below(lines, EndOf(lines[..n], from)) == lines[..n]
    decreases n
  {
    if n == 0 {
      if lines != [] {
        ChainAt(lines, from, 0);
      }
    } else {
      var rest := lines[1..];
      BelowEndOf(rest, lines[0].end, n - 1);
      assert lines[..n] == [lines[0]] + rest[..n - 1];
      assert EndOf(lines[..n], from) == EndOf(rest[..n - 1], lines[0].end);
      ChainAt(lines, from, n - 1);
      if n > 1 {
        ChainIncreases(lines, from, 0, n - 1);
      }
    }
  }

  ghost predicate Within(lines: seq<Line>, data: Bytes) {
    forall i :: 0 <= i < |lines| ==> lines[i].start < lines[i].end <= |data|
  }

  lemma {:induction false} RecordsAppend(data: Bytes, a: seq<Line>, b: seq<Line>, parse: Parser)
    requires Within(a, data) && Within(b, data)
    ensures Within(a + b, data)
    ensures Records(data, a + b, parse) == Records(data, a, parse) + Records(data, b, parse)
  {
    if b == [] {
      assert a + b == a;
    } else {
      var n := |b| - 1;
      RecordsAppend(data, a, b[..n], parse);
      assert (a + b)[..|a + b| - 1] == a + b[..n];
    }
  }

  lemma {:induction false} RecordsGrow(data: Bytes, more: Bytes, lines: seq<Line>, parse: Parser)
    requires Within(lines, data)
    ensures Within(lines, data + more) && Records(data + more, lines, parse) == Records(data, lines, parse)
    ensures Readable(data + more, lines, parse) == Readable(data, lines, parse)
  {
    forall i | 0 <= i < |lines| ensures LineText(data + more, lines[i]) == LineText(data, lines[i]) {
    }
    if lines != [] {
      var l := lines[|lines| - 1];
      RecordsGrow(data, more, lines[..|lines| - 1], parse);
      assert LineText(data + more, l) == LineText(data, l);
    }
  }

  /** Any number of leading records are the records of some leading lines, up to the last one's. */
  lemma {:induction false} RecordsUpTo(data: Bytes, lines: seq<Line>, parse: Parser, d: nat) returns (m: nat)
    requires Within(lines, data) && 0 < d <= |Records(data, lines, parse)|
    ensures 0 < m <= |lines| && Records(data, lines[..m], parse) == Records(data, lines, parse)[..d]
    ensures lines[m - 1] == Records(data, lines, parse)[d - 1].line
  {
    var n := |lines| - 1;
    var before := Records(data, lines[..n], parse);
    if d <= |before| {
      m := RecordsUpTo(data, lines[..n], parse, d);
      assert lines[..n][..m] == lines[..m];
    } else {
      m := |lines|;
      assert lines[..m] == lines;
    }
  }

  /** Accepted records stand in file order, so no record occurs twice. */
  lemma {:induction false} RecordsInOrder(data: Bytes, lines: seq<Line>, from: nat, parse: Parser)
    requires Within(lines, data) && Chain(lines, from)
    ensures InOrder(Records(data, lines, parse))
    ensures forall r <- Records(data, lines, parse) :: r.line.end <= EndOf(lines, from)
  {
    if lines != [] {
      var n := |lines| - 1;
      ChainPrefix(lines, from, n);
      RecordsInOrder(data, lines[..n], from, parse);
      ChainAt(lines, from, n);
      assert n > 0 ==> EndOf(lines[..n], from) == lines[n - 1].end;
    }
  }

  lemma {:induction false} ChainPrefix(lines: seq<Line>, from: nat, n: nat)
    requires Chain(lines, from) && n <= |lines|
    ensures Chain(lines[..n], from)
    decreases n
  {
    if n > 0 {
      ChainPrefix(lines[1..], lines[0].end, n - 1);
      assert lines[..n][1..] == lines[1..][..n - 1];
    }
  }

  // ----- runs -----

  datatype Step = Grow(more: Bytes) | Pass(world: World, caps: Caps)

  datatype Site = Site(data: Bytes, p: Producer)

  /** The offset is the end of a complete line (or where the producer started), what was published
      (with an acknowledgement), judged noise or dead-lettered is exactly the accepted lines below it,
      in order, no line below it makes the parser throw, and whatever was sent moves forward. */
  ghost predicate Tracks(s: Site, base: nat, parse: Parser) {
    && base <= s.p.offset <= |s.data|
    && var done := Below(Split(s.data, base), s.p.offset);
    && EndOf(done, base) == s.p.offset && Within(done, s.data)
    && RecordsOf(s.p.log) == Records(s.data, done, parse) && Readable(s.data, done, parse)
    && Forward(s.p.log)
  }

  lemma TracksStart(data: Bytes, base: nat, parse: Parser)
    requires base <= |data|
    ensures Tracks(Site(data, Producer(base, [], 0)), base, parse)
  {
    SplitIsChain(data, base);
    BelowEndOf(Split(data, base), base, 0);
    assert Split(data, base)[..0] == [];
  }

  lemma EndOfConcat(a: seq<Line>, b: seq<Line>, from: nat)
    ensures EndOf(a + b, from) == EndOf(b, EndOf(a, from))
  {
  }

  /** Moving on by the next n lines and logging exactly their records keeps track. */
  lemma TracksNext(s: Site, base: nat, parse: Parser, n: nat, log: seq<Event>, tick: nat)
    requires Tracks(s, base, parse) && n <= |Split(s.data, s.p.offset)|
    requires Within(Split(s.data, s.p.offset)[..n], s.data)
    requires RecordsOf(log) == Records(s.data, Split(s.data, s.p.offset)[..n], parse)
    requires Readable(s.data, Split(s.data, s.p.offset)[..n], parse)
    requires Forward(log) && CarriedBehind(log, s.p.offset)
    ensures var offset := EndOf(Split(s.data, s.p.offset)[..n], s.p.offset);
            offset >= s.p.offset && Tracks(Site(s.data, Producer(offset, s.p.log + log, tick)), base, parse)
  {
    hide Split, Records, Below, RecordsOf, EndOf, Forward, CarriedBehind;
    var all, rest := Split(s.data, base), Split(s.data, s.p.offset);
    var done := Below(all, s.p.offset);
    SplitIsChain(s.data, base);
    BelowIsPrefix(all, s.p.offset);
    assert done == all[..|done|];
    SplitResumes(s.data, base, |done|);
    assert all == done + rest;
    SplitResumes(s.data, base, |done| + n);
    assert all[..|done| + n] == done + rest[..n];
    SplitResumes(s.data, s.p.offset, n);
    EndOfConcat(done, rest[..n], base);
    BelowEndOf(all, base, |done| + n);
    RecordsAppend(s.data, done, rest[..n], parse);
    ReadableAppend(s.data, done, rest[..n], parse);
    RecordsOfAppend(s.p.log, log);
    ChainPrefix(all, base, |done|);
    RecordsInOrder(s.data, done, base, parse);
    LaterForward(s.p.log, log, s.p.offset);
  }

  lemma ReadableAppend(data: Bytes, a: seq<Line>, b: seq<Line>, parse: Parser)
    requires Within(a, data) && Within(b, data) && Readable(data, a, parse) && Readable(data, b, parse)
    ensures Within(a + b, data) && Readable(data, a + b, parse)
  {
  }

  /** All records of a log start at or after an offset. */
  ghost predicate CarriedBehind(log: seq<Event>, offset: nat) {
    forall e <- log, r <- Carried(e) :: offset <= r.line.start
  }

  lemma {:induction false} AffectedInRecords(log: seq<Event>, e: Event)
    requires e in log
    ensures forall r <- Affected(e) :: r in RecordsOf(log)
  {
    hide Affected;
    var n := |log| - 1;
    if e != log[n] {
      assert log == log[..n] + [log[n]];
      AffectedInRecords(log[..n], e);
    }
  }

  lemma LaterForward(a: seq<Event>, b: seq<Event>, offset: nat)
    requires Forward(a) && Forward(b) && CarriedBehind(b, offset)
    requires forall r <- RecordsOf(a) :: r.line.end <= offset
    ensures Forward(a + b)
  {
    hide RecordsOf, Affected, Carried, Forward;
    forall e <- a, f <- b ensures Behind(e, f) {
      AffectedInRecords(a, e);
    }
    ForwardAppend(a, b);
  }

  lemma {:induction false} BelowIsPrefix(lines: seq<Line>, offset: nat)
    ensures Below(lines, offset) <= lines
  {
    if lines != [] && lines[0].end <= offset {
      BelowIsPrefix(lines[1..], offset);
    }
  }

  lemma TracksGrow(s: Site, more: Bytes, base: nat, parse: Parser)
    requires Tracks(s, base, parse)
    ensures Tracks(Site(s.data + more, s.p), base, parse)
  {
    hide Split, Records, Below, RecordsOf;
    var all, all' := Split(s.data, base), Split(s.data + more, base);
    var done := Below(all, s.p.offset);
    SplitGrows(s.data, more, base);
    BelowIsPrefix(all, s.p.offset);
    assert done == all'[..|done|];
    SplitIsChain(s.data + more, base);
    BelowEndOf(all', base, |done|);
    hide Readable, Forward;
    RecordsGrow(s.data, more, done, parse);
  }

  /** A pass keeps track and never moves the offset back, whatever fails in it. */
  lemma TracksPass(s: Site, base: nat, parse: Parser, world: World, caps: Caps)
    requires Tracks(s, base, parse)
    ensures var p := PassOver(s.p, s.data, parse, world, caps);
            s.p.offset <= p.offset && Tracks(Site(s.data, p), base, parse)
  {
    hide Split, Records, Below, RecordsOf, Bisect, Tracks, Readable, Forward, CarriedBehind, InOrder, CarriedFrom;
    TracksMeans(s, base, parse);
    var (from, data) := (s.p.offset, s.data);
    var lines := LinesRead(s.p, data, caps);
    ReadTakesNext(data, from, caps.maxBytes, caps.maxLines);
    assert lines == Split(data, from)[..|lines|];
    var records := Records(data, lines, parse);
    NoEvents();
    NothingForward(from);
    if !Readable(data, lines, parse) {
      return;
    }
    if records == [] {
      TracksNext(s, base, parse, |lines|, [], s.p.tick);
      assert s.p.log + [] == s.p.log;
    } else {
      var b := Bisect(world, s.p.tick, records);
      ReadInOrder(s.p, data, parse, caps);
      BisectDisposesPrefix(world, s.p.tick, records);
      FromRecords(b.log, records, from);
      var done := RecordsOf(b.log);
      if b.ok {
        TracksNext(s, base, parse, |lines|, b.log, s.p.tick + b.attempts);
      } else if done == [] {
        NoLines(data, from, parse);
        TracksNext(s, base, parse, 0, b.log, s.p.tick + b.attempts);
      } else {
        var m := RecordsUpTo(data, lines, parse, |done|);
        assert lines[..m] == Split(data, from)[..m];
        ReadablePrefix(data, lines, m, parse);
        assert done == records[..|done|];
        TracksNext(s, base, parse, m, b.log, s.p.tick + b.attempts);
      }
    }
  }

  lemma NoLines(data: Bytes, from: nat, parse: Parser)
    requires from <= |data|
    ensures Split(data, from)[..0] == [] && Records(data, [], parse) == [] && EndOf([], from) == from
    ensures Readable(data, [], parse)
  {
  }

  lemma NothingForward(offset: nat)
    ensures Forward([]) && CarriedBehind([], offset)
  {
  }

  lemma ReadablePrefix(data: Bytes, lines: seq<Line>, m: nat, parse: Parser)
    requires Within(lines, data) && Readable(data, lines, parse) && m <= |lines|
    ensures Readable(data, lines[..m], parse)
  {
  }

  lemma FromRecords(log: seq<Event>, records: seq<Record>, offset: nat)
    requires CarriedFrom(log, records) && forall r <- records :: offset <= r.line.start
    ensures CarriedBehind(log, offset)
  {
  }

  /** The records of some lines: one for each line the parser accepts, with its time, and no other. */
  lemma {:induction false} RecordsAreAccepted(data: Bytes, lines: seq<Line>, parse: Parser)
    requires Within(lines, data)
    ensures forall r <- Records(data, lines, parse) :: r.line in lines
    ensures forall i :: 0 <= i < |lines| && parse(LineText(data, lines[i])).Yes? ==>
                          Record(lines[i], parse(LineText(data, lines[i])).stamp) in Records(data, lines, parse)
    ensures forall r <- Records(data, lines, parse) :: && r.line.start < r.line.end <= |data|
                                                       && parse(LineText(data, r.line)) == Yes(r.stamp)
  {
    hide LineText;
    if lines != [] {
      RecordsAreAccepted(data, lines[..|lines| - 1], parse);
    }
  }

  /** The records of one read stand in file order, behind the offset. */
  lemma ReadInOrder(p: Producer, data: Bytes, parse: Parser, caps: Caps)
    requires p.offset <= |data|
    ensures var records := Records(data, LinesRead(p, data, caps), parse);
            InOrder(records) && forall r <- records :: p.offset <= r.line.start
  {
    var lines := LinesRead(p, data, caps);
    ReadTakesNext(data, p.offset, caps.maxBytes, caps.maxLines);
    SplitIsChain(data, p.offset);
    ChainPrefix(Split(data, p.offset), p.offset, |lines|);
    assert lines == Split(data, p.offset)[..|lines|];
    RecordsInOrder(data, lines, p.offset, parse);
    RecordsAreAccepted(data, lines, parse);
  }

  lemma TracksMeans(s: Site, base: nat, parse: Parser)
    requires Tracks(s, base, parse)
    ensures base <= s.p.offset <= |s.data|
  {
  }

  ghost function Run(s: Site, steps: seq<Step>, base: nat, parse: Parser): (r: Site)
    requires Tracks(s, base, parse)
    decreases |steps|
  {
    if steps == [] then s
    else
      match steps[0]
      case Grow(more) =>
        TracksGrow(s, more, base, parse);
        Run(Site(s.data + more, s.p), steps[1..], base, parse)
      case Pass(world, caps) =>
        TracksPass(s, base, parse, world, caps);
        Run(Site(s.data, PassOver(s.p, s.data, parse, world, caps)), steps[1..], base, parse)
  }

  lemma {:induction false} RunTracks(s: Site, steps: seq<Step>, base: nat, parse: Parser)
    requires Tracks(s, base, parse)
    ensures var r := Run(s, steps, base, parse);
            s.p.offset <= r.p.offset && s.data <= r.data && s.p.log <= r.p.log && Tracks(r, base, parse)
    decreases |steps|
  {
    hide Tracks;
    if steps != [] {
      match steps[0]
      case Grow(more) =>
        TracksGrow(s, more, base, parse);
        RunTracks(Site(s.data + more, s.p), steps[1..], base, parse);
      case Pass(world, caps) =>
        TracksPass(s, base, parse, world, caps);
        TracksMeans(s, base, parse);
        RunTracks(Site(s.data, PassOver(s.p, s.data, parse, world, caps)), steps[1..], base, parse);
    }
  }

  /** Exactly-once tailing. Over any run that starts at offset `base`, passes that throw included, what
      has been published with an acknowledgement, judged noise or sent to the dead-letter queue is
      exactly the accepted lines below the offset, in file order and without repeats, and the offset
      never decreases. It never passes a line on which the parser throws. */
  lemma ExactlyOnce(data: Bytes, base: nat, steps: seq<Step>, parse: Parser)
    requires base <= |data|
    ensures var s := Site(data, Producer(base, [], 0));
            && Tracks(s, base, parse)
            && var r := Run(s, steps, base, parse);
            && base <= r.p.offset <= |r.data|
            && var lines := Below(Split(r.data, base), r.p.offset);
            && Within(lines, r.data) && EndOf(lines, base) == r.p.offset
            && var handled := RecordsOf(r.p.log);
            && handled == Records(r.data, lines, parse)
            && InOrder(handled) && Readable(r.data, lines, parse)
            && (forall h <- handled :: h.line in lines && parse(LineText(r.data, h.line)) == Yes(h.stamp))
            && forall i :: 0 <= i < |lines| && parse(LineText(r.data, lines[i])).Yes? ==>
                             Record(lines[i], parse(LineText(r.data, lines[i])).stamp) in handled
  {
    TracksStart(data, base, parse);
    var s := Site(data, Producer(base, [], 0));
    RunTracks(s, steps, base, parse);
    var r := Run(s, steps, base, parse);
    var all := Split(r.data, base);
    SplitIsChain(r.data, base);
    BelowIsPrefix(all, r.p.offset);
    var lines := Below(all, r.p.offset);
    assert lines == all[..|lines|];
    ChainPrefix(all, base, |lines|);
    RecordsInOrder(r.data, lines, base, parse);
    RecordsAreAccepted(r.data, lines, parse);
  }

  // ----- what a lost acknowledgement does -----

  /** The event sends a record to the broker. */
  predicate Delivers(e: Event, r: Record) {
    (e.Published? || e.Unconfirmed?) && r in e.records
  }

  function Deliveries(log: seq<Event>, r: Record): nat {
    if log == [] then 0 else Deliveries(log[..|log| - 1], r) + if Delivers(log[|log| - 1], r) then 1 else 0
  }

  /** The record was sent without acknowledgement and sent again later. */
  ghost predicate SentAgain(log: seq<Event>, r: Record) {
    exists i, j :: 0 <= i < j < |log| && Delivers(log[i], r) && log[i].Unconfirmed? && Delivers(log[j], r)
  }

  lemma {:induction false} DeliveredAt(log: seq<Event>, r: Record, i: nat)
    requires i < |log| && Delivers(log[i], r)
    ensures Deliveries(log, r) >= 1
  {
    if i < |log| - 1 {
      DeliveredAt(log[..|log| - 1], r, i);
    }
  }

  lemma {:induction false} DeliveredTwiceAt(log: seq<Event>, r: Record, i: nat, j: nat)
    requires i < j < |log| && Delivers(log[i], r) && Delivers(log[j], r)
    ensures Deliveries(log, r) > 1
  {
    if j < |log| - 1 {
      DeliveredTwiceAt(log[..|log| - 1], r, i, j);
    } else {
      DeliveredAt(log[..|log| - 1], r, i);
    }
  }

  lemma {:induction false} SomeDelivery(log: seq<Event>, r: Record) returns (i: nat)
    requires Deliveries(log, r) >= 1
    ensures i < |log| && Delivers(log[i], r)
  {
    if Delivers(log[|log| - 1], r) {
      i := |log| - 1;
    } else {
      i := SomeDelivery(log[..|log| - 1], r);
    }
  }

  lemma {:induction false} TwoDeliveries(log: seq<Event>, r: Record) returns (i: nat, j: nat)
    requires Deliveries(log, r) > 1
    ensures i < j < |log| && Delivers(log[i], r) && Delivers(log[j], r)
  {
    var n := |log| - 1;
    if Delivers(log[n], r) {
      i := SomeDelivery(log[..n], r);
      j := n;
    } else {
      i, j := TwoDeliveries(log[..n], r);
    }
  }

  /** In a log that moves forward nothing is sent after it was acknowledged. */
  lemma TwiceIffSentAgain(log: seq<Event>, r: Record)
    requires Forward(log) && r.line.start < r.line.end
    ensures Deliveries(log, r) > 1 <==> SentAgain(log, r)
  {
    hide Deliveries;
    if Deliveries(log, r) > 1 {
      var i, j := TwoDeliveries(log, r);
      if log[i].Published? {
        assert false;
      }
    }
    if SentAgain(log, r) {
      var i, j :| 0 <= i < j < |log| && Delivers(log[i], r) && log[i].Unconfirmed? && Delivers(log[j], r);
      DeliveredTwiceAt(log, r, i, j);
    }
  }

  /** Over any run, a record reaches the broker more than once if and only if a window that covered it
      lost its acknowledgement and a later window covered it again. */
  lemma DeliveredTwiceIffAckLost(data: Bytes, base: nat, steps: seq<Step>, parse: Parser, r: Record)
    requires base <= |data| && r.line.start < r.line.end
    ensures var s := Site(data, Producer(base, [], 0));
            && Tracks(s, base, parse)
            && var log := Run(s, steps, base, parse).p.log;
            (Deliveries(log, r) > 1 <==> SentAgain(log, r))
  {
    hide Deliveries, SentAgain;
    TracksStart(data, base, parse);
    var s := Site(data, Producer(base, [], 0));
    RunTracks(s, steps, base, parse);
    TwiceIffSentAgain(Run(s, steps, base, parse).p.log, r);
  }

  // ----- when a pass gets on -----

  ghost predicate NoTransients(world: World) {
    forall tick: nat, w: seq<Record> :: !Transient(world.verdict(tick, w))
  }

  /** Without transient failures a pass that reads a line moves the offset if and only if no line it
      reads makes the parser throw. */
  lemma PassAdvances(p: Producer, data: Bytes, parse: Parser, world: World, caps: Caps)
    requires p.offset <= |data| && LinesRead(p, data, caps) != [] && NoTransients(world)
    ensures PassOver(p, data, parse, world, caps).offset > p.offset <==> Readable(data, LinesRead(p, data, caps), parse)
    ensures PassThrows(p, data, parse, world, caps) <==> !Readable(data, LinesRead(p, data, caps), parse)
  {
    hide Split, Records;
    var lines := LinesRead(p, data, caps);
    ReadTakesNext(data, p.offset, caps.maxBytes, caps.maxLines);
    SplitIsChain(data, p.offset);
    ChainAt(Split(data, p.offset), p.offset, |lines| - 1);
    var records := Records(data, lines, parse);
    if records != [] {
      NeverFails(world, p.tick, records);
    }
  }

  lemma JudgedFinally(world: World, tick: nat, w: seq<Record>)
    requires NoTransients(world)
    ensures !Transient(Judge(world, tick, w))
  {
    hide HasBadTime;
  }

  lemma {:induction false} NeverFails(world: World, tick: nat, w: seq<Record>)
    requires w != [] && NoTransients(world)
    ensures Bisect(world, tick, w).ok
    decreases |w|
  {
    hide HasBadTime, NoTransients, Bisect, Judge, RecordsOf, DeadLetters, OffsetAfter;
    JudgedFinally(world, tick, w);
    if Judge(world, tick, w).Reject? && |w| > 1 {
      var mid := Half(|w|);
      BisectSplit(world, tick, w);
      NeverFails(world, tick + 1, w[..mid]);
      NeverFails(world, tick + 1 + Bisect(world, tick + 1, w[..mid]).attempts, w[mid..]);
    } else {
      BisectLeaf(world, tick, w, 0);
    }
  }

  /** The next complete line makes the parser throw. */
  ghost predicate Blocked(s: Site, parse: Parser) {
    && s.p.offset <= |s.data|
    && var next := Split(s.data, s.p.offset);
    next != [] && next[0].start < next[0].end <= |s.data| && parse(LineText(s.data, next[0])).Throws?
  }

  lemma BlockedGrows(s: Site, more: Bytes, parse: Parser)
    requires Blocked(s, parse)
    ensures Blocked(Site(s.data + more, s.p), parse)
  {
    hide Split;
    SplitGrows(s.data, more, s.p.offset);
    var l := Split(s.data, s.p.offset)[0];
    assert LineText(s.data + more, l) == LineText(s.data, l);
  }

  lemma BlockedPass(s: Site, parse: Parser, world: World, caps: Caps)
    requires Blocked(s, parse)
    ensures PassOver(s.p, s.data, parse, world, caps) == s.p
  {
    hide Split;
    var lines := LinesRead(s.p, s.data, caps);
    ReadTakesNext(s.data, s.p.offset, caps.maxBytes, caps.maxLines);
    if lines != [] {
      assert lines[0] == Split(s.data, s.p.offset)[0];
    } else {
      NoLines(s.data, s.p.offset, parse);
    }
  }

  /** Such a line stops the file for good: no later pass moves the offset or disposes of anything,
      however the log grows. */
  lemma {:induction false} BlockedForever(s: Site, steps: seq<Step>, base: nat, parse: Parser)
    requires Tracks(s, base, parse) && Blocked(s, parse)
    ensures Run(s, steps, base, parse).p == s.p
    decreases |steps|
  {
    hide Tracks, Blocked, PassOver;
    if steps != [] {
      match steps[0]
      case Grow(more) =>
        TracksGrow(s, more, base, parse);
        BlockedGrows(s, more, parse);
        BlockedForever(Site(s.data + more, s.p), steps[1..], base, parse);
      case Pass(world, caps) =>
        TracksPass(s, base, parse, world, caps);
        TracksMeans(s, base, parse);
        BlockedPass(s, parse, world, caps);
        BlockedForever(s, steps[1..], base, parse);
    }
  }

  /** The text `null`. */
  const NULL_LINE: Bytes := [110, 117, 108, 108]

  /** A log that starts with the line `null` is never got past. */
  lemma NullLineBlocks(rest: Bytes, steps: seq<Step>, parse: Parser)
    requires parse(NULL_LINE).Throws?
    ensures var s := Site(NULL_LINE + [NEWLINE] + rest, Producer(0, [], 0));
            Tracks(s, 0, parse) && Run(s, steps, 0, parse).p == s.p
  {
    hide Tracks;
    var data := NULL_LINE + [NEWLINE] + rest;
    var s := Site(data, Producer(0, [], 0));
    TracksStart(data, 0, parse);
    FirstNewline(data);
    assert LineText(data, Line(0, 5)) == NULL_LINE;
    assert Split(data, 0)[0] == Line(0, 5);
    BlockedForever(s, steps, 0, parse);
  }

  lemma FirstNewline(data: Bytes)
    requires |data| > 4 && data[4] == NEWLINE && forall i :: 0 <= i < 4 ==> data[i] != NEWLINE
    ensures FindNewline(data, 0) == 4
  {
  }
}
