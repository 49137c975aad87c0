/** The session producer: it follows an append-only log by byte offset, publishes each batch of
    records, bisects a batch that is rejected for good until the bad records stand alone in the
    dead-letter queue, and moves its offset as it goes. */
module SessionProducer {
  import opened LineReader

  // ----- records and their timestamps -----

  const FUTURE_SKEW_MS := 5 * 60 * 1000
  const MAX_REPRESENTABLE_DATE_MS := 8_640_000_000_000_000

  /** The source time of a record as far as it parses. */
  datatype Stamp = NoTime | NotATime | Time(ms: int)

  datatype Record = Record(line: Line, stamp: Stamp)

  datatype TimeError = MissingSourceTime | InvalidSourceTime | FutureSourceTime

  datatype TimeResult = Newest(ms: int) | Refused(error: TimeError)

  /** A time that may not be used: none, one that does not parse, one beyond what a date can hold, or one
      more than five minutes ahead of the clock. */
  predicate BadTime(r: Record, now: int) {
    match r.stamp
    case Time(ms) => ms > 8_640_000_000_000_000 || ms < -8_640_000_000_000_000 || ms > now + 300_000
    case _ => true
  }

  /** Why it may not be used. */
  ghost predicate Explains(stamp: Stamp, error: TimeError) {
    match error
    case MissingSourceTime => stamp == NoTime
    case InvalidSourceTime =>
      stamp == NotATime || (stamp.Time? && (stamp.ms > 8_640_000_000_000_000 || stamp.ms < -8_640_000_000_000_000))
    case FutureSourceTime => stamp.Time?
  }

  /** `parseUsableSourceInstant`. */
  function UsableInstant(stamp: Stamp, now: int): (r: TimeResult)
    ensures forall x: Record :: x.stamp == stamp ==> (r.Refused? <==> BadTime(x, now))
    ensures r.Refused? ==> Explains(stamp, r.error)
  {
    match stamp
    case NoTime => Refused(MissingSourceTime)
    case NotATime => Refused(InvalidSourceTime)
    case Time(ms) =>
      if ms > MAX_REPRESENTABLE_DATE_MS || ms < -MAX_REPRESENTABLE_DATE_MS then Refused(InvalidSourceTime)
      else if ms > now + FUTURE_SKEW_MS then Refused(FutureSourceTime)
      else Newest(ms)
  }

  ghost predicate HasBadTime(records: seq<Record>, now: int) {
    exists r <- records :: BadTime(r, now)
  }

  /** `sourceCreatedAtFromRecords`: the newest source time, unless one of them is unusable; the first such
      record names the reason. */
  method SourceCreatedAt(records: seq<Record>, now: int) returns (r: TimeResult)
    ensures r.Refused? <==> records == [] || HasBadTime(records, now)
    ensures r.Newest? <==>
              records != []
              && forall x <- records :: && x.stamp.Time?
                                        && -8_640_000_000_000_000 <= x.stamp.ms <= 8_640_000_000_000_000
                                        && x.stamp.ms <= now + 300_000
    ensures r.Refused? ==>
              if records == [] then r.error == MissingSourceTime
              else exists i :: 0 <= i < |records| && BadTime(records[i], now) && Explains(records[i].stamp, r.error)
                               && forall j :: 0 <= j < i ==> !BadTime(records[j], now)
    ensures r.Newest? ==> (exists x <- records :: x.stamp == Time(r.ms))
                          && forall x <- records :: x.stamp.Time? && x.stamp.ms <= r.ms
  {
    if records == [] {
      return Refused(MissingSourceTime);
    }
    r := UsableInstant(records[0].stamp, now);
    if r.Refused? {
      assert BadTime(records[0], now);
      return;
    }
    for i := 1 to |records|
      invariant r.Newest? && exists j :: 0 <= j < i && records[j].stamp == Time(r.ms)
      invariant forall j :: 0 <= j < i ==> !BadTime(records[j], now)
                                           && records[j].stamp.Time? && records[j].stamp.ms <= r.ms
    {
      var t := UsableInstant(records[i].stamp, now);
      if t.Refused? {
        assert BadTime(records[i], now);
        return t;
      }
      if t.ms > r.ms {
        r := t;
      }
    }
  }

  // ----- one window -----

  /** What the summarizer, the envelope checks and the publish make of a window whose source times
      are usable. `Lost` is a publish that reached the broker but whose acknowledgement did not come
      back: to the producer it is one more transient failure. */
  datatype Verdict = Noise | Publish | Reject | Fail | Lost

  predicate Transient(v: Verdict) {
    v.Fail? || v.Lost?
  }

  /** The outside world, which may answer differently at every attempt. */
  datatype World = World(clock: nat -> int, verdict: (nat, seq<Record>) -> Verdict)

  /** One attempt at a window: an unusable source time is rejected before anything else runs. */
  ghost function Judge(world: World, tick: nat, w: seq<Record>): Verdict {
    if HasBadTime(w, world.clock(tick)) then Reject else world.verdict(tick, w)
  }

  /** What becomes of records, in the order it happens. */
  datatype Event =
    | Published(records: seq<Record>)
    | WasNoise(records: seq<Record>)
    | DeadLetter(record: Record)
    | Unconfirmed(records: seq<Record>)

  /** The records an event is about. */
  function Carried(e: Event): seq<Record> {
    if e.DeadLetter? then [e.record] else e.records
  }

  /** The records an event disposes of: of those of an unconfirmed publish the producer does not know. */
  function Affected(e: Event): seq<Record> {
    if e.Unconfirmed? then [] else Carried(e)
  }

  function RecordsOf(log: seq<Event>): seq<Record> {
    if log == [] then [] else RecordsOf(log[..|log| - 1]) + Affected(log[|log| - 1])
  }

  lemma RecordsOfSnoc(log: seq<Event>, e: Event)
    ensures RecordsOf(log + [e]) == RecordsOf(log) + Affected(e)
  {
    assert (log + [e])[..|log|] == log;
  }

  lemma {:induction false} RecordsOfAppend(a: seq<Event>, b: seq<Event>)
    ensures RecordsOf(a + b) == RecordsOf(a) + RecordsOf(b)
  {
    hide RecordsOf;
    if b == [] {
      NoEvents();
      assert a + b == a;
    } else {
      var (init, e) := (b[..|b| - 1], b[|b| - 1]);
      assert a + b == (a + init) + [e] && b == init + [e];
      calc {
        RecordsOf(a + b);
        { RecordsOfSnoc(a + init, e); }
        RecordsOf(a + init) + Affected(e);
        { RecordsOfAppend(a, init); }
        RecordsOf(a) + RecordsOf(init) + Affected(e);
        RecordsOf(a) + (RecordsOf(init) + Affected(e));
        { RecordsOfSnoc(init, e); }
        RecordsOf(a) + RecordsOf(b);
      }
    }
  }

  function DeadLetters(log: seq<Event>): seq<Record> {
    if log == [] then []
    else DeadLetters(log[..|log| - 1])
         + if log[|log| - 1].DeadLetter? then [log[|log| - 1].record] else []
  }

  lemma DeadLettersSnoc(log: seq<Event>, e: Event)
    ensures DeadLetters(log + [e]) == DeadLetters(log) + (if e.DeadLetter? then [e.record] else [])
  {
    assert (log + [e])[..|log|] == log;
  }

  lemma {:induction false} DeadLettersAppend(a: seq<Event>, b: seq<Event>)
    ensures DeadLetters(a + b) == DeadLetters(a) + DeadLetters(b)
  {
    hide DeadLetters;
    if b == [] {
      NoEvents();
      assert a + b == a;
    } else {
      var (init, e) := (b[..|b| - 1], b[|b| - 1]);
      assert a + b == (a + init) + [e] && b == init + [e];
      calc {
        DeadLetters(a + b);
        { DeadLettersSnoc(a + init, e); }
        DeadLetters(a + init) + (if e.DeadLetter? then [e.record] else []);
        { DeadLettersAppend(a, init); }
        DeadLetters(a) + DeadLetters(init) + (if e.DeadLetter? then [e.record] else []);
        DeadLetters(a) + (DeadLetters(init) + (if e.DeadLetter? then [e.record] else []));
        { DeadLettersSnoc(init, e); }
        DeadLetters(a) + DeadLetters(b);
      }
    }
  }

  lemma NoEvents()
    ensures RecordsOf([]) == [] && DeadLetters([]) == []
  {
  }

  lemma OneEvent(e: Event)
    ensures RecordsOf([e]) == Affected(e)
    ensures DeadLetters([e]) == if e.DeadLetter? then [e.record] else []
  {
    assert [e][..0] == [];
    assert RecordsOf([e]) == [] + Affected(e);
  }

  /** Envelopes published, and records that are noise or dead letters. */
  datatype Tally = Tally(published: nat, skipped: nat)

  function TallyOf(log: seq<Event>): Tally {
    if log == [] then Tally(0, 0)
    else
      var (t, e) := (TallyOf(log[..|log| - 1]), log[|log| - 1]);
      if e.Published? then t.(published := t.published + 1)
      else if e.Unconfirmed? then t
      else t.(skipped := t.skipped + |Carried(e)|)
  }

  lemma {:induction false} TallyAppend(a: seq<Event>, b: seq<Event>)
    ensures var (s, t) := (TallyOf(a), TallyOf(b));
            TallyOf(a + b) == Tally(s.published + t.published, s.skipped + t.skipped)
  {
    if b == [] {
      assert a + b == a;
    } else {
      var n := |b| - 1;
      TallyAppend(a, b[..n]);
      assert (a + b)[..|a + b| - 1] == a + b[..n];
    }
  }

  /** The records of the windows published, one after another. */
  function PublishedRecords(log: seq<Event>): seq<Record> {
    if log == [] then []
    else
      PublishedRecords(log[..|log| - 1]) + if log[|log| - 1].Published? then log[|log| - 1].records else []
  }

  /** Whatever is disposed of is either published or counted as skipped. */
  lemma {:induction false} TallyConserves(log: seq<Event>)
    ensures |PublishedRecords(log)| + TallyOf(log).skipped == |RecordsOf(log)|
    ensures TallyOf(log).published == |set i | 0 <= i < |log| && log[i].Published?|
  {
    var places := set i | 0 <= i < |log| && log[i].Published?;
    if log != [] {
      var n := |log| - 1;
      TallyConserves(log[..n]);
      var before := set i | 0 <= i < n && log[..n][i].Published?;
      assert places == before + if log[n].Published? then {n} else {};
    }
  }

  lemma OneTally(e: Event)
    ensures TallyOf([e])
         == if e.Published? then Tally(1, 0) else Tally(0, if e.Unconfirmed? then 0 else |Carried(e)|)
  {
    assert [e][..0] == [];
  }

  datatype Bisection = Bisection(log: seq<Event>, ok: bool, attempts: nat)

  function Half(n: nat): (h: nat)
    requires n > 1
    ensures 0 < h < n
  {
    if n / 2 > 1 then n / 2 else 1
  }

  /** What processing a window does, from attempt number `tick` on: a rejected window is cut in half
      and its parts are processed left to right; a transient failure stops everything. */
  ghost function Bisect(world: World, tick: nat, w: seq<Record>): (b: Bisection)
    requires w != []
    ensures b.attempts > 0
    decreases |w|
  {
    match Judge(world, tick, w)
    case Noise => Bisection([WasNoise(w)], true, 1)
    case Publish => Bisection([Published(w)], true, 1)
    case Fail => Bisection([], false, 1)
    case Lost => Bisection([Unconfirmed(w)], false, 1)
    case Reject =>
      if |w| == 1 then Bisection([DeadLetter(w[0])], true, 1)
      else
        var mid := Half(|w|);
        var left := Bisect(world, tick + 1, w[..mid]);
        if !left.ok then Bisection(left.log, false, 1 + left.attempts)
        else
          var right := Bisect(world, tick + 1 + left.attempts, w[mid..]);
          Bisection(left.log + right.log, right.ok, 1 + left.attempts + right.attempts)
  }

  lemma BisectSplit(world: World, tick: nat, w: seq<Record>)
    requires |w| > 1 && Judge(world, tick, w).Reject?
    ensures var left := Bisect(world, tick + 1, w[..Half(|w|)]);
            var right := Bisect(world, tick + 1 + left.attempts, w[Half(|w|)..]);
            Bisect(world, tick, w)
            == if left.ok then Bisection(left.log + right.log, right.ok, 1 + left.attempts + right.attempts)
               else Bisection(left.log, false, 1 + left.attempts)
  {
    hide HasBadTime;
  }

  /** Records in file order, without overlap. */
  ghost predicate InOrder(records: seq<Record>) {
    forall i, j :: 0 <= i < j < |records| ==> records[i].line.end <= records[j].line.start
  }

  /** What the later event carries lies wholly behind what the earlier one disposed of. */
  ghost predicate Behind(e: Event, f: Event) {
    forall x <- Affected(e), y <- Carried(f) :: x.line.end <= y.line.start
  }

  ghost predicate Forward(log: seq<Event>) {
    forall i, j :: 0 <= i < j < |log| ==> Behind(log[i], log[j])
  }

  ghost predicate CarriedFrom(log: seq<Event>, w: seq<Record>) {
    forall e <- log, r <- Carried(e) :: r in w
  }

  lemma ForwardAppend(a: seq<Event>, b: seq<Event>)
    requires Forward(a) && Forward(b) && forall e <- a, f <- b :: Behind(e, f)
    ensures Forward(a + b)
  {
    hide Behind;
  }

  /** Windows of the two parts of an ordered window follow each other. */
  lemma HalvesForward(w: seq<Record>, mid: nat, a: seq<Event>, b: seq<Event>)
    requires InOrder(w) && mid <= |w| && CarriedFrom(a, w[..mid]) && CarriedFrom(b, w[mid..])
    ensures forall e <- a, f <- b :: Behind(e, f)
    ensures CarriedFrom(a, w) && CarriedFrom(a + b, w)
  {
    forall e <- a, f <- b, x <- Affected(e), y <- Carried(f) ensures x.line.end <= y.line.start {
      assert x in Carried(e);
      assert x in w[..mid] && y in w[mid..];
      var i :| 0 <= i < mid && w[i] == x;
      var j :| mid <= j < |w| && w[j] == y;
    }
    assert forall r :: r in w[..mid] || r in w[mid..] ==> r in w;
    forall e <- a, r <- Carried(e) ensures r in w {
      assert r in w[..mid];
    }
    forall e <- b, r <- Carried(e) ensures r in w {
      assert r in w[mid..];
    }
  }

  lemma HalvesInOrder(w: seq<Record>, mid: nat)
    requires InOrder(w) && mid <= |w|
    ensures InOrder(w[..mid]) && InOrder(w[mid..])
  {
  }

  /** Everything done to an ordered window, unconfirmed publishes included, moves forward through it. */
  lemma {:induction false} BisectMovesForward(world: World, tick: nat, w: seq<Record>)
    requires w != [] && InOrder(w)
    ensures var b := Bisect(world, tick, w);
            CarriedFrom(b.log, w) && Forward(b.log)
    decreases |w|
  {
    hide HasBadTime, Bisect, InOrder, Forward, CarriedFrom, Behind;
    if Judge(world, tick, w).Reject? && |w| > 1 {
      BisectSplit(world, tick, w);
      var mid := Half(|w|);
      HalvesInOrder(w, mid);
      var left := Bisect(world, tick + 1, w[..mid]);
      BisectMovesForward(world, tick + 1, w[..mid]);
      if left.ok {
        var right := Bisect(world, tick + 1 + left.attempts, w[mid..]);
        BisectMovesForward(world, tick + 1 + left.attempts, w[mid..]);
        HalvesForward(w, mid, left.log, right.log);
        ForwardAppend(left.log, right.log);
      } else {
        NothingCarried(w[mid..]);
        HalvesForward(w, mid, left.log, []);
      }
    } else {
      BisectLeaf(world, tick, w, 0);
      OneWindowForward(Bisect(world, tick, w).log, w);
    }
  }

  lemma NothingCarried(w: seq<Record>)
    ensures CarriedFrom([], w)
  {
  }

  lemma OneWindowForward(log: seq<Event>, w: seq<Record>)
    requires w != [] && |log| <= 1 && (log != [] ==> Carried(log[0]) == w || Carried(log[0]) == [w[0]])
    ensures CarriedFrom(log, w) && Forward(log)
  {
  }

  /** Processing disposes of a prefix of the window, in order: all of it unless a transient failure
      stopped it, and a window of n records takes at most 2n - 1 attempts. Of an ordered window each
      event lies wholly behind the ones before it, so that published byte ranges are disjoint and
      ordered. */
  lemma {:induction false} BisectDisposesPrefix(world: World, tick: nat, w: seq<Record>)
    requires w != []
    ensures var b := Bisect(world, tick, w);
            && RecordsOf(b.log) <= w && b.attempts <= 2 * |w| - 1
            && (b.ok <==> RecordsOf(b.log) == w)
    ensures InOrder(w) ==> CarriedFrom(Bisect(world, tick, w).log, w) && Forward(Bisect(world, tick, w).log)
    decreases |w|
  {
    hide RecordsOf, HasBadTime, Bisect, InOrder, CarriedFrom, Forward;
    var b := Bisect(world, tick, w);
    if InOrder(w) {
      BisectMovesForward(world, tick, w);
    }
    if Judge(world, tick, w).Reject? && |w| > 1 {
      BisectSplit(world, tick, w);
      var mid := Half(|w|);
      var left := Bisect(world, tick + 1, w[..mid]);
      BisectDisposesPrefix(world, tick + 1, w[..mid]);
      if left.ok {
        var right := Bisect(world, tick + 1 + left.attempts, w[mid..]);
        BisectDisposesPrefix(world, tick + 1 + left.attempts, w[mid..]);
        RecordsOfAppend(left.log, right.log);
        PrefixOfHalves(w, mid, RecordsOf(right.log));
      } else {
        PrefixOfFirstHalf(w, mid, RecordsOf(left.log));
      }
    } else {
      NoEvents();
      BisectLeaf(world, tick, w, 0);
      if b.log != [] {
        OneEvent(b.log[0]);
      }
    }
  }

  lemma PrefixOfHalves(w: seq<Record>, mid: nat, more: seq<Record>)
    requires mid <= |w| && more <= w[mid..]
    ensures w[..mid] + more <= w && (w[..mid] + more == w <==> more == w[mid..])
  {
    assert w == w[..mid] + w[mid..];
  }

  lemma PrefixOfFirstHalf(w: seq<Record>, mid: nat, done: seq<Record>)
    requires mid < |w| && done <= w[..mid]
    ensures done <= w && done != w
  {
  }

  function Select(records: seq<Record>, keep: Record -> bool): seq<Record> {
    if records == [] then []
    else Select(records[..|records| - 1], keep)
         + if keep(records[|records| - 1]) then [records[|records| - 1]] else []
  }

  lemma {:induction false} SelectAppend(a: seq<Record>, b: seq<Record>, keep: Record -> bool)
    ensures Select(a + b, keep) == Select(a, keep) + Select(b, keep)
  {
    if b == [] {
      assert a + b == a;
    } else {
      var n := |b| - 1;
      SelectAppend(a, b[..n], keep);
      assert (a + b)[..|a + b| - 1] == a + b[..n];
    }
  }

  /** Windows are rejected for good exactly because of the bad records in them. */
  ghost predicate RejectsExactly(world: World, bad: Record -> bool) {
    forall tick: nat, w: seq<Record> :: Judge(world, tick, w).Reject? <==> exists r <- w :: bad(r)
  }

  /** No published or noise window holds a bad record. */
  ghost predicate OnlyGood(log: seq<Event>, bad: Record -> bool) {
    forall e <- log :: !e.DeadLetter? ==> forall r <- Affected(e) :: !bad(r)
  }

  lemma OnlyGoodAppend(a: seq<Event>, b: seq<Event>, bad: Record -> bool)
    requires OnlyGood(a, bad) && OnlyGood(b, bad)
    ensures OnlyGood(a + b, bad)
  {
  }

  lemma {:induction false} SelectNone(w: seq<Record>, bad: Record -> bool)
    requires forall r <- w :: !bad(r)
    ensures Select(w, bad) == []
  {
    if w != [] {
      SelectNone(w[..|w| - 1], bad);
    }
  }

  /** Bisection isolates exactly the bad records: of the records disposed of, the dead letters are
      the bad ones, in order, and no published or noise window holds a bad record. */
  lemma {:induction false} BisectIsolates(world: World, tick: nat, w: seq<Record>, bad: Record -> bool)
    requires w != [] && RejectsExactly(world, bad)
    ensures var b := Bisect(world, tick, w);
            && DeadLetters(b.log) == Select(RecordsOf(b.log), bad)
            && OnlyGood(b.log, bad)
    decreases |w|
  {
    hide RecordsOf, DeadLetters, Select, HasBadTime, OnlyGood, RejectsExactly, Bisect;
    if Judge(world, tick, w).Reject? && |w| > 1 {
      BisectSplit(world, tick, w);
      var mid := Half(|w|);
      var left := Bisect(world, tick + 1, w[..mid]);
      BisectIsolates(world, tick + 1, w[..mid], bad);
      if left.ok {
        var right := Bisect(world, tick + 1 + left.attempts, w[mid..]);
        BisectIsolates(world, tick + 1 + left.attempts, w[mid..], bad);
        RecordsOfAppend(left.log, right.log);
        DeadLettersAppend(left.log, right.log);
        SelectAppend(RecordsOf(left.log), RecordsOf(right.log), bad);
        OnlyGoodAppend(left.log, right.log, bad);
      }
    } else {
      LeafIsolates(world, tick, w, bad);
    }
  }

  lemma LeafIsolates(world: World, tick: nat, w: seq<Record>, bad: Record -> bool)
    requires w != [] && RejectsExactly(world, bad) && (|w| == 1 || !Judge(world, tick, w).Reject?)
    ensures var b := Bisect(world, tick, w);
            && DeadLetters(b.log) == Select(RecordsOf(b.log), bad)
            && OnlyGood(b.log, bad)
  {
    hide RecordsOf, DeadLetters, HasBadTime;
    var b := Bisect(world, tick, w);
    NoEvents();
    SelectNone([], bad);
    if b.log != [] {
      OneEvent(b.log[0]);
      assert b.log == [b.log[0]];
      if b.log[0].DeadLetter? {
        var r :| r in w && bad(r);
        assert r == w[0] && [w[0]][..0] == [];
      } else {
        SelectNone(w, bad);
      }
    }
  }

  function Log2(n: nat): nat {
    if n <= 1 then 0 else 1 + Log2((n + 1) / 2)
  }

  lemma {:induction false} Log2Grows(a: nat, b: nat)
    requires a <= b
    ensures Log2(a) <= Log2(b)
    decreases b
  {
    if b > 1 {
      Log2Grows((a + 1) / 2, (b + 1) / 2);
    }
  }

  /** Isolating k bad records among n takes at most 1 + 2k ceil(log2 n) attempts: halving is what makes it fast. */
  lemma {:induction false} BisectIsFast(world: World, tick: nat, w: seq<Record>, bad: Record -> bool)
    requires w != [] && RejectsExactly(world, bad)
    ensures Bisect(world, tick, w).attempts <= 1 + 2 * (|Select(w, bad)| * Log2(|w|))
    decreases |w|
  {
    hide RecordsOf, DeadLetters, Select, HasBadTime, Bisect, RejectsExactly, Log2;
    if Judge(world, tick, w).Reject? && |w| > 1 {
      BisectSplit(world, tick, w);
      var mid := Half(|w|);
      var left := Bisect(world, tick + 1, w[..mid]);
      BisectIsFast(world, tick + 1, w[..mid], bad);
      if left.ok {
        BisectIsFast(world, tick + 1 + left.attempts, w[mid..], bad);
      }
      SomeBad(world, tick, w, bad);
      SelectAppend(w[..mid], w[mid..], bad);
      assert w == w[..mid] + w[mid..];
      HalvesAreShorter(|w|);
      FewerAttempts(|Select(w[..mid], bad)|, |Select(w[mid..], bad)|, Log2(mid), Log2(|w| - mid), Log2(|w|));
    } else {
      BisectLeaf(world, tick, w, 0);
    }
  }

  lemma HalvesAreShorter(n: nat)
    requires n > 1
    ensures Log2(Half(n)) < Log2(n) && Log2(n - Half(n)) < Log2(n)
  {
    Log2Grows(Half(n), (n + 1) / 2);
    Log2Grows(n - Half(n), (n + 1) / 2);
  }

  lemma SomeBad(world: World, tick: nat, w: seq<Record>, bad: Record -> bool)
    requires RejectsExactly(world, bad) && Judge(world, tick, w).Reject?
    ensures |Select(w, bad)| > 0
  {
    hide HasBadTime;
    var r :| r in w && bad(r);
    SelectHas(w, bad, r);
  }

  lemma {:induction false} SelectHas(w: seq<Record>, bad: Record -> bool, r: Record)
    requires r in w && bad(r)
    ensures |Select(w, bad)| > 0
  {
    if r != w[|w| - 1] {
      SelectHas(w[..|w| - 1], bad, r);
    }
  }

  lemma FewerAttempts(a: nat, b: nat, x: nat, y: nat, z: nat)
    requires a + b > 0 && x < z && y < z
    ensures 1 + 2 * (a * x) + 1 + 1 + 2 * (b * y) <= 1 + 2 * ((a + b) * z)
    ensures 1 + 2 * (a * x) + 1 <= 1 + 2 * ((a + b) * z)
  {
    Product(a, x, z - 1);
    Product(b, y, z - 1);
    assert (a + b) * z == a * (z - 1) + b * (z - 1) + a + b;
    assert b * y >= 0;
  }

  lemma Product(a: nat, x: nat, y: nat)
    requires x <= y
    ensures a * x <= a * y
  {
  }

  /** At some attempt in a range the times of these records were usable: readable, and at most five
      minutes ahead of the clock. */
  ghost predicate TimelyAtSome(world: World, from: nat, to: nat, records: seq<Record>) {
    exists t: nat | from <= t < to :: Timely(world, t, records)
  }

  ghost predicate Timely(world: World, t: nat, records: seq<Record>) {
    forall r <- records :: && r.stamp.Time? && -8_640_000_000_000_000 <= r.stamp.ms <= 8_640_000_000_000_000
                           && r.stamp.ms <= world.clock(t) + 300_000
  }

  /** At some attempt in a range this record on its own was rejected: for its time, or by what follows. */
  ghost predicate RejectedAtSome(world: World, from: nat, to: nat, r: Record) {
    exists t: nat | from <= t < to :: BadTime(r, world.clock(t)) || world.verdict(t, [r]).Reject?
  }

  ghost predicate AllJudged(world: World, from: nat, to: nat, log: seq<Event>) {
    forall e <- log :: if e.DeadLetter? then RejectedAtSome(world, from, to, e.record)
                       else TimelyAtSome(world, from, to, Carried(e))
  }

  lemma JudgedLater(world: World, from: nat, to: nat, from': nat, to': nat, log: seq<Event>)
    requires AllJudged(world, from, to, log) && from' <= from && to <= to'
    ensures AllJudged(world, from', to', log)
  {
    forall e <- log
      ensures if e.DeadLetter? then RejectedAtSome(world, from', to', e.record)
              else TimelyAtSome(world, from', to', Carried(e))
    {
      if e.DeadLetter? {
        var t: nat :| from <= t < to && (BadTime(e.record, world.clock(t)) || world.verdict(t, [e.record]).Reject?);
        assert from' <= t < to';
      } else {
        var t: nat :| from <= t < to && Timely(world, t, Carried(e));
        assert from' <= t < to';
      }
    }
  }

  lemma JudgedTogether(world: World, from: nat, to: nat, a: seq<Event>, b: seq<Event>)
    requires AllJudged(world, from, to, a) && AllJudged(world, from, to, b)
    ensures AllJudged(world, from, to, a + b)
  {
    hide RejectedAtSome, TimelyAtSome;
  }

  /** Nothing is published or taken for noise before its time, with or without an acknowledgement: when it
      was, all its source times were usable, and none more than five minutes ahead of the clock. And
      nothing is dead-lettered that was not rejected on its own. */
  lemma {:induction false} OnlyTimelyGoThrough(world: World, tick: nat, w: seq<Record>)
    requires w != []
    ensures var b := Bisect(world, tick, w);
            AllJudged(world, tick, tick + b.attempts, b.log)
    decreases |w|
  {
    hide Bisect, AllJudged, HasBadTime;
    var b := Bisect(world, tick, w);
    if Judge(world, tick, w).Reject? && |w| > 1 {
      BisectSplit(world, tick, w);
      var mid := Half(|w|);
      var left := Bisect(world, tick + 1, w[..mid]);
      OnlyTimelyGoThrough(world, tick + 1, w[..mid]);
      JudgedLater(world, tick + 1, tick + 1 + left.attempts, tick, tick + b.attempts, left.log);
      if left.ok {
        var from := tick + 1 + left.attempts;
        var right := Bisect(world, from, w[mid..]);
        OnlyTimelyGoThrough(world, from, w[mid..]);
        JudgedLater(world, from, from + right.attempts, tick, tick + b.attempts, right.log);
        JudgedTogether(world, tick, tick + b.attempts, left.log, right.log);
      }
    } else {
      LeafJudged(world, tick, w);
    }
  }

  lemma UsableIsTimely(world: World, t: nat, w: seq<Record>)
    requires !HasBadTime(w, world.clock(t))
    ensures Timely(world, t, w)
  {
    forall r <- w ensures !BadTime(r, world.clock(t)) {}
  }

  lemma OnlyRecordRejected(world: World, t: nat, w: seq<Record>)
    requires |w| == 1 && Judge(world, t, w).Reject?
    ensures RejectedAtSome(world, t, t + 1, w[0])
  {
    assert w == [w[0]];
    assert BadTime(w[0], world.clock(t)) || world.verdict(t, [w[0]]).Reject?;
  }

  lemma LeafJudged(world: World, tick: nat, w: seq<Record>)
    requires w != [] && (|w| == 1 || !Judge(world, tick, w).Reject?)
    ensures AllJudged(world, tick, tick + 1, Bisect(world, tick, w).log) && Bisect(world, tick, w).attempts == 1
  {
    hide Bisect, HasBadTime, RejectedAtSome, Timely, RecordsOf, DeadLetters, OffsetAfter;
    BisectLeaf(world, tick, w, 0);
    if Judge(world, tick, w).Reject? {
      OnlyRecordRejected(world, tick, w);
    } else {
      UsableIsTimely(world, tick, w);
      assert TimelyAtSome(world, tick, tick + 1, w);
    }
  }

  /** Timestamp errors are such a rejection: while the clock stands still and nothing else is
      rejected for good, exactly the records with unusable source times are dead letters. */
  lemma {:induction false} TimestampsRejectExactly(world: World, now: int)
    requires forall tick: nat :: world.clock(tick) == now
    requires forall tick: nat, w: seq<Record> :: !world.verdict(tick, w).Reject?
    ensures RejectsExactly(world, r => BadTime(r, now))
  {
    var bad := (r: Record) => BadTime(r, now);
    forall tick: nat, w: seq<Record> ensures Judge(world, tick, w).Reject? <==> exists r <- w :: bad(r) {
      if HasBadTime(w, now) {
        var r :| r in w && BadTime(r, now);
        assert bad(r);
      }
    }
  }

  // ----- one pass over a file -----

  /** `parseSessionLine`, as far as it decides: the time stamp of an accepted line. */
  type Parser = Bytes -> Accepted

  /** A line that parses to JSON null makes the parser throw. */
  datatype Accepted = No | Yes(stamp: Stamp) | Throws

  /** No line makes the parser throw. */
  ghost predicate Readable(data: Bytes, lines: seq<Line>, parse: Parser)
    requires forall i :: 0 <= i < |lines| ==> lines[i].start < lines[i].end <= |data|
  {
    forall i :: 0 <= i < |lines| ==> !parse(LineText(data, lines[i])).Throws?
  }

  /** The accepted records of some lines of a file. */
  function Records(data: Bytes, lines: seq<Line>, parse: Parser): seq<Record>
    requires forall i :: 0 <= i < |lines| ==> lines[i].start < lines[i].end <= |data|
  {
    if lines == [] then []
    else
      var l := lines[|lines| - 1];
      Records(data, lines[..|lines| - 1], parse)
      + match parse(LineText(data, l)) case Yes(stamp) => [Record(l, stamp)] case _ => []
  }

  datatype Caps = Caps(maxBytes: nat, maxLines: nat)

  /** The file offset after a bisection: the end of the last record disposed of. */
  function OffsetAfter(log: seq<Event>, offset: nat): nat {
    var done := RecordsOf(log);
    if done == [] then offset else done[|done| - 1].line.end
  }

  datatype Producer = Producer(offset: nat, log: seq<Event>, tick: nat)

  lemma LinesInFile(data: Bytes, from: nat, caps: Caps)
    requires from <= |data|
    ensures var lines := ReadLines(data, from, caps.maxBytes, caps.maxLines);
            forall i :: 0 <= i < |lines| ==> from <= lines[i].start < lines[i].end <= |data|
  {
    ReadTakesNext(data, from, caps.maxBytes, caps.maxLines);
    LinesWithin(data, from);
  }

  ghost function LinesRead(p: Producer, data: Bytes, caps: Caps): (lines: seq<Line>)
    requires p.offset <= |data|
    ensures forall i :: 0 <= i < |lines| ==> p.offset <= lines[i].start < lines[i].end <= |data|
  {
    LinesInFile(data, p.offset, caps);
    ReadLines(data, p.offset, caps.maxBytes, caps.maxLines)
  }

  /** What one pass over a file with a saved offset does. A line on which the parser throws ends the
      pass before anything is done with the lines read. */
  ghost function PassOver(p: Producer, data: Bytes, parse: Parser, world: World, caps: Caps): Producer
    requires p.offset <= |data|
  {
    var lines := LinesRead(p, data, caps);
    var next := EndOf(lines, p.offset);
    var records := Records(data, lines, parse);
    if !Readable(data, lines, parse) then p
    else if records == [] then p.(offset := next)
    else
      var b := Bisect(world, p.tick, records);
      Producer(if b.ok then next else OffsetAfter(b.log, p.offset), p.log + b.log, p.tick + b.attempts)
  }

  /** Whether the pass ends in an error. */
  ghost predicate PassThrows(p: Producer, data: Bytes, parse: Parser, world: World, caps: Caps)
    requires p.offset <= |data|
  {
    var lines := LinesRead(p, data, caps);
    var records := Records(data, lines, parse);
    !Readable(data, lines, parse) || (records != [] && !Bisect(world, p.tick, records).ok)
  }

  // ----- the code -----

  datatype Result =
    | Returned(scanned: nat, accepted: nat, published: nat, skipped: nat, dlq: nat)
    | Seeded
    | Threw

  class SessionTail {
    /** `state`: the saved offset of each file. */
    var offsets: map<string, nat>
    /** Publishes (confirmed or not), noise decisions and dead letters so far. */
    var log: seq<Event>
    /** Attempts made so far. */
    var tick: nat

    constructor ()
      ensures offsets == map[] && log == [] && tick == 0
    {
      offsets, log, tick := map[], [], 0;
    }

    /** `processRecordWindow`, live. */
    method ProcessRecordWindow(key: string, world: World, records: seq<Record>) returns (r: Result)
      requires records != [] && key in offsets
      modifies this
      ensures var b := Bisect(world, old(tick), records);
              && log == old(log) + b.log && tick == old(tick) + b.attempts
              && offsets == old(offsets)[key := OffsetAfter(b.log, old(offsets)[key])]
              && (if b.ok then r.Returned? && r.accepted + r.dlq == |records| && r.dlq == |DeadLetters(b.log)|
                               && TallyOf(b.log) == Tally(r.published, r.skipped)
                  else r.Threw?)
      decreases |records|
    {
      hide Bisect, HasBadTime, OffsetAfter, DeadLetters, TallyOf;
      if |records| > 1 && Judge(world, tick, records).Reject? {
        BisectSplit(world, tick, records);
      } else {
        BisectLeaf(world, tick, records, offsets[key]);
        LeafTally(world, tick, records);
      }
      var now := world.clock(tick);
      var created := SourceCreatedAt(records, now);
      var verdict := if created.Refused? then Reject else world.verdict(tick, records);
      tick := tick + 1;
      match verdict {
        case Noise =>
          log := log + [WasNoise(records)];
          offsets := offsets[key := records[|records| - 1].line.end];
          return Returned(0, |records|, 0, |records|, 0);
        case Publish =>
          log := log + [Published(records)];
          offsets := offsets[key := records[|records| - 1].line.end];
          return Returned(0, |records|, 1, 0, 0);
        case Fail =>
          assert offsets == offsets[key := offsets[key]];
          return Threw;
        case Lost =>
          assert offsets == offsets[key := offsets[key]];
          log := log + [Unconfirmed(records)];
          return Threw;
        case Reject =>
          if |records| > 1 {
            var mid := Half(|records|);
            var left := ProcessRecordWindow(key, world, records[..mid]);
            if left.Threw? {
              return Threw;
            }
            var right := ProcessRecordWindow(key, world, records[mid..]);
            HalvesMeet(world, old(tick), records, old(offsets)[key]);
            if right.Threw? {
              return Threw;
            }
            return Returned(0, left.accepted + right.accepted, left.published + right.published,
                            left.skipped + right.skipped, left.dlq + right.dlq);
          }
          log := log + [DeadLetter(records[0])];
          offsets := offsets[key := records[0].line.end];
          return Returned(0, 0, 0, 1, 1);
      }
    }

    /** `processFile`, live. An unknown file starts at its current end, or at 0 in a backfill; a file
        that shrank below its offset is read from the start. */
    method ProcessFile(key: string, data: Bytes, backfill: bool, parse: Parser, world: World, caps: Caps)
      returns (r: Result)
      modifies this
      ensures forall k <- old(offsets) :: k != key ==> k in offsets && offsets[k] == old(offsets)[k]
      ensures key in offsets
      ensures r.Seeded? <==> key !in old(offsets) && !backfill
      ensures r.Seeded? ==> offsets[key] == |data| && log == old(log) && tick == old(tick)
      ensures !r.Seeded? ==>
                var saved := if key in old(offsets) then old(offsets)[key] else 0;
                var start := Producer(if saved <= |data| then saved else 0, old(log), old(tick));
                var p := PassOver(start, data, parse, world, caps);
                && log == p.log && tick == p.tick
                && (r.Threw? <==> PassThrows(start, data, parse, world, caps))
                && (saved <= |data| || r.Returned? ==> offsets[key] == p.offset)
                && (r.Returned? ==>
                      var lines := LinesRead(start, data, caps);
                      var records := Records(data, lines, parse);
                      && r.scanned == |lines| && r.accepted + r.dlq == |records| && old(log) <= log
                      && (records != [] ==> TallyOf(log[|old(log)|..]) == Tally(r.published, r.skipped))
                      && (records == [] ==> r.published == 0 && r.skipped == |lines|))
    {
      hide Split, Bisect, RecordsOf, DeadLetters, TallyOf;
      if key !in offsets {
        offsets := offsets[key := if backfill then 0 else |data|];
        if !backfill {
          return Seeded;
        }
      }
      var offset := offsets[key];
      if |data| < offset {
        offset := 0;
      }
      var lines, nextOffset := ReadNewLines(data, offset, caps.maxBytes, caps.maxLines);
      if lines == [] {
        offsets := offsets[key := nextOffset];
        NoRecords(data, offset, caps, parse);
        return Returned(0, 0, 0, 0, 0);
      }
      LinesInFile(data, offset, caps);
      var readable, records := ParseLines(data, lines, parse);
      if !readable {
        return Threw;
      }
      if records == [] {
        offsets := offsets[key := nextOffset];
        return Returned(|lines|, 0, 0, |lines|, 0);
      }
      r := ProcessRecordWindow(key, world, records);
      if r.Returned? {
        offsets := offsets[key := nextOffset];
        r := r.(scanned := |lines|);
      }
    }

    /** The parse of the lines read, outside any error handling. */
    method ParseLines(data: Bytes, lines: seq<Line>, parse: Parser) returns (readable: bool, records: seq<Record>)
      requires forall i :: 0 <= i < |lines| ==> lines[i].start < lines[i].end <= |data|
      ensures readable <==> Readable(data, lines, parse)
      ensures readable ==> records == Records(data, lines, parse)
    {
      records := [];
      for i := 0 to |lines|
        invariant Readable(data, lines[..i], parse) && records == Records(data, lines[..i], parse)
      {
        assert lines[..i + 1][..i] == lines[..i];
        match parse(LineText(data, lines[i]))
        case Yes(stamp) => records := records + [Record(lines[i], stamp)];
        case No =>
        case Throws => return false, [];
      }
      assert lines[..|lines|] == lines;
      return true, records;
    }
  }

  lemma NoRecords(data: Bytes, offset: nat, caps: Caps, parse: Parser)
    requires offset <= |data| && ReadLines(data, offset, caps.maxBytes, caps.maxLines) == []
    ensures Records(data, [], parse) == []
  {
  }

  /** `Bisect` on a window that is not cut, with the offset and dead letters it leads to. */
  lemma BisectLeaf(world: World, tick: nat, w: seq<Record>, offset: nat)
    requires w != [] && (|w| == 1 || !Judge(world, tick, w).Reject?)
    ensures var v := Judge(world, tick, w);
            var b := Bisect(world, tick, w);
            && b.attempts == 1 && b.ok == !Transient(v)
            && b.log == (match v case Noise => [WasNoise(w)] case Publish => [Published(w)]
                                 case Fail => [] case Reject => [DeadLetter(w[0])] case Lost => [Unconfirmed(w)])
            && OffsetAfter(b.log, offset) == (if Transient(v) then offset else w[|w| - 1].line.end)
            && DeadLetters(b.log) == (if v.Reject? then [w[0]] else [])
  {
    hide RecordsOf, DeadLetters, HasBadTime;
    NoEvents();
    var b := Bisect(world, tick, w);
    if b.log != [] {
      OneEvent(b.log[0]);
    }
  }

  lemma LeafTally(world: World, tick: nat, w: seq<Record>)
    requires w != [] && (|w| == 1 || !Judge(world, tick, w).Reject?)
    ensures var v := Judge(world, tick, w);
            TallyOf(Bisect(world, tick, w).log)
            == Tally(if v.Publish? then 1 else 0, if v.Noise? then |w| else if v.Reject? then 1 else 0)
  {
    assert TallyOf([]) == Tally(0, 0);
    hide HasBadTime, TallyOf;
    var log := Bisect(world, tick, w).log;
    if log != [] {
      OneTally(log[0]);
      assert log == [log[0]];
    }
  }

  lemma HalvesMeet(world: World, tick: nat, w: seq<Record>, offset: nat)
    requires |w| > 1
    ensures var mid := Half(|w|);
            var left := Bisect(world, tick + 1, w[..mid]);
            left.ok ==>
              var right := Bisect(world, tick + 1 + left.attempts, w[mid..]);
              && OffsetAfter(left.log + right.log, offset) == OffsetAfter(right.log, OffsetAfter(left.log, offset))
              && DeadLetters(left.log + right.log) == DeadLetters(left.log) + DeadLetters(right.log)
              && TallyOf(left.log + right.log) == Tally(TallyOf(left.log).published + TallyOf(right.log).published,
                                                        TallyOf(left.log).skipped + TallyOf(right.log).skipped)
  {
    hide Bisect, RecordsOf, DeadLetters, TallyOf;
    var mid := Half(|w|);
    var left := Bisect(world, tick + 1, w[..mid]);
    if left.ok {
      var right := Bisect(world, tick + 1 + left.attempts, w[mid..]);
      RecordsOfAppend(left.log, right.log);
      DeadLettersAppend(left.log, right.log);
      TallyAppend(left.log, right.log);
    }
  }
}
