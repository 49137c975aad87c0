/** What the producer leaves on record: of a window that throws, in the counters, the poison file and the
    dead-letter file; of a pass that returns, in its counts; and how far a long window is taken apart. */
module TelegramRecords {
  import opened TelegramWindows
  import opened TelegramProducer
  import opened TelegramEndings
  import opened TelegramWork

  // ----- one window that throws -----

  /** When a window that is not split throws: never if it is quarantined already; otherwise if a source
      time is unusable, if there is no summary, or if the text to be published fails its checks or is not
      acknowledged. */
  predicate Throws(s: State, w: Window, b: Behaviour)
    requires w.rows != []
  {
    if RefOf(w) in s.seen then
      match s.seen[RefOf(w)]
      case Quarantined => false
      case Published(_) => !b.timesOk || !b.envelopeOk
      case Prepared(_) => !b.timesOk || !b.envelopeOk || !b.delivery.Acked?
    else
      !b.timesOk
      || match Written(w, b)
         case Noise => false
         case Text(_) => !b.envelopeOk || !b.delivery.Acked?
         case _ => true
  }

  /** The window has a text to publish that passes its checks. */
  predicate Publishes(s: State, w: Window, b: Behaviour)
    requires w.rows != []
  {
    && b.timesOk && b.envelopeOk
    && if RefOf(w) in s.seen then s.seen[RefOf(w)].Prepared? else Written(w, b).Text?
  }

  /** Too long for the summarizer, whatever is tried. */
  predicate TooLongForGood(s: State, w: Window, b: Behaviour)
    requires w.rows != []
  {
    RefOf(w) !in s.seen && b.timesOk && Written(w, b).TooLong?
  }

  /** What a window that throws leaves behind. It is on record exactly once: in the poison file, and then
      it is on file as quarantined and its counter is gone, if it is too long for good or has now failed
      five times; in the dead-letter file, its counter one higher, if not. */
  ghost predicate OnRecord(s: State, s': State, w: Window, b: Behaviour)
    requires w.rows != []
  {
    var (ref, key) := (RefOf(w), KeyOf(w));
    var failures := if key in s.attempts then s.attempts[key] + 1 else 1;
    && s'.sent == (if Publishes(s, w, b) && b.delivery.DeliveredNoAck?
                   then s.sent + [Message(ref, HashOf(s, w, b))] else s.sent)
    && if TooLongForGood(s, w, b) || failures >= 5 then
         && s'.poison == s.poison + [ref] && s'.held == s.held
         && s'.seen == s.seen[ref := Quarantined] && s'.attempts == s.attempts - {key}
       else
         && s'.held == s.held + [ref] && s'.poison == s.poison
         && s'.attempts == s.attempts[key := failures]
         && s'.seen == (if ref !in s.seen && Publishes(s, w, b) then s.seen[ref := Prepared(HashOf(s, w, b))]
                        else s.seen)
  }

  lemma QuarantineLeaves(s: State, w: Window)
    requires w.rows != []
    ensures ApplyAll(s, Quarantine(w))
         == s.(poison := s.poison + [RefOf(w)], seen := s.seen[RefOf(w) := Quarantined],
               attempts := s.attempts - {KeyOf(w)})
  {
    hide ApplyAll;
    ThreeWrites(s, PoisonRow(RefOf(w)), SaveSeen(RefOf(w), Quarantined), DropAttempts(KeyOf(w)));
  }

  lemma FailureLeaves(s: State, t: State, w: Window)
    requires w.rows != [] && t.attempts == s.attempts
    ensures var (ref, key) := (RefOf(w), KeyOf(w));
            var n := Attempts(s, key) + 1;
            ApplyAll(t, Failure(s, w))
            == if n >= 5 then t.(poison := t.poison + [ref], seen := t.seen[ref := Quarantined],
                                 attempts := t.attempts - {key})
               else t.(held := t.held + [ref], attempts := t.attempts[key := n])
  {
    hide ApplyAll, Quarantine;
    var (ref, key) := (RefOf(w), KeyOf(w));
    var n := Attempts(s, key) + 1;
    var t' := Apply(t, SaveAttempts(key, n));
    ApplyCons(t, SaveAttempts(key, n), Failure(s, w)[1..]);
    assert Failure(s, w) == [SaveAttempts(key, n)] + Failure(s, w)[1..];
    if n >= POISON_ATTEMPTS {
      QuarantineLeaves(t', w);
      assert t.attempts[key := n] - {key} == t.attempts - {key};
    } else {
      ApplyOne(t', HeldRow(ref));
    }
  }

  lemma LeafThrows(s: State, w: Window, b: Behaviour)
    requires w.rows != []
    ensures ProcessLeaf(s, w, b).result.Threw? <==> Throws(s, w, b)
    ensures Throws(s, w, b) ==> OnRecord(s, ApplyAll(s, ProcessLeaf(s, w, b).effects), w, b)
  {
    hide ApplyAll, Failure, Quarantine;
    var (ref, h) := (RefOf(w), HashOf(s, w, b));
    var (prepare, send) := (SaveSeen(ref, Prepared(h)), Send(ref, h));
    var (s0, s1) := (Apply(s, prepare), Apply(s, send));
    FailureLeaves(s, s, w);
    FailureLeaves(s, s1, w);
    FailureLeaves(s, s0, w);
    FailureLeaves(s, Apply(s0, send), w);
    QuarantineLeaves(s, w);
    ApplyCons(s, send, Failure(s, w));
    ApplyCons(s, prepare, Failure(s, w));
    ApplyCons(s, prepare, [send] + Failure(s, w));
    ApplyCons(s0, send, Failure(s, w));
    assert s.seen[ref := Prepared(h)][ref := Quarantined] == s.seen[ref := Quarantined];
  }

  // ----- a pass -----

  /** How many rows a window that was split `depth` times may have so that it comes apart into single rows. */
  function Capacity(depth: nat): nat {
    match depth case 0 => 16 case 1 => 8 case 2 => 4 case 3 => 2 case _ => 1
  }

  ghost predicate Shallow(items: seq<Item>) {
    forall i <- items :: |i.window.rows| <= Capacity(i.depth)
  }

  lemma SplitStaysShallow(items: seq<Item>)
    requires items != [] && |items[0].window.rows| > 1 && Shallow(items)
    ensures Shallow(Halves(items[0]) + items[1..])
  {
    HalvesConserve(items[0].window);
    assert items[0] in items;
    forall i <- Halves(items[0]) + items[1..] ensures |i.window.rows| <= Capacity(i.depth) {
      assert i in Halves(items[0]) || i in items;
    }
  }

  lemma ShallowSplits(i: Item)
    requires i.window.rows != [] && |i.window.rows| <= Capacity(i.depth)
    ensures MaySplit(i.window, i.depth) || |i.window.rows| == 1
  {
  }

  /** What a pass that throws leaves: the windows that are final, then `v`, met in state `t` with nothing
      new on record, which throws and is on record once. One that is too long for good is a single row, if
      no window of the batch has more than sixteen. */
  ghost predicate Stopped(s: State, t: State, s': State, v: Window, world: World) {
    && v.rows != [] && t.poison == s.poison && t.held == s.held
    && Throws(t, v, world(v)) && OnRecord(t, s', v, world(v))
  }

  lemma {:induction false} WorkOnRecord(s: State, items: seq<Item>, world: World) returns (t: State, v: Window)
    requires NonEmpty(items)
    ensures var out := Work(s, items, world);
            var s' := ApplyAll(s, out.effects);
            && (out.result.Done? ==> s'.poison == s.poison && s'.held == s.held)
            && (out.result.Threw? ==>
                  && Stopped(s, t, s', v, world) && LeafRows(out.leaves) + v.rows <= RowsOfItems(items)
                  && (Shallow(items) && TooLongForGood(t, v, world(v)) ==> |v.rows| == 1))
    decreases Measure(items)
  {
    hide Work, ApplyAll, ProcessLeaf, Measure, LeafRows, RowsOfItems, Stopped, OnRecord, Throws, LeavesBehind;
    t, v := s, Window("", "", []);
    if items == [] {
      WorkOnNothing(s, world);
    } else {
      var (i, rest) := (items[0], items[1..]);
      WorkStep(s, items, world);
      if Splitting(s, i, world) {
        SplitShrinks(items);
        var drop := DropAttempts(KeyOf(i.window));
        if Shallow(items) {
          SplitStaysShallow(items);
        }
        t, v := WorkOnRecord(Apply(s, drop), Halves(i) + rest, world);
        ApplyCons(s, drop, Work(Apply(s, drop), Halves(i) + rest, world).effects);
        HalvesKeepRows(items);
        DropUnseen(s, KeyOf(i.window), t, ApplyAll(s, Work(s, items, world).effects), v, world);
      } else {
        ItemsSplit(items);
        var (w, b) := (i.window, world(i.window));
        var leaf := ProcessLeaf(s, w, b);
        LeafThrows(s, w, b);
        if leaf.result.Threw? {
          v := w;
          StopsHere(s, i, rest, world);
        } else {
          LeafDone(s, w, b);
          LeafChangesNoRecord(s, w, b);
          LeafOfLeaf(s, w, b);
          var s1 := ApplyAll(s, leaf.effects);
          RestShrinks(items);
          var more := Work(s1, rest, world);
          t, v := WorkOnRecord(s1, rest, world);
          ApplyAppend(s, leaf.effects, more.effects);
          LeafRowsAppend(leaf.leaves, more.leaves);
          SameRecords(s, s1, t, ApplyAll(s1, more.effects), v, world);
          assert more.result.Threw? ==> w.rows + LeafRows(more.leaves) + v.rows <= w.rows + RowsOfItems(rest);
        }
      }
    }
  }

  lemma LeafChangesNoRecord(s: State, w: Window, b: Behaviour)
    requires w.rows != [] && ProcessLeaf(s, w, b).result.Done?
    ensures var s' := ApplyAll(s, ProcessLeaf(s, w, b).effects);
            s'.poison == s.poison && s'.held == s.held
  {
    hide ApplyAll, ProcessLeaf;
    LeafDone(s, w, b);
  }

  lemma StopsHere(s: State, i: Item, rest: seq<Item>, world: World)
    requires i.window.rows != [] && ProcessLeaf(s, i.window, world(i.window)).result.Threw?
    requires !Splitting(s, i, world)
    ensures var out := ProcessLeaf(s, i.window, world(i.window));
            && Stopped(s, s, ApplyAll(s, out.effects), i.window, world)
            && LeafRows(out.leaves) + i.window.rows <= i.window.rows + RowsOfItems(rest)
            && (|i.window.rows| <= Capacity(i.depth) && TooLongForGood(s, i.window, world(i.window))
                ==> |i.window.rows| == 1)
  {
    hide ApplyAll, OnRecord, Throws, RowsOfItems;
    var out := ProcessLeaf(s, i.window, world(i.window));
    LeafThrows(s, i.window, world(i.window));
    assert out.leaves == [] && LeafRows(out.leaves) == [];
    if |i.window.rows| <= Capacity(i.depth) {
      ShallowSplits(i);
    }
  }

  lemma SameRecords(s: State, s1: State, t: State, s': State, v: Window, world: World)
    requires s1.poison == s.poison && s1.held == s.held
    ensures Stopped(s1, t, s', v, world) == Stopped(s, t, s', v, world)
  {
    hide Throws, OnRecord;
  }

  lemma DropUnseen(s: State, key: AttemptKey, t: State, s': State, v: Window, world: World)
    ensures Stopped(Apply(s, DropAttempts(key)), t, s', v, world) == Stopped(s, t, s', v, world)
  {
    hide Throws, OnRecord;
  }

  /** A pass that returns puts nothing on record. One that throws puts exactly one window on record: the
      one that follows the final windows, whose rows are the next of the batch. */
  lemma PassOnRecord(s: State, ws: seq<Window>, world: World) returns (t: State, v: Window)
    requires forall w <- ws :: w.rows != []
    ensures var out := ProcessAll(s, ws, world);
            var s' := ApplyAll(s, out.effects);
            && (out.result.Done? ==> s'.poison == s.poison && s'.held == s.held)
            && (out.result.Threw? ==>
                  && Stopped(s, t, s', v, world) && LeafRows(out.leaves) + v.rows <= RowsOf(ws)
                  && ((forall w <- ws :: |w.rows| <= 16) && TooLongForGood(t, v, world(v)) ==> |v.rows| == 1))
  {
    hide Work, ProcessAll, ApplyAll, LeafRows, RowsOf, RowsOfItems, Stopped, TooLongForGood;
    WorkIsProcessAll(s, ws, world);
    RowsOfBatch(ws);
    t, v := WorkOnRecord(s, ItemsOf(ws), world);
    if forall w <- ws :: |w.rows| <= 16 {
      forall i <- ItemsOf(ws) ensures |i.window.rows| <= Capacity(i.depth) {
        assert i.window in ws;
      }
    }
  }

  // ----- how far a window is taken apart -----

  /** A summarizer for which any two rows are too long, in a world without other failures. */
  ghost predicate OnlySingles(world: World) {
    forall v: Window ::
      && world(v).timesOk && world(v).envelopeOk && world(v).delivery.Acked?
      && if |v.rows| > 1 then world(v).summary.TooLong? else world(v).summary.Text?
  }

  ghost predicate NothingOnFile(s: State, w: Window) {
    forall r <- s.seen :: r.agent != w.agent || r.chat != w.chat
  }

  lemma {:induction false} LongThrows(s: State, w: Window, depth: nat, world: World)
    requires OnlySingles(world) && NothingOnFile(s, w) && depth <= 4 && |w.rows| > Capacity(depth)
    ensures Process(s, w, depth, world).result.Threw?
    decreases |w.rows|
  {
    LongIsCut(s, w, depth, world);
    hide Process, OnlySingles, ProcessLeaf, IsSplit;
    if depth < 4 {
      LongThrows(Apply(s, DropAttempts(KeyOf(w))), FirstHalf(w), depth + 1, world);
      SplitCases(s, w, depth, world);
    }
  }

  lemma LongIsCut(s: State, w: Window, depth: nat, world: World)
    requires OnlySingles(world) && NothingOnFile(s, w) && depth <= 4 && |w.rows| > Capacity(depth)
    ensures depth < 4 ==> IsSplit(s, w, depth, world(w))
    ensures depth == 4 ==> Process(s, w, depth, world).result.Threw?
    ensures depth < 4 ==> |FirstHalf(w).rows| > Capacity(depth + 1)
  {
    assert world(w).timesOk && world(w).summary.TooLong?;
    hide OnlySingles, ApplyAll, Quarantine;
  }

  lemma ShortReturns(s: State, w: Window, world: World)
    requires OnlySingles(world) && 0 < |w.rows| <= 16
    ensures Process(s, w, 0, world).result.Done?
  {
    hide Work, Process, ApplyAll, LeafRows, RowsOfItems, OnRecord;
    var out := Process(s, w, 0, world);
    WorkFront(s, Item(w, 0), [], world);
    ThenCases(s, out, [], world);
    var t, v := WorkOnRecord(s, [Item(w, 0)] + [], world);
  }

  /** Where any two rows are too long for the summarizer and nothing is on file for the chat, a window
      comes apart into single rows, all of which go through, if and only if it has at most sixteen. */
  lemma SixteenComeApart(s: State, w: Window, world: World)
    requires OnlySingles(world) && NothingOnFile(s, w) && w.rows != []
    ensures Process(s, w, 0, world).result.Done? <==> |w.rows| <= 16
  {
    hide Process, OnlySingles, NothingOnFile;
    if |w.rows| <= 16 {
      ShortReturns(s, w, world);
    } else {
      LongThrows(s, w, 0, world);
    }
  }

  // ----- what a pass that returns reports -----

  ghost function RowsEnding(leaves: seq<Leaf>, endings: set<Ending>): nat {
    if leaves == [] then 0
    else (if leaves[0].ending in endings then |leaves[0].window.rows| else 0) + RowsEnding(leaves[1..], endings)
  }

  lemma {:induction false} RowsEndingAppend(a: seq<Leaf>, b: seq<Leaf>, endings: set<Ending>)
    ensures RowsEnding(a + b, endings) == RowsEnding(a, endings) + RowsEnding(b, endings)
  {
    if a == [] {
      assert a + b == b;
    } else {
      assert (a + b)[1..] == a[1..] + b;
      RowsEndingAppend(a[1..], b, endings);
    }
  }

  /** The counts are right: published is the number of messages the work has sent, accepted the number of
      rows published or judged noise, skipped that of rows judged noise or quarantined before. */
  ghost predicate RightCounts(s: State, s': State, out: Outcome) {
    && out.result.Done?
    && out.result.published == |s'.sent| - |s.sent|
    && out.result.accepted == RowsEnding(out.leaves, {WasPublished, WasNoise})
    && out.result.skipped == RowsEnding(out.leaves, {WasNoise, WasQuarantined})
  }

  lemma LeafCounts(s: State, w: Window, b: Behaviour)
    requires w.rows != [] && ProcessLeaf(s, w, b).result.Done?
    ensures RightCounts(s, ApplyAll(s, ProcessLeaf(s, w, b).effects), ProcessLeaf(s, w, b))
  {
    hide ApplyAll;
    LeafDone(s, w, b);
    var leaves := ProcessLeaf(s, w, b).leaves;
    assert leaves[1..] == [];
    assert RowsEnding([], {WasPublished, WasNoise}) == RowsEnding([], {WasNoise, WasQuarantined}) == 0;
  }

  lemma CountsAdd(s: State, s1: State, s2: State, a: Outcome, b: Outcome)
    requires RightCounts(s, s1, a) && RightCounts(s1, s2, b)
    ensures RightCounts(s, s2, Both(a, b))
  {
    RowsEndingAppend(a.leaves, b.leaves, {WasPublished, WasNoise});
    RowsEndingAppend(a.leaves, b.leaves, {WasNoise, WasQuarantined});
  }

  lemma {:induction false} WorkCounts(s: State, items: seq<Item>, world: World)
    requires NonEmpty(items) && Work(s, items, world).result.Done?
    ensures RightCounts(s, ApplyAll(s, Work(s, items, world).effects), Work(s, items, world))
    decreases Measure(items)
  {
    hide Work, ApplyAll, ProcessLeaf, Measure, RightCounts;
    if items == [] {
      WorkOnNothing(s, world);
      NothingCounts(s);
    } else {
      var (i, rest) := (items[0], items[1..]);
      WorkStep(s, items, world);
      if Splitting(s, i, world) {
        SplitShrinks(items);
        var drop := DropAttempts(KeyOf(i.window));
        var s0 := Apply(s, drop);
        var out := Work(s0, Halves(i) + rest, world);
        WorkCounts(s0, Halves(i) + rest, world);
        ApplyCons(s, drop, out.effects);
        DropCounts(s, drop, ApplyAll(s0, out.effects), out);
      } else {
        var leaf := ProcessLeaf(s, i.window, world(i.window));
        LeafCounts(s, i.window, world(i.window));
        var s1 := ApplyAll(s, leaf.effects);
        RestShrinks(items);
        WorkCounts(s1, rest, world);
        var more := Work(s1, rest, world);
        ApplyAppend(s, leaf.effects, more.effects);
        CountsAdd(s, s1, ApplyAll(s1, more.effects), leaf, more);
      }
    }
  }

  lemma NothingCounts(s: State)
    ensures RightCounts(s, s, Outcome([], Done(0, 0, 0), []))
  {
  }

  lemma DropCounts(s: State, drop: Effect, s': State, out: Outcome)
    requires drop.DropAttempts? && RightCounts(Apply(s, drop), s', out)
    ensures RightCounts(s, s', Dropped(drop, out))
  {
  }

  /** A pass that returns reports the right counts. */
  lemma PassCounts(s: State, ws: seq<Window>, world: World)
    requires (forall w <- ws :: w.rows != []) && ProcessAll(s, ws, world).result.Done?
    ensures RightCounts(s, ApplyAll(s, ProcessAll(s, ws, world).effects), ProcessAll(s, ws, world))
  {
    hide Work, ProcessAll, ApplyAll, RightCounts;
    WorkIsProcessAll(s, ws, world);
    WorkCounts(s, ItemsOf(ws), world);
  }

  // ----- the keys the pending scan collects -----

  /** Processing asks the world only about the window and smaller ones. */
  lemma {:induction false} ProcessAsks(s: State, w: Window, depth: nat, world: World, other: World)
    requires w.rows != [] && world(w) == other(w)
    requires forall v: Window | |v.rows| < |w.rows| :: world(v) == other(v)
    ensures Process(s, w, depth, world) == Process(s, w, depth, other)
    decreases |w.rows|
  {
    hide ApplyAll, ProcessLeaf;
    if IsSplit(s, w, depth, world(w)) {
      var s0 := Apply(s, DropAttempts(KeyOf(w)));
      ProcessAsks(s0, FirstHalf(w), depth + 1, world, other);
      var first := Process(s0, FirstHalf(w), depth + 1, world);
      if first.result.Done? {
        HalvesConserve(w);
        ProcessAsks(ApplyAll(s0, first.effects), SecondHalf(w), depth + 1, world, other);
      }
    }
  }

  const NOTHING := State(map[], map[], [], [], [])
  const FAILING := Behaviour(true, Broken, Broken, true, Acked)
  const LONG := Behaviour(true, TooLong, Broken, true, Acked)
  const NOISY := Behaviour(true, Noise, Broken, true, Acked)

  lemma DropNothing(key: AttemptKey)
    ensures Apply(NOTHING, DropAttempts(key)) == NOTHING && ApplyAll(NOTHING, [DropAttempts(key)]) == NOTHING
  {
    ApplyOne(NOTHING, DropAttempts(key));
    assert NOTHING.attempts - {key} == map[];
  }

  /** The collected keys are not too many either: each is one under which processing the window counts a failure
      in some world, even with nothing on file. */
  lemma {:induction false} PendingIsExact(w: Window, depth: nat, k: AttemptKey) returns (world: World)
    requires w.rows != [] && k in PendingKeys(w, depth)
    ensures SaveAttempts(k, 1) in Process(NOTHING, w, depth, world).effects
    decreases |w.rows|
  {
    hide ApplyAll, Process, Quarantine, KeyOf;
    DropNothing(KeyOf(w));
    if k == KeyOf(w) {
      world := _ => FAILING;
      FailsOnce(w, depth, world);
    } else {
      var (a, b) := (FirstHalf(w), SecondHalf(w));
      HalvesConserve(w);
      if k in PendingKeys(a, depth + 1) {
        var part := PendingIsExact(a, depth + 1, k);
        world := v => if v == w then LONG else part(v);
        ProcessAsks(NOTHING, a, depth + 1, part, world);
        FirstCounts(w, depth, world, k);
      } else {
        var part := PendingIsExact(b, depth + 1, k);
        assert a != b;
        world := v => if v == w then LONG else if v == a then NOISY else part(v);
        ProcessAsks(NOTHING, b, depth + 1, part, world);
        SecondCounts(w, depth, world, k);
      }
    }
  }

  lemma FailsOnce(w: Window, depth: nat, world: World)
    requires w.rows != [] && world(w) == FAILING
    ensures SaveAttempts(KeyOf(w), 1) in Process(NOTHING, w, depth, world).effects
  {
    hide KeyOf;
    assert Process(NOTHING, w, depth, world) == Fails(NOTHING, w);
    assert Failure(NOTHING, w)[0] == SaveAttempts(KeyOf(w), 1);
  }

  lemma FirstCounts(w: Window, depth: nat, world: World, k: AttemptKey)
    requires MaySplit(w, depth) && world(w) == LONG && Apply(NOTHING, DropAttempts(KeyOf(w))) == NOTHING
    requires SaveAttempts(k, 1) in Process(NOTHING, FirstHalf(w), depth + 1, world).effects
    ensures SaveAttempts(k, 1) in Process(NOTHING, w, depth, world).effects
  {
    hide ApplyAll, ProcessLeaf, KeyOf;
    SplitCases(NOTHING, w, depth, world);
  }

  lemma SecondCounts(w: Window, depth: nat, world: World, k: AttemptKey)
    requires MaySplit(w, depth) && world(w) == LONG && Apply(NOTHING, DropAttempts(KeyOf(w))) == NOTHING
    requires world(FirstHalf(w)) == NOISY
    requires SaveAttempts(k, 1) in Process(NOTHING, SecondHalf(w), depth + 1, world).effects
    ensures SaveAttempts(k, 1) in Process(NOTHING, w, depth, world).effects
  {
    var a := FirstHalf(w);
    var drop := DropAttempts(KeyOf(a));
    assert Process(NOTHING, a, depth + 1, world) == Outcome([drop], Done(|a.rows|, 0, |a.rows|), [Leaf(a, WasNoise)]);
    hide ApplyAll, ProcessLeaf, KeyOf, Process;
    DropNothing(KeyOf(a));
    SplitCases(NOTHING, w, depth, world);
  }
}
