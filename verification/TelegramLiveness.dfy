/** Attempt counters and bounded poison liveness: on a batch that does not change and whose windows
    behave the same in every pass, each pass that throws uses up exactly one attempt of one window
    that has to be quarantined, so the number of passes to completion is known exactly. */
module TelegramLiveness {
  import opened TelegramWindows
  import opened TelegramProducer
  import opened TelegramSafety
  import opened TelegramWork
  import opened TelegramEndings

  // ----- attempt-key coverage -----

  /** Every key under which an effect counts a failure is in a set. */
  ghost predicate CountsWithin(es: seq<Effect>, keys: set<AttemptKey>) {
    forall e <- es :: e.SaveAttempts? ==> e.key in keys
  }

  lemma CountsTogether(a: seq<Effect>, b: seq<Effect>, keys: set<AttemptKey>, more: set<AttemptKey>)
    requires CountsWithin(a, keys) && CountsWithin(b, keys)
    ensures CountsWithin(a + b, keys + more)
  {
  }

  lemma CountsWiden(a: seq<Effect>, keys: set<AttemptKey>, more: set<AttemptKey>)
    requires CountsWithin(a, keys) && keys <= more
    ensures CountsWithin(a, more)
  {
  }

  lemma FailureCountsItsKey(s: State, w: Window)
    requires w.rows != []
    ensures CountsWithin(Failure(s, w), {KeyOf(w)}) && CountsWithin(Quarantine(w), {KeyOf(w)})
  {
    hide Attempts, RefOf, KeyOf;
  }

  lemma DeliveryCountsItsKey(s: State, w: Window, hash: Hash, already: bool, b: Behaviour)
    requires w.rows != []
    ensures CountsWithin(Deliver(s, w, hash, already, b).effects, {KeyOf(w)})
  {
    hide Attempts, RefOf, KeyOf, Failure, Quarantine;
    FailureCountsItsKey(s, w);
  }

  lemma LeafCountsItsKey(s: State, w: Window, b: Behaviour)
    requires w.rows != []
    ensures CountsWithin(ProcessLeaf(s, w, b).effects, {KeyOf(w)})
  {
    hide Attempts, RefOf, KeyOf, Failure, Quarantine, Deliver;
    FailureCountsItsKey(s, w);
    forall s', hash, already ensures CountsWithin(Deliver(s', w, hash, already, b).effects, {KeyOf(w)}) {
      DeliveryCountsItsKey(s', w, hash, already, b);
    }
  }

  /** Whatever the windows do and whatever is on file, processing a window counts failures only under
      the keys that the pending scan of the same window collects. */
  lemma {:induction false} AttemptKeysCovered(s: State, w: Window, depth: nat, world: World)
    requires w.rows != []
    ensures CountsWithin(Process(s, w, depth, world).effects, PendingKeys(w, depth))
    decreases |w.rows|
  {
    hide ApplyAll, ProcessLeaf, CountsWithin, PendingKeys;
    PendingCases(w, depth);
    if IsSplit(s, w, depth, world(w)) {
      var drop := [DropAttempts(KeyOf(w))];
      var s0 := Apply(s, drop[0]);
      var keys := PendingKeys(w, depth);
      DropCountsNothing(KeyOf(w), keys);
      var first := Process(s0, FirstHalf(w), depth + 1, world);
      AttemptKeysCovered(s0, FirstHalf(w), depth + 1, world);
      CountsWiden(first.effects, PendingKeys(FirstHalf(w), depth + 1), keys);
      if first.result.Done? {
        var second := Process(ApplyAll(s0, first.effects), SecondHalf(w), depth + 1, world);
        AttemptKeysCovered(ApplyAll(s0, first.effects), SecondHalf(w), depth + 1, world);
        CountsWiden(second.effects, PendingKeys(SecondHalf(w), depth + 1), keys);
        CountsTogether(first.effects, second.effects, keys, {});
        CountsTogether(drop, first.effects + second.effects, keys, {});
      } else {
        CountsTogether(drop, first.effects, keys, {});
      }
      assert keys + {} == keys;
    } else {
      LeafCountsItsKey(s, w, world(w));
      CountsWiden(ProcessLeaf(s, w, world(w)).effects, {KeyOf(w)}, PendingKeys(w, depth));
    }
  }

  lemma DropCountsNothing(key: AttemptKey, keys: set<AttemptKey>)
    ensures CountsWithin([DropAttempts(key)], keys)
  {
  }

  lemma PendingCases(w: Window, depth: nat)
    ensures KeyOf(w) in PendingKeys(w, depth)
    ensures MaySplit(w, depth) ==> PendingKeys(FirstHalf(w), depth + 1) <= PendingKeys(w, depth)
    ensures MaySplit(w, depth) ==> PendingKeys(SecondHalf(w), depth + 1) <= PendingKeys(w, depth)
  {
  }

  /** So pruning by the pending keys of a batch keeps every counter the batch may still need. */
  lemma BatchKeysCovered(s: State, ws: seq<Window>, i: nat, world: World)
    requires i < |ws| && ws[i].rows != []
    ensures CountsWithin(Process(s, ws[i], 0, world).effects, AllPendingKeys(ws))
  {
    AttemptKeysCovered(s, ws[i], 0, world);
    PendingOfWindow(ws, i);
  }

  // ----- what becomes of a window -----

  /** The fate of a window that is processed whole, if it behaves the same every time. */
  datatype Fate = Publishes(hash: Hash) | Noisy | Poisoned | Exhausts

  function FateOf(w: Window, b: Behaviour): Fate {
    if !b.timesOk then Poisoned
    else
      match Written(w, b)
      case Broken => Poisoned
      case Noise => Noisy
      case TooLong => Exhausts
      case Text(hash) => if b.envelopeOk && b.delivery.Acked? then Publishes(hash) else Poisoned
  }

  /** Whether the summarizer makes the producer split a window it has not seen. */
  predicate Splits(w: Window, depth: nat, b: Behaviour) {
    b.timesOk && b.summary.TooLong? && MaySplit(w, depth)
  }

  /** What is on file for a window fits its fate. */
  ghost predicate Fits(s: State, w: Window, b: Behaviour)
    requires w.rows != []
  {
    RefOf(w) in s.seen ==>
      match s.seen[RefOf(w)]
      case Quarantined => FateOf(w, b).Poisoned? || FateOf(w, b).Exhausts?
      case Published(hash) => FateOf(w, b) == Publishes(hash)
      case Prepared(hash) => Written(w, b) == Text(hash) && !FateOf(w, b).Noisy? && !FateOf(w, b).Exhausts?
  }

  predicate IsQuarantined(s: State, w: Window)
    requires w.rows != []
  {
    RefOf(w) in s.seen && s.seen[RefOf(w)].Quarantined?
  }

  /** Failures a counter still has room for before the window is quarantined. */
  function Remaining(count: nat): (n: nat)
    ensures 1 <= n <= POISON_ATTEMPTS
  {
    if count + 1 >= POISON_ATTEMPTS then 1 else POISON_ATTEMPTS - count
  }

  /** Failures a window still has to go through before it is quarantined. */
  function Cost(s: State, w: Window, b: Behaviour): nat
    requires w.rows != []
  {
    if IsQuarantined(s, w) then 0
    else match FateOf(w, b)
      case Poisoned => Remaining(Attempts(s, KeyOf(w)))
      case Exhausts => 1
      case _ => 0
  }

  /** The window has met its fate. */
  ghost predicate Settled(s: State, w: Window, b: Behaviour)
    requires w.rows != []
  {
    match FateOf(w, b)
    case Publishes(hash) => RefOf(w) in s.seen && s.seen[RefOf(w)] == Published(hash)
    case Noisy => RefOf(w) !in s.seen
    case _ => IsQuarantined(s, w)
  }

  /** Two states differ at most in what is on file under some refs and counted under some keys. */
  ghost predicate Elsewhere(s: State, s': State, refs: set<SourceRef>, keys: set<AttemptKey>) {
    && (forall r | r !in refs :: (r in s.seen <==> r in s'.seen) && (r in s.seen ==> s.seen[r] == s'.seen[r]))
    && (forall k | k !in keys :: Attempts(s, k) == Attempts(s', k))
  }

  /** What is on file for a window, and the count kept for it. */
  ghost predicate OnFile(s: State, w: Window, entry: Entry, count: nat)
    requires w.rows != []
  {
    RefOf(w) in s.seen && s.seen[RefOf(w)] == entry && Attempts(s, KeyOf(w)) == count
  }

  lemma QuarantineNet(s: State, w: Window)
    requires w.rows != []
    ensures var s' := ApplyAll(s, Quarantine(w));
            OnFile(s', w, Quarantined, 0) && Elsewhere(s, s', {RefOf(w)}, {KeyOf(w)})
  {
    hide ApplyAll;
    var (a, b, c) := (PoisonRow(RefOf(w)), SaveSeen(RefOf(w), Quarantined), DropAttempts(KeyOf(w)));
    ApplyCons(s, a, [b, c]);
    ApplyCons(Apply(s, a), b, [c]);
    ApplyOne(Apply(Apply(s, a), b), c);
    assert [a] + [b, c] == Quarantine(w) && [b] + [c] == [b, c];
  }

  /** A failure counted by what s0 has on file, which s has too. */
  lemma FailureNet(s0: State, s: State, w: Window)
    requires w.rows != [] && Attempts(s0, KeyOf(w)) == Attempts(s, KeyOf(w))
    ensures var s' := ApplyAll(s, Failure(s0, w));
            var n := Attempts(s, KeyOf(w)) + 1;
            && Elsewhere(s, s', {RefOf(w)}, {KeyOf(w)})
            && (n >= POISON_ATTEMPTS ==> OnFile(s', w, Quarantined, 0))
            && (n < POISON_ATTEMPTS ==> s'.seen == s.seen && Attempts(s', KeyOf(w)) == n)
  {
    hide ApplyAll;
    var n := Attempts(s, KeyOf(w)) + 1;
    var save := SaveAttempts(KeyOf(w), n);
    if n >= POISON_ATTEMPTS {
      ApplyCons(s, save, Quarantine(w));
      QuarantineNet(Apply(s, save), w);
    } else {
      ApplyCons(s, save, [HeldRow(RefOf(w))]);
      ApplyOne(Apply(s, save), HeldRow(RefOf(w)));
    }
  }

  lemma DropNet(s: State, w: Window)
    requires w.rows != []
    ensures var s' := ApplyAll(s, [DropAttempts(KeyOf(w))]);
            s'.seen == s.seen && Attempts(s', KeyOf(w)) == 0 && Elsewhere(s, s', {RefOf(w)}, {KeyOf(w)})
  {
    ApplyOne(s, DropAttempts(KeyOf(w)));
  }

  lemma DeliverNet(s0: State, s: State, w: Window, hash: Hash, already: bool, b: Behaviour)
    requires w.rows != [] && Attempts(s0, KeyOf(w)) == Attempts(s, KeyOf(w))
    ensures var out := Deliver(s0, w, hash, already, b);
            var s' := ApplyAll(s, out.effects);
            var n := Attempts(s, KeyOf(w)) + 1;
            && Elsewhere(s, s', {RefOf(w)}, {KeyOf(w)})
            && (out.result.Done? <==> b.envelopeOk && (already || b.delivery.Acked?))
            && (out.result.Done? && already ==> s'.seen == s.seen)
            && (out.result.Done? && !already ==> RefOf(w) in s'.seen && s'.seen[RefOf(w)] == Published(hash))
            && (out.result.Threw? && n >= POISON_ATTEMPTS ==> OnFile(s', w, Quarantined, 0))
            && (out.result.Threw? && n < POISON_ATTEMPTS ==> s'.seen == s.seen && Attempts(s', KeyOf(w)) == n)
  {
    hide ApplyAll, Failure;
    var ref := RefOf(w);
    if !b.envelopeOk || (!already && b.delivery.Refused?) {
      FailureNet(s0, s, w);
    } else if already {
      DropNet(s, w);
    } else {
      var send := Send(ref, hash);
      if b.delivery.Acked? {
        var save := SaveSeen(ref, Published(hash));
        var drop := DropAttempts(KeyOf(w));
        ApplyCons(s, send, [save, drop]);
        ApplyCons(Apply(s, send), save, [drop]);
        DropNet(Apply(Apply(s, send), save), w);
        assert [send] + [save, drop] == [send, save, drop] && [save] + [drop] == [save, drop];
      } else {
        ApplyCons(s, send, Failure(s0, w));
        FailureNet(s0, Apply(s, send), w);
      }
    }
  }

  /** A window that fails and is not on file as quarantined. */
  lemma FailurePays(s: State, s': State, w: Window, b: Behaviour)
    requires w.rows != [] && FateOf(w, b).Poisoned? && !IsQuarantined(s, w)
    requires var n := Attempts(s, KeyOf(w)) + 1;
             && (n >= POISON_ATTEMPTS ==> OnFile(s', w, Quarantined, 0))
             && (n < POISON_ATTEMPTS ==> !IsQuarantined(s', w) && Attempts(s', KeyOf(w)) == n)
    ensures Cost(s, w, b) > 0 && Cost(s', w, b) == Cost(s, w, b) - 1
  {
  }

  /** One window, processed whole: it throws exactly if it has a cost, which then falls by one;
      otherwise it is settled. Nothing else changes. */
  lemma LeafPass(s: State, w: Window, b: Behaviour)
    requires w.rows != [] && Fits(s, w, b)
    ensures var out := ProcessLeaf(s, w, b);
            var s' := ApplyAll(s, out.effects);
            && Fits(s', w, b) && Elsewhere(s, s', {RefOf(w)}, {KeyOf(w)})
            && (out.result.Done? <==> Cost(s, w, b) == 0)
            && (out.result.Done? ==> Settled(s', w, b) && Cost(s', w, b) == 0)
            && (out.result.Threw? ==> Cost(s', w, b) == Cost(s, w, b) - 1)
  {
    hide ApplyAll, Failure, Deliver, Quarantine, Elsewhere;
    var out := ProcessLeaf(s, w, b);
    var s' := ApplyAll(s, out.effects);
    if IsQuarantined(s, w) {
      DropNet(s, w);
    } else if !b.timesOk {
      FailureNet(s, s, w);
      FailurePays(s, s', w, b);
    } else if RefOf(w) in s.seen {
      var entry := s.seen[RefOf(w)];
      DeliverNet(s, s, w, entry.hash, entry.Published?, b);
      if out.result.Threw? {
        FailurePays(s, s', w, b);
      }
    } else {
      FreshLeafPass(s, w, b);
    }
  }

  lemma FreshLeafPass(s: State, w: Window, b: Behaviour)
    requires w.rows != [] && b.timesOk && RefOf(w) !in s.seen
    ensures var out := ProcessLeaf(s, w, b);
            var s' := ApplyAll(s, out.effects);
            && Fits(s', w, b) && Elsewhere(s, s', {RefOf(w)}, {KeyOf(w)})
            && (out.result.Done? <==> Cost(s, w, b) == 0)
            && (out.result.Done? ==> Settled(s', w, b) && Cost(s', w, b) == 0)
            && (out.result.Threw? ==> Cost(s', w, b) == Cost(s, w, b) - 1)
  {
    hide ApplyAll, Failure, Deliver, Quarantine;
    var out := ProcessLeaf(s, w, b);
    var s' := ApplyAll(s, out.effects);
    match Written(w, b) {
      case Noise => DropNet(s, w);
      case TooLong => QuarantineNet(s, w);
      case Broken =>
        FailureNet(s, s, w);
        FailurePays(s, s', w, b);
      case Text(hash) =>
        if !b.envelopeOk {
          FailureNet(s, s, w);
        } else {
          var prepare := SaveSeen(RefOf(w), Prepared(hash));
          ApplyCons(s, prepare, Deliver(s, w, hash, false, b).effects);
          DeliverNet(s, Apply(s, prepare), w, hash, false, b);
        }
        if out.result.Threw? {
          FailurePays(s, s', w, b);
        }
    }
  }

  /** Fits, settledness and quarantine depend on the entry of the window's own source ref alone. */
  ghost predicate SameEntry(s: State, s': State, r: SourceRef) {
    (r in s.seen <==> r in s'.seen) && (r in s.seen ==> s.seen[r] == s'.seen[r])
  }

  lemma SameEntrySame(s: State, s': State, w: Window, b: Behaviour)
    requires w.rows != [] && SameEntry(s, s', RefOf(w))
    ensures Fits(s, w, b) == Fits(s', w, b) && Settled(s, w, b) == Settled(s', w, b)
    ensures IsQuarantined(s, w) == IsQuarantined(s', w)
    ensures !FateOf(w, b).Poisoned? || IsQuarantined(s, w) || Attempts(s, KeyOf(w)) == Attempts(s', KeyOf(w))
        ==> Cost(s, w, b) == Cost(s', w, b)
  {
  }

  lemma SettledCostsNothing(s: State, w: Window, b: Behaviour)
    requires w.rows != [] && Settled(s, w, b)
    ensures Cost(s, w, b) == 0
  {
  }

  // ----- the windows of a pass, in the order it meets them -----

  datatype Visit = Cut(window: Window) | Whole(window: Window)

  /** What a pass visits when nothing inconsistent is on file: windows that are split, and final ones. */
  ghost function Trace(items: seq<Item>, world: World): (t: seq<Visit>)
    requires NonEmpty(items)
    ensures forall v <- t :: v.window.rows != []
    decreases Measure(items)
  {
    if items == [] then []
    else
      var w := items[0].window;
      if Splits(w, items[0].depth, world(w)) then
        SplitShrinks(items);
        [Cut(w)] + Trace(Halves(items[0]) + items[1..], world)
      else [Whole(w)] + Trace(items[1..], world)
  }

  lemma TraceStep(items: seq<Item>, world: World)
    requires items != [] && NonEmpty(items)
    ensures var (w, next) := (items[0].window, Next(items, world));
            && NonEmpty(next) && Measure(next) < Measure(items)
            && Trace(items, world)
               == [if Splits(w, items[0].depth, world(w)) then Cut(w) else Whole(w)] + Trace(next, world)
  {
    if Splits(items[0].window, items[0].depth, world(items[0].window)) {
      SplitShrinks(items);
    }
  }

  /** The work left after the first visit. */
  ghost function Next(items: seq<Item>, world: World): seq<Item>
    requires items != [] && NonEmpty(items)
  {
    var w := items[0].window;
    if Splits(w, items[0].depth, world(w)) then Halves(items[0]) + items[1..] else items[1..]
  }

  ghost predicate Visits(t: seq<Visit>) {
    forall v <- t :: v.window.rows != []
  }

  /** No two windows visited share a source ref. */
  ghost predicate RefsApart(t: seq<Visit>)
    requires Visits(t)
  {
    forall i, j :: 0 <= i < j < |t| ==> RefOf(t[i].window) != RefOf(t[j].window)
  }

  ghost predicate FitsVisit(s: State, v: Visit, world: World)
    requires v.window.rows != []
  {
    if v.Cut? then RefOf(v.window) !in s.seen else Fits(s, v.window, world(v.window))
  }

  /** What is on file is consistent with what the windows do. */
  ghost predicate FitsTrace(s: State, t: seq<Visit>, world: World)
    requires Visits(t)
  {
    forall v <- t :: FitsVisit(s, v, world)
  }

  ghost predicate SettledTrace(s: State, t: seq<Visit>, world: World)
    requires Visits(t)
  {
    forall v <- t :: v.Whole? ==> Settled(s, v.window, world(v.window))
  }

  ghost function VisitCost(s: State, v: Visit, world: World): nat
    requires v.window.rows != []
  {
    if v.Cut? then 0 else Cost(s, v.window, world(v.window))
  }

  /** Failures the windows still have to go through. */
  ghost function TraceCost(s: State, t: seq<Visit>, world: World): nat
    requires Visits(t)
  {
    if t == [] then 0 else VisitCost(s, t[0], world) + TraceCost(s, t[1..], world)
  }

  /** A window that always fails and is not quarantined yet. */
  ghost predicate Doomed(s: State, v: Visit, world: World)
    requires v.window.rows != []
  {
    v.Whole? && FateOf(v.window, world(v.window)).Poisoned? && !IsQuarantined(s, v.window)
  }

  /** No window visited before a doomed one has its attempt key; every window that gets through drops
      the counter of its key. */
  ghost predicate KeysClear(s: State, t: seq<Visit>, world: World)
    requires Visits(t)
  {
    forall i, j :: 0 <= i < j < |t| && Doomed(s, t[j], world) ==> KeyOf(t[i].window) != KeyOf(t[j].window)
  }

  // ----- one pass -----

  /** What one visit changes on file is under the window's own source ref, and it drops or counts under
      the window's own key. */
  ghost predicate OwnChange(s: State, s': State, w: Window)
    requires w.rows != []
  {
    && (forall r :: r != RefOf(w) ==> SameEntry(s, s', r))
    && forall k :: k != KeyOf(w) ==> Attempts(s, k) == Attempts(s', k)
  }

  ghost predicate Outside(s: State, s': State, t: seq<Visit>)
    requires Visits(t)
  {
    forall r :: (forall v <- t :: RefOf(v.window) != r) ==> SameEntry(s, s', r)
  }

  /** The state after the first visit, unless it throws. */
  ghost function FirstOutcome(s: State, items: seq<Item>, world: World): Outcome
    requires items != [] && NonEmpty(items)
  {
    var w := items[0].window;
    if Splits(w, items[0].depth, world(w)) then Outcome([DropAttempts(KeyOf(w))], Done(0, 0, 0), [])
    else ProcessLeaf(s, w, world(w))
  }

  /** One visit of a pass over work that fits: the visit's own outcome, then the rest. */
  lemma VisitStep(s: State, items: seq<Item>, world: World)
    requires items != [] && NonEmpty(items) && FitsTrace(s, Trace(items, world), world)
    ensures NonEmpty(Next(items, world)) && Measure(Next(items, world)) < Measure(items)
    ensures var (w, b, first) := (items[0].window, world(items[0].window), FirstOutcome(s, items, world));
            var s1 := ApplyAll(s, first.effects);
            var all := Work(s, items, world);
            && OwnChange(s, s1, w)
            && (first.result.Threw? ==> all.result.Threw? && ApplyAll(s, all.effects) == s1)
            && (first.result.Done? ==>
                  var rest := Work(s1, Next(items, world), world);
                  && Attempts(s1, KeyOf(w)) == 0
                  && all.result.Done? == rest.result.Done?
                  && ApplyAll(s, all.effects) == ApplyAll(s1, rest.effects))
  {
    hide Work, ApplyAll, ProcessLeaf, Elsewhere, Measure, Trace;
    var (i, w, b) := (items[0], items[0].window, world(items[0].window));
    TraceStep(items, world);
    var t := Trace(items, world);
    assert t[0] in t;
    WorkStep(s, items, world);
    var first := FirstOutcome(s, items, world);
    if Splits(w, i.depth, b) {
      var drop := DropAttempts(KeyOf(w));
      ApplyOne(s, drop);
      ApplyCons(s, drop, Work(Apply(s, drop), Next(items, world), world).effects);
    } else {
      LeafPass(s, w, b);
      var s1 := ApplyAll(s, first.effects);
      ElsewhereIsOwn(s, s1, w);
      if first.result.Done? {
        LeafDone(s, w, b);
        ApplyAppend(s, first.effects, Work(s1, Next(items, world), world).effects);
      }
    }
  }

  lemma ElsewhereIsOwn(s: State, s': State, w: Window)
    requires w.rows != [] && Elsewhere(s, s', {RefOf(w)}, {KeyOf(w)})
    ensures OwnChange(s, s', w)
  {
  }

  /** A change under another source ref leaves the later visits alone: they fit, and cost what they did
      unless a doomed one has the key. */
  lemma {:induction false} OthersKeep(s: State, s': State, w: Window, t: seq<Visit>, world: World)
    requires w.rows != [] && Visits(t) && OwnChange(s, s', w)
    requires forall v <- t :: RefOf(v.window) != RefOf(w)
    ensures FitsTrace(s, t, world) == FitsTrace(s', t, world)
    ensures forall v <- t :: Doomed(s, v, world) == Doomed(s', v, world)
    ensures (forall v <- t :: Doomed(s, v, world) ==> KeyOf(v.window) != KeyOf(w))
        ==> TraceCost(s, t, world) == TraceCost(s', t, world)
  {
    hide RefOf, KeyOf, Fits, Cost, FateOf, IsQuarantined, Settled, Attempts, SameEntry;
    forall v <- t
      ensures FitsVisit(s, v, world) == FitsVisit(s', v, world) && Doomed(s, v, world) == Doomed(s', v, world)
      ensures !Doomed(s, v, world) || KeyOf(v.window) != KeyOf(w) ==> VisitCost(s, v, world) == VisitCost(s', v, world)
    {
      OneKeeps(s, s', w, v, world);
    }
    if t != [] {
      OthersKeep(s, s', w, t[1..], world);
    }
  }

  lemma OneKeeps(s: State, s': State, w: Window, v: Visit, world: World)
    requires w.rows != [] && v.window.rows != [] && OwnChange(s, s', w) && RefOf(v.window) != RefOf(w)
    ensures FitsVisit(s, v, world) == FitsVisit(s', v, world) && Doomed(s, v, world) == Doomed(s', v, world)
    ensures !Doomed(s, v, world) || KeyOf(v.window) != KeyOf(w) ==> VisitCost(s, v, world) == VisitCost(s', v, world)
  {
    hide RefOf, KeyOf, Fits, Cost, FateOf, IsQuarantined, Settled, Attempts;
    assert SameEntry(s, s', RefOf(v.window));
    SameEntrySame(s, s', v.window, world(v.window));
  }

  lemma OutsideCons(s: State, s1: State, s': State, t: seq<Visit>)
    requires t != [] && Visits(t) && RefsApart(t) && OwnChange(s, s1, t[0].window) && Outside(s1, s', t[1..])
    ensures Outside(s, s', t) && SameEntry(s1, s', RefOf(t[0].window))
  {
    hide RefOf, KeyOf, Attempts;
    forall v <- t[1..] ensures RefOf(v.window) != RefOf(t[0].window) {
      var i :| 0 <= i < |t| - 1 && t[1..][i] == v;
      assert t[i + 1] == v;
    }
    forall r | forall v <- t :: RefOf(v.window) != r ensures SameEntry(s, s', r) {
      assert t[0] in t;
      assert SameEntry(s, s1, r);
      assert forall v <- t[1..] :: v in t;
      assert SameEntry(s1, s', r);
    }
  }

  lemma OutsideNothing(s: State, t: seq<Visit>)
    requires Visits(t)
    ensures Outside(s, s, t)
  {
  }

  lemma RefsApartTail(t: seq<Visit>)
    requires t != [] && Visits(t) && RefsApart(t)
    ensures RefsApart(t[1..]) && forall v <- t[1..] :: RefOf(v.window) != RefOf(t[0].window)
  {
    hide RefOf;
    forall v <- t[1..] ensures RefOf(v.window) != RefOf(t[0].window) {
      var i :| 0 <= i < |t| - 1 && t[1..][i] == v;
      assert t[i + 1] == v;
    }
  }

  lemma FitsTraceCons(s: State, t: seq<Visit>, world: World)
    requires t != [] && Visits(t)
    ensures FitsTrace(s, t, world) <==> FitsVisit(s, t[0], world) && FitsTrace(s, t[1..], world)
  {
    hide FitsVisit;
    assert t == [t[0]] + t[1..];
  }

  lemma FitsSame(s: State, s': State, v: Visit, world: World)
    requires v.window.rows != [] && SameEntry(s, s', RefOf(v.window))
    ensures FitsVisit(s, v, world) == FitsVisit(s', v, world) && Doomed(s, v, world) == Doomed(s', v, world)
    ensures v.Whole? ==> Settled(s, v.window, world(v.window)) == Settled(s', v.window, world(v.window))
  {
    hide Fits, Settled, IsQuarantined, Cost, FateOf;
    SameEntrySame(s, s', v.window, world(v.window));
  }

  /** The first visit keeps its own window fitting. */
  lemma FirstFits(s: State, items: seq<Item>, world: World)
    requires items != [] && NonEmpty(items) && FitsTrace(s, Trace(items, world), world)
    ensures var (v, first) := (Trace(items, world)[0], FirstOutcome(s, items, world));
            var s1 := ApplyAll(s, first.effects);
            && FitsVisit(s1, v, world) && v.window == items[0].window
            && (first.result.Done? <==> VisitCost(s, v, world) == 0)
            && (first.result.Done? && v.Whole? ==> Settled(s1, v.window, world(v.window)))
            && (first.result.Threw? ==> v.Whole? && VisitCost(s1, v, world) == VisitCost(s, v, world) - 1)
  {
    hide ApplyAll, ProcessLeaf, Elsewhere, Measure, Trace, Fits, Settled, Cost;
    TraceStep(items, world);
    var (w, b) := (items[0].window, world(items[0].window));
    assert Trace(items, world)[0] in Trace(items, world);
    if Splits(w, items[0].depth, b) {
      ApplyOne(s, DropAttempts(KeyOf(w)));
    } else {
      LeafPass(s, w, b);
    }
  }

  /** Whatever throws, what is on file goes on fitting, and nothing else on file changes. */
  lemma {:induction false} WorkFits(s: State, items: seq<Item>, world: World)
    requires NonEmpty(items)
    requires var t := Trace(items, world); RefsApart(t) && FitsTrace(s, t, world)
    ensures var (t, s') := (Trace(items, world), ApplyAll(s, Work(s, items, world).effects));
            FitsTrace(s', t, world) && Outside(s, s', t)
    decreases Measure(items)
  {
    hide Work, ApplyAll, Measure, RefsApart, FitsTrace, Outside, OwnChange, SameEntry, FitsVisit, FirstOutcome,
         Next, RefOf;
    var t := Trace(items, world);
    if items == [] {
      WorkOnNothing(s, world);
      OutsideNothing(s, t);
    } else {
      TraceStep(items, world);
      hide Trace;
      VisitStep(s, items, world);
      FirstFits(s, items, world);
      RefsApartTail(t);
      FitsTraceCons(s, t, world);
      var (first, next) := (FirstOutcome(s, items, world), Next(items, world));
      var s1 := ApplyAll(s, first.effects);
      OthersKeep(s, s1, t[0].window, t[1..], world);
      assert t[1..] == Trace(next, world);
      if first.result.Done? {
        WorkFits(s1, next, world);
        var s' := ApplyAll(s1, Work(s1, next, world).effects);
        OutsideCons(s, s1, s', t);
        FitsSame(s1, s', t[0], world);
        FitsTraceCons(s', t, world);
      } else {
        OutsideNothing(s1, t[1..]);
        OutsideCons(s, s1, s1, t);
        FitsTraceCons(s1, t, world);
      }
    }
  }

  lemma FirstFades(s: State, items: seq<Item>, world: World)
    requires items != [] && NonEmpty(items) && FitsTrace(s, Trace(items, world), world)
    ensures var v := Trace(items, world)[0];
            Doomed(ApplyAll(s, FirstOutcome(s, items, world).effects), v, world) ==> Doomed(s, v, world)
  {
    hide ApplyAll, ProcessLeaf, Elsewhere, Measure, Trace, Fits;
    TraceStep(items, world);
    FirstFits(s, items, world);
  }

  /** No pass dooms a window again that is quarantined. */
  lemma {:induction false} DoomedFades(s: State, items: seq<Item>, world: World)
    requires NonEmpty(items)
    requires var t := Trace(items, world); RefsApart(t) && FitsTrace(s, t, world)
    ensures var s' := ApplyAll(s, Work(s, items, world).effects);
            forall v <- Trace(items, world) :: Doomed(s', v, world) ==> Doomed(s, v, world)
    decreases Measure(items)
  {
    hide Work, ApplyAll, Measure, RefsApart, FitsTrace, Outside, OwnChange, SameEntry, FirstOutcome, Next, RefOf,
         Doomed;
    var t := Trace(items, world);
    if items != [] {
      TraceStep(items, world);
      hide Trace;
      VisitStep(s, items, world);
      FirstFades(s, items, world);
      RefsApartTail(t);
      FitsTraceCons(s, t, world);
      var (first, next) := (FirstOutcome(s, items, world), Next(items, world));
      var s1 := ApplyAll(s, first.effects);
      OthersKeep(s, s1, t[0].window, t[1..], world);
      assert t[1..] == Trace(next, world) && t == [t[0]] + t[1..];
      if first.result.Done? {
        DoomedFades(s1, next, world);
        WorkFits(s1, next, world);
        var s' := ApplyAll(s1, Work(s1, next, world).effects);
        OutsideCons(s, s1, s', t);
        FitsSame(s1, s', t[0], world);
      }
    }
  }

  lemma FadingKeepsClear(s: State, s': State, t: seq<Visit>, world: World)
    requires Visits(t) && KeysClear(s, t, world) && forall v <- t :: Doomed(s', v, world) ==> Doomed(s, v, world)
    ensures KeysClear(s', t, world)
  {
    hide Doomed, KeyOf;
  }

  /** One pass: it throws exactly if there is a cost left, which then falls by one; otherwise all is
      settled. */
  ghost predicate PaysOne(s: State, s': State, t: seq<Visit>, world: World, out: Outcome)
    requires Visits(t)
  {
    && (out.result.Done? <==> TraceCost(s, t, world) == 0)
    && (out.result.Done? ==> SettledTrace(s', t, world) && TraceCost(s', t, world) == 0)
    && (out.result.Threw? ==> TraceCost(s', t, world) == TraceCost(s, t, world) - 1)
  }

  lemma KeysClearTail(s: State, s1: State, t: seq<Visit>, world: World)
    requires t != [] && Visits(t) && KeysClear(s, t, world)
    requires forall v <- t[1..] :: Doomed(s, v, world) == Doomed(s1, v, world)
    ensures KeysClear(s1, t[1..], world)
    ensures forall v <- t[1..] :: Doomed(s, v, world) ==> KeyOf(v.window) != KeyOf(t[0].window)
  {
    hide Doomed, KeyOf;
    var rest := t[1..];
    forall i, j | 0 <= i < j < |rest| && Doomed(s1, rest[j], world)
      ensures KeyOf(rest[i].window) != KeyOf(rest[j].window)
    {
      assert rest[j] in rest;
      assert t[i + 1] == rest[i] && t[j + 1] == rest[j];
    }
    forall v <- rest | Doomed(s, v, world) ensures KeyOf(v.window) != KeyOf(t[0].window) {
      var j :| 0 <= j < |rest| && rest[j] == v;
      assert t[j + 1] == v;
    }
  }

  lemma SettledCons(s: State, t: seq<Visit>, world: World)
    requires t != [] && Visits(t)
    ensures SettledTrace(s, t, world)
       <==> SettledTrace(s, t[1..], world) && (t[0].Whole? ==> Settled(s, t[0].window, world(t[0].window)))
    ensures t[0].Whole? && Settled(s, t[0].window, world(t[0].window)) ==> VisitCost(s, t[0], world) == 0
  {
    assert t == [t[0]] + t[1..];
    if t[0].Whole? && Settled(s, t[0].window, world(t[0].window)) {
      SettledCostsNothing(s, t[0].window, world(t[0].window));
    }
  }

  lemma {:induction false} WorkPass(s: State, items: seq<Item>, world: World)
    requires NonEmpty(items)
    requires var t := Trace(items, world); RefsApart(t) && FitsTrace(s, t, world) && KeysClear(s, t, world)
    ensures var out := Work(s, items, world);
            PaysOne(s, ApplyAll(s, out.effects), Trace(items, world), world, out)
    decreases Measure(items)
  {
    hide Work, ApplyAll, Measure, RefsApart, FitsTrace, Outside, OwnChange, SameEntry, FitsVisit, FirstOutcome,
         Next, RefOf, KeysClear, Doomed, KeyOf, SettledTrace, VisitCost, Settled;
    var t := Trace(items, world);
    if items == [] {
      WorkOnNothing(s, world);
      NothingToSettle(s, world);
    } else {
      TraceStep(items, world);
      hide Trace;
      VisitStep(s, items, world);
      FirstFits(s, items, world);
      RefsApartTail(t);
      FitsTraceCons(s, t, world);
      var (first, next) := (FirstOutcome(s, items, world), Next(items, world));
      var s1 := ApplyAll(s, first.effects);
      assert t[1..] == Trace(next, world);
      KeysClearTail(s, s, t, world);
      OthersKeep(s, s1, t[0].window, t[1..], world);
      KeysClearTail(s, s1, t, world);
      if first.result.Done? {
        WorkPass(s1, next, world);
        WorkFits(s1, next, world);
        var s' := ApplyAll(s1, Work(s1, next, world).effects);
        OutsideCons(s, s1, s', t);
        FitsSame(s1, s', t[0], world);
        SettledCons(s', t, world);
        CutsAreFree(s', t[0], world);
      }
    }
  }

  lemma NothingToSettle(s: State, world: World)
    ensures SettledTrace(s, [], world)
  {
  }

  lemma CutsAreFree(s: State, v: Visit, world: World)
    requires v.window.rows != []
    ensures v.Cut? ==> VisitCost(s, v, world) == 0
  {
  }

  // ----- why a shared attempt key stalls -----

  /** What the first visit leaves for the rest of the pass. */
  lemma HeadStep(s: State, items: seq<Item>, world: World)
    requires items != [] && NonEmpty(items)
    requires var t := Trace(items, world); RefsApart(t) && FitsTrace(s, t, world)
    ensures var (t, first, next) := (Trace(items, world), FirstOutcome(s, items, world), Next(items, world));
            var s1 := ApplyAll(s, first.effects);
            var out := Work(s, items, world);
            && NonEmpty(next) && Measure(next) < Measure(items) && t != [] && t[1..] == Trace(next, world)
            && RefsApart(t[1..]) && FitsTrace(s1, t[1..], world) && OwnChange(s, s1, t[0].window)
            && (forall v <- t[1..] :: Doomed(s, v, world) == Doomed(s1, v, world))
            && (first.result.Threw? ==> out.result.Threw? && ApplyAll(s, out.effects) == s1)
            && (first.result.Done? ==>
                  var rest := Work(s1, next, world);
                  && Attempts(s1, KeyOf(t[0].window)) == 0 && out.result.Done? == rest.result.Done?
                  && ApplyAll(s, out.effects) == ApplyAll(s1, rest.effects))
  {
    hide Work, ApplyAll, Measure, RefsApart, FitsTrace, OwnChange, FirstOutcome, Next, RefOf, Doomed, Attempts, KeyOf;
    var t := Trace(items, world);
    TraceStep(items, world);
    hide Trace;
    VisitStep(s, items, world);
    RefsApartTail(t);
    FitsTraceCons(s, t, world);
    OthersKeep(s, ApplyAll(s, FirstOutcome(s, items, world).effects), t[0].window, t[1..], world);
  }

  lemma DoomedFails(s: State, items: seq<Item>, world: World)
    requires items != [] && NonEmpty(items) && FitsTrace(s, Trace(items, world), world)
    requires Doomed(s, Trace(items, world)[0], world) && Attempts(s, KeyOf(Trace(items, world)[0].window)) == 0
    ensures var (v, first) := (Trace(items, world)[0], FirstOutcome(s, items, world));
            first.result.Threw? && Doomed(ApplyAll(s, first.effects), v, world)
  {
    hide ApplyAll, ProcessLeaf, Elsewhere, Measure, Trace, Fits, Settled;
    TraceStep(items, world);
    assert Trace(items, world)[0] in Trace(items, world);
    LeafPass(s, items[0].window, world(items[0].window));
  }

  /** A doomed window whose counter stands at nothing, and is dropped or left alone by all before it, is
      not quarantined by the pass. */
  lemma {:induction false} Starves(s: State, items: seq<Item>, world: World, j: nat)
    requires NonEmpty(items) && j < |Trace(items, world)|
    requires var t := Trace(items, world);
             && RefsApart(t) && FitsTrace(s, t, world)
             && Doomed(s, t[j], world) && Attempts(s, KeyOf(t[j].window)) == 0
    ensures var out := Work(s, items, world);
            out.result.Threw? && Doomed(ApplyAll(s, out.effects), Trace(items, world)[j], world)
    decreases Measure(items)
  {
    NothingVisited(world);
    hide Work, ApplyAll, Measure, RefsApart, FitsTrace, OwnChange, FirstOutcome, Next, Doomed, Attempts, KeyOf, Trace;
    HeadStep(s, items, world);
    var t := Trace(items, world);
    var (first, next) := (FirstOutcome(s, items, world), Next(items, world));
    var s1 := ApplyAll(s, first.effects);
    if j == 0 {
      DoomedFails(s, items, world);
    } else {
      assert t[1..][j - 1] == t[j];
      if first.result.Done? {
        CounterStays(s, s1, t[0].window, KeyOf(t[j].window));
        Starves(s1, next, world, j - 1);
      }
    }
  }

  lemma NothingVisited(world: World)
    ensures Trace([], world) == []
  {
  }

  lemma CounterStays(s: State, s1: State, w: Window, k: AttemptKey)
    requires w.rows != [] && OwnChange(s, s1, w) && Attempts(s1, KeyOf(w)) == 0 && Attempts(s, k) == 0
    ensures Attempts(s1, k) == 0
  {
  }

  /** If a window visited before a doomed one has its key, the pass throws and leaves it doomed. */
  lemma {:induction false} Stalls(s: State, items: seq<Item>, world: World, i: nat, j: nat)
    requires NonEmpty(items) && i < j < |Trace(items, world)|
    requires var t := Trace(items, world);
             && RefsApart(t) && FitsTrace(s, t, world)
             && Doomed(s, t[j], world) && KeyOf(t[i].window) == KeyOf(t[j].window)
    ensures var out := Work(s, items, world);
            out.result.Threw? && Doomed(ApplyAll(s, out.effects), Trace(items, world)[j], world)
    decreases Measure(items)
  {
    NothingVisited(world);
    hide Work, ApplyAll, Measure, RefsApart, FitsTrace, OwnChange, FirstOutcome, Next, Doomed, Attempts, KeyOf, Trace;
    HeadStep(s, items, world);
    var t := Trace(items, world);
    var (first, next) := (FirstOutcome(s, items, world), Next(items, world));
    var s1 := ApplyAll(s, first.effects);
    assert t[1..][j - 1] == t[j];
    if first.result.Done? {
      if i == 0 {
        Starves(s1, next, world, j - 1);
      } else {
        assert t[1..][i - 1] == t[i];
        Stalls(s1, next, world, i - 1, j - 1);
      }
    }
  }

  // ----- repeated passes -----

  /** `pruneAttemptState` at the start of a run, when no counter is too old and there are not too many:
      only counters of windows that are still pending stay. */
  function PruneTo(s: State, pending: set<AttemptKey>): State {
    s.(attempts := map k <- s.attempts | k in pending :: s.attempts[k])
  }

  ghost function BatchTrace(ws: seq<Window>, world: World): (t: seq<Visit>)
    requires forall w <- ws :: w.rows != []
    ensures Visits(t)
  {
    assert forall i <- ItemsOf(ws) :: i.window in ws;
    Trace(ItemsOf(ws), world)
  }

  ghost function OnePass(s: State, ws: seq<Window>, world: World): Outcome
    requires forall w <- ws :: w.rows != []
  {
    ProcessAll(PruneTo(s, AllPendingKeys(ws)), ws, world)
  }

  ghost function AfterPass(s: State, ws: seq<Window>, world: World): State
    requires forall w <- ws :: w.rows != []
  {
    ApplyAll(PruneTo(s, AllPendingKeys(ws)), OnePass(s, ws, world).effects)
  }

  ghost function AfterPasses(s: State, ws: seq<Window>, world: World, n: nat): State
    requires forall w <- ws :: w.rows != []
  {
    if n == 0 then s else AfterPass(AfterPasses(s, ws, world, n - 1), ws, world)
  }

  lemma AllWindowsPending(ws: seq<Window>)
    ensures forall w <- ws :: PendingKeys(w, 0) <= AllPendingKeys(ws)
  {
    forall i | 0 <= i < |ws| ensures PendingKeys(ws[i], 0) <= AllPendingKeys(ws) {
      PendingOfWindow(ws, i);
    }
  }

  ghost predicate AllPending(items: seq<Item>, keys: set<AttemptKey>) {
    forall i <- items :: PendingKeys(i.window, i.depth) <= keys
  }

  /** All keys a pass may count under are pending. */
  lemma {:induction false} VisitsArePending(items: seq<Item>, world: World, keys: set<AttemptKey>)
    requires NonEmpty(items) && AllPending(items, keys)
    ensures forall v <- Trace(items, world) :: KeyOf(v.window) in keys
    decreases Measure(items)
  {
    hide PendingKeys, KeyOf, Measure;
    if items != [] {
      TraceStep(items, world);
      PendingCases(items[0].window, items[0].depth);
      var next := Next(items, world);
      assert AllPending(next, keys);
      hide Trace;
      VisitsArePending(next, world, keys);
    }
  }

  /** Pruning to keys that hold those of the visits changes nothing for them. */
  lemma {:induction false} PruneKeeps(s: State, keys: set<AttemptKey>, t: seq<Visit>, world: World)
    requires Visits(t) && forall v <- t :: KeyOf(v.window) in keys
    ensures var p := PruneTo(s, keys);
            && FitsTrace(p, t, world) == FitsTrace(s, t, world)
            && TraceCost(p, t, world) == TraceCost(s, t, world)
            && KeysClear(p, t, world) == KeysClear(s, t, world)
            && forall v <- t :: Doomed(p, v, world) == Doomed(s, v, world)
  {
    hide KeyOf, Fits, FateOf;
    var p := PruneTo(s, keys);
    forall v <- t
      ensures FitsVisit(p, v, world) == FitsVisit(s, v, world) && Doomed(p, v, world) == Doomed(s, v, world)
      ensures VisitCost(p, v, world) == VisitCost(s, v, world)
    {
      SameEntrySame(s, p, v.window, world(v.window));
    }
    if t != [] {
      PruneKeeps(s, keys, t[1..], world);
    }
    hide Doomed, FitsVisit;
    assert KeysClear(p, t, world) == KeysClear(s, t, world);
  }

  lemma PassIsWork(s: State, ws: seq<Window>, world: World)
    requires forall w <- ws :: w.rows != []
    ensures NonEmpty(ItemsOf(ws)) && BatchTrace(ws, world) == Trace(ItemsOf(ws), world)
    ensures var p := PruneTo(s, AllPendingKeys(ws));
            && OnePass(s, ws, world) == Work(p, ItemsOf(ws), world)
            && AfterPass(s, ws, world) == ApplyAll(p, Work(p, ItemsOf(ws), world).effects)
            && (FitsTrace(p, BatchTrace(ws, world), world) == FitsTrace(s, BatchTrace(ws, world), world))
            && TraceCost(p, BatchTrace(ws, world), world) == TraceCost(s, BatchTrace(ws, world), world)
            && KeysClear(p, BatchTrace(ws, world), world) == KeysClear(s, BatchTrace(ws, world), world)
            && forall v <- BatchTrace(ws, world) :: Doomed(p, v, world) == Doomed(s, v, world)
  {
    hide Work, ApplyAll, Trace, AllPendingKeys, PendingKeys, FitsTrace, TraceCost, KeysClear, Doomed, ProcessAll,
         PruneTo;
    var keys := AllPendingKeys(ws);
    WorkIsProcessAll(PruneTo(s, keys), ws, world);
    AllWindowsPending(ws);
    assert AllPending(ItemsOf(ws), keys);
    VisitsArePending(ItemsOf(ws), world, keys);
    PruneKeeps(s, keys, BatchTrace(ws, world), world);
  }

  lemma PassPaysOne(s: State, ws: seq<Window>, world: World)
    requires forall w <- ws :: w.rows != []
    requires var t := BatchTrace(ws, world); RefsApart(t) && FitsTrace(s, t, world)
    ensures var (t, s') := (BatchTrace(ws, world), AfterPass(s, ws, world));
            && FitsTrace(s', t, world)
            && (KeysClear(s, t, world) ==> KeysClear(s', t, world) && PaysOne(s, s', t, world, OnePass(s, ws, world)))
  {
    hide Work, ApplyAll, Trace, FitsTrace, TraceCost, KeysClear, Doomed, RefsApart, AfterPass, OnePass, BatchTrace,
         SettledTrace;
    PassIsWork(s, ws, world);
    var p := PruneTo(s, AllPendingKeys(ws));
    WorkFits(p, ItemsOf(ws), world);
    if KeysClear(s, BatchTrace(ws, world), world) {
      WorkPass(p, ItemsOf(ws), world);
      DoomedFades(p, ItemsOf(ws), world);
      FadingKeepsClear(p, AfterPass(s, ws, world), BatchTrace(ws, world), world);
    }
  }

  /** Bounded poison liveness, exactly: every pass before pass number TraceCost + 1 throws, that pass
      returns, and then every window that always fails is quarantined and every other one is published
      with its own text or judged noise. */
  lemma {:induction false} PassesToCompletion(s: State, ws: seq<Window>, world: World, n: nat)
    requires forall w <- ws :: w.rows != []
    requires var t := BatchTrace(ws, world);
             RefsApart(t) && FitsTrace(s, t, world) && KeysClear(s, t, world) && n <= TraceCost(s, t, world)
    ensures var (t, now) := (BatchTrace(ws, world), AfterPasses(s, ws, world, n));
            && FitsTrace(now, t, world) && KeysClear(now, t, world)
            && TraceCost(now, t, world) == TraceCost(s, t, world) - n
            && (n < TraceCost(s, t, world) ==> OnePass(now, ws, world).result.Threw?)
            && (n == TraceCost(s, t, world) ==>
                  OnePass(now, ws, world).result.Done? && SettledTrace(AfterPass(now, ws, world), t, world))
  {
    hide TraceCost, FitsTrace, SettledTrace, KeysClear, RefsApart, AfterPass, OnePass, BatchTrace;
    if n > 0 {
      PassesToCompletion(s, ws, world, n - 1);
      PassPaysOne(AfterPasses(s, ws, world, n - 1), ws, world);
    }
    PassPaysOne(AfterPasses(s, ws, world, n), ws, world);
  }

  /** A doomed window that comes after another visit with its key is never quarantined, and no pass
      returns. */
  lemma {:induction false} StallsForever(s: State, ws: seq<Window>, world: World, i: nat, j: nat, n: nat)
    requires forall w <- ws :: w.rows != []
    requires var t := BatchTrace(ws, world);
             && RefsApart(t) && FitsTrace(s, t, world) && i < j < |t|
             && Doomed(s, t[j], world) && KeyOf(t[i].window) == KeyOf(t[j].window)
    ensures var (t, now) := (BatchTrace(ws, world), AfterPasses(s, ws, world, n));
            FitsTrace(now, t, world) && Doomed(now, t[j], world) && OnePass(now, ws, world).result.Threw?
  {
    hide FitsTrace, RefsApart, AfterPass, OnePass, BatchTrace, Doomed, KeyOf;
    if n > 0 {
      StallsForever(s, ws, world, i, j, n - 1);
      StallsOnce(AfterPasses(s, ws, world, n - 1), ws, world, i, j);
    }
    StallsOnce(AfterPasses(s, ws, world, n), ws, world, i, j);
  }

  lemma StallsOnce(s: State, ws: seq<Window>, world: World, i: nat, j: nat)
    requires forall w <- ws :: w.rows != []
    requires var t := BatchTrace(ws, world);
             && RefsApart(t) && FitsTrace(s, t, world) && i < j < |t|
             && Doomed(s, t[j], world) && KeyOf(t[i].window) == KeyOf(t[j].window)
    ensures var (t, s') := (BatchTrace(ws, world), AfterPass(s, ws, world));
            FitsTrace(s', t, world) && Doomed(s', t[j], world) && OnePass(s, ws, world).result.Threw?
  {
    hide FitsTrace, RefsApart, AfterPass, OnePass, BatchTrace, Doomed, KeyOf, Work, ApplyAll, PruneTo, TraceCost,
         KeysClear;
    PassPaysOne(s, ws, world);
    PassIsWork(s, ws, world);
    assert BatchTrace(ws, world)[j] in BatchTrace(ws, world);
    Stalls(PruneTo(s, AllPendingKeys(ws)), ItemsOf(ws), world, i, j);
  }

  /** A batch of windows that behave the same in every pass is got through if and only if no window
      visited before one that always fails, and is not quarantined yet, has its attempt key. */
  lemma CompletesIffKeysClear(s: State, ws: seq<Window>, world: World)
    requires forall w <- ws :: w.rows != []
    requires var t := BatchTrace(ws, world); RefsApart(t) && FitsTrace(s, t, world)
    ensures (exists n :: OnePass(AfterPasses(s, ws, world, n), ws, world).result.Done?)
       <==> KeysClear(s, BatchTrace(ws, world), world)
  {
    hide FitsTrace, RefsApart, AfterPass, AfterPasses, OnePass, BatchTrace, Doomed, KeyOf, TraceCost, SettledTrace;
    var t := BatchTrace(ws, world);
    if KeysClear(s, t, world) {
      PassesToCompletion(s, ws, world, TraceCost(s, t, world));
    } else {
      var i, j :| 0 <= i < j < |t| && Doomed(s, t[j], world) && KeyOf(t[i].window) == KeyOf(t[j].window);
      forall n: nat ensures OnePass(AfterPasses(s, ws, world, n), ws, world).result.Threw? {
        StallsForever(s, ws, world, i, j, n);
      }
    }
  }

  // ----- bounds and starting points -----

  /** Windows that are not split further. */
  ghost function WholeCount(t: seq<Visit>): nat {
    if t == [] then 0 else (if t[0].Whole? then 1 else 0) + WholeCount(t[1..])
  }

  /** At most five failing passes for each window the batch ends up with. */
  lemma {:induction false} TraceCostBound(s: State, t: seq<Visit>, world: World)
    requires Visits(t)
    ensures TraceCost(s, t, world) <= 5 * WholeCount(t)
  {
    if t != [] {
      TraceCostBound(s, t[1..], world);
    }
  }

  /** The first run over windows of which nothing is on file starts from exactly this cost: five for
      every window that always fails, one for every window that no budget makes short enough. */
  ghost function FreshCost(t: seq<Visit>, world: World): nat {
    if t == [] then 0
    else
      FreshCost(t[1..], world)
      + if t[0].Cut? then 0
        else
          match FateOf(t[0].window, world(t[0].window))
          case Poisoned => 5
          case Exhausts => 1
          case _ => 0
  }

  lemma {:induction false} FreshCostIsCost(s: State, t: seq<Visit>, world: World)
    requires Visits(t)
    requires forall v <- t :: RefOf(v.window) !in s.seen && KeyOf(v.window) !in s.attempts
    ensures FitsTrace(s, t, world) && TraceCost(s, t, world) == FreshCost(t, world)
  {
    hide RefOf, KeyOf;
    if t != [] {
      assert t[0] in t && t == [t[0]] + t[1..];
      FreshCostIsCost(s, t[1..], world);
    }
  }

  /** Message ids do not repeat within a chat. */
  ghost predicate DistinctIds(rows: seq<Row>) {
    forall i, j :: 0 <= i < j < |rows| ==> OtherMessage(rows[i], rows[j])
  }

  ghost predicate OtherMessage(x: Row, y: Row) {
    x.agent == y.agent && x.chat == y.chat ==> x.id != y.id
  }

  ghost predicate OfOneChat(w: Window) {
    w.rows != [] && Owns(w.agent, w.chat, w.rows)
  }

  /** Every visit is to a part of one of the windows of the work. */
  ghost predicate PartOf(v: Window, w: Window) {
    OfOneChat(v) && v.agent == w.agent && v.chat == w.chat && forall x <- v.rows :: x in w.rows
  }

  ghost predicate OneChatEach(items: seq<Item>) {
    forall i <- items :: OfOneChat(i.window)
  }

  lemma HalvesAreParts(i: Item)
    requires OfOneChat(i.window) && |i.window.rows| > 1
    ensures PartOf(FirstHalf(i.window), i.window) && PartOf(SecondHalf(i.window), i.window)
  {
  }

  lemma {:induction false} VisitsAreParts(items: seq<Item>, world: World, v: Visit)
    requires NonEmpty(items) && OneChatEach(items) && v in Trace(items, world)
    ensures exists i <- items :: PartOf(v.window, i.window)
    decreases Measure(items)
  {
    hide Measure, OfOneChat, PartOf;
    NothingVisited(world);
    TraceStep(items, world);
    hide Trace;
    var i := items[0];
    WholeIsPart(i.window) by { assert i in items; }
    if v.window == i.window {
      assert PartOf(v.window, i.window);
    } else {
      var next := Next(items, world);
      if Splits(i.window, i.depth, world(i.window)) {
        HalvesAreParts(i);
        PartIsOfOneChat(FirstHalf(i.window), i.window);
        PartIsOfOneChat(SecondHalf(i.window), i.window);
      }
      VisitsAreParts(next, world, v);
      var k :| k in next && PartOf(v.window, k.window);
      if k !in items {
        PartsCompose(v.window, k.window, i.window);
      }
    }
  }

  lemma WholeIsPart(w: Window)
    requires OfOneChat(w)
    ensures PartOf(w, w)
  {
  }

  lemma PartIsOfOneChat(v: Window, w: Window)
    requires PartOf(v, w)
    ensures OfOneChat(v)
  {
  }

  lemma PartsCompose(u: Window, v: Window, w: Window)
    requires PartOf(u, v) && PartOf(v, w)
    ensures PartOf(u, w)
  {
  }

  lemma EarlierOther(before: seq<Row>, after: seq<Row>, x: Row, y: Row)
    requires DistinctIds(before + after) && x in before && y in after
    ensures OtherMessage(x, y)
  {
    hide OtherMessage;
    var k :| 0 <= k < |before| && before[k] == x;
    var l :| 0 <= l < |after| && after[l] == y;
    var all := before + after;
    assert OtherMessage(all[k], all[|before| + l]);
  }

  lemma DistinctParts(before: seq<Row>, after: seq<Row>)
    requires DistinctIds(before + after)
    ensures DistinctIds(before) && DistinctIds(after)
  {
    hide OtherMessage;
    var all := before + after;
    assert forall i :: 0 <= i < |before| ==> all[i] == before[i];
    assert forall i :: 0 <= i < |after| ==> all[|before| + i] == after[i];
  }

  /** A window and one with rows of other messages have different source refs. */
  lemma OtherRowsOtherRef(v: Window, w: Window)
    requires OfOneChat(v) && OfOneChat(w)
    requires OtherMessage(v.rows[0], w.rows[0]) || OtherMessage(v.rows[|v.rows| - 1], w.rows[|w.rows| - 1])
    ensures RefOf(v) != RefOf(w)
  {
    assert v.rows[0] in v.rows && w.rows[0] in w.rows;
    assert v.rows[|v.rows| - 1] in v.rows && w.rows[|w.rows| - 1] in w.rows;
  }

  lemma OtherIsSymmetric(x: Row, y: Row)
    ensures OtherMessage(x, y) == OtherMessage(y, x)
  {
  }

  lemma RestHasOtherRef(w: Window, rest: seq<Item>, k: Item, v: Window)
    requires OfOneChat(w) && DistinctIds(w.rows + RowsOfItems(rest)) && k in rest && PartOf(v, k.window)
    ensures RefOf(v) != RefOf(w)
  {
    hide OtherMessage, DistinctIds, RefOf, RowsOfItems;
    assert v.rows[0] in v.rows && w.rows[0] in w.rows;
    InRowsOfItems(rest, k, v.rows[0]);
    EarlierOther(w.rows, RowsOfItems(rest), w.rows[0], v.rows[0]);
    OtherIsSymmetric(w.rows[0], v.rows[0]);
    OtherRowsOtherRef(v, w);
  }

  lemma HalfHasOtherRef(w: Window, v: Window)
    requires OfOneChat(w) && DistinctIds(w.rows) && |w.rows| > 1
    requires PartOf(v, FirstHalf(w)) || PartOf(v, SecondHalf(w))
    ensures RefOf(v) != RefOf(w)
  {
    hide OtherMessage, DistinctIds, RefOf;
    var (a, b, n) := (FirstHalf(w), SecondHalf(w), |v.rows| - 1);
    HalvesConserve(w);
    assert w.rows[0] == a.rows[0] && w.rows[|w.rows| - 1] == b.rows[|b.rows| - 1];
    assert a.rows[0] in a.rows && b.rows[|b.rows| - 1] in b.rows && v.rows[0] in v.rows && v.rows[n] in v.rows;
    if PartOf(v, a) {
      EarlierOther(a.rows, b.rows, v.rows[n], b.rows[|b.rows| - 1]);
    } else {
      EarlierOther(a.rows, b.rows, a.rows[0], v.rows[0]);
      OtherIsSymmetric(a.rows[0], v.rows[0]);
    }
    OtherRowsOtherRef(v, w);
  }

  /** A later visit, to the rest of the work or to a part of one half, has another source ref. */
  lemma LaterOtherRef(items: seq<Item>, world: World, v: Visit)
    requires items != [] && NonEmpty(items) && OneChatEach(items) && DistinctIds(RowsOfItems(items))
    requires NonEmpty(Next(items, world)) && OneChatEach(Next(items, world)) && v in Trace(Next(items, world), world)
    ensures RefOf(v.window) != RefOf(items[0].window)
  {
    hide Measure, Trace, OtherMessage, DistinctIds, RefOf, RowsOfItems, PartOf, OfOneChat;
    var (w, rest) := (items[0].window, items[1..]);
    assert items[0] in items;
    ItemsSplit(items);
    VisitsAreParts(Next(items, world), world, v);
    var k :| k in Next(items, world) && PartOf(v.window, k.window);
    if k in rest {
      RestHasOtherRef(w, rest, k, v.window);
    } else {
      DistinctParts(w.rows, RowsOfItems(rest));
      HalfHasOtherRef(w, v.window);
    }
  }

  /** Message ids that do not repeat within a chat keep the source refs apart, whatever is split. */
  lemma {:induction false} DistinctIdsApart(items: seq<Item>, world: World)
    requires NonEmpty(items) && OneChatEach(items) && DistinctIds(RowsOfItems(items))
    ensures RefsApart(Trace(items, world))
    decreases Measure(items)
  {
    hide Measure, DistinctIds, RowsOfItems, RefOf, OfOneChat;
    var t := Trace(items, world);
    if items != [] {
      var (i, next) := (items[0], Next(items, world));
      assert i in items;
      TraceStep(items, world);
      hide Trace;
      if Splits(i.window, i.depth, world(i.window)) {
        HalvesAreParts(i);
        PartIsOfOneChat(FirstHalf(i.window), i.window);
        PartIsOfOneChat(SecondHalf(i.window), i.window);
        HalvesKeepRows(items);
      } else {
        ItemsSplit(items);
        DistinctParts(i.window.rows, RowsOfItems(next));
      }
      DistinctIdsApart(next, world);
      forall v <- Trace(next, world) ensures RefOf(v.window) != RefOf(i.window) {
        LaterOtherRef(items, world, v);
      }
      ApartCons(t);
    }
  }

  lemma ApartCons(t: seq<Visit>)
    requires t != [] && Visits(t) && RefsApart(t[1..])
    requires forall v <- t[1..] :: RefOf(v.window) != RefOf(t[0].window)
    ensures RefsApart(t)
  {
    hide RefOf;
    forall i, j | 0 <= i < j < |t| ensures RefOf(t[i].window) != RefOf(t[j].window) {
      assert t[1..][j - 1] == t[j];
      if i > 0 {
        assert t[1..][i - 1] == t[i];
      } else {
        assert t[j] in t[1..];
      }
    }
  }
}
