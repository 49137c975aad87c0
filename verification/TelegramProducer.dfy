/** The write-ahead protocol of the Telegram producer for one window: prepare, publish, mark; split a
    window the summarizer finds too long; count failures and quarantine a window that keeps failing.

    Everything durable that processing a window does is a list of effects in order, so that a crash
    between any two steps is a prefix of the list. */
module TelegramProducer {
  import opened LineReader
  import opened TelegramWindows

  const POISON_ATTEMPTS := 5

  /** A payload hash; it identifies the payload, and with the source ref the message id. */
  type Hash = nat

  // ----- the outside world -----

  datatype Summary = Text(hash: Hash) | Noise | TooLong | Broken

  datatype Delivery = Acked | DeliveredNoAck | Refused

  /** What happens to one window in one pass: whether its source times are usable, what the summarizer
      makes of it, what the truncation ladder makes of a single row, whether its envelope passes the
      checks, and how publishing ends. */
  datatype Behaviour = Behaviour(
    timesOk: bool, summary: Summary, truncated: Summary, envelopeOk: bool, delivery: Delivery)

  type World = Window -> Behaviour

  // ----- durable state -----

  /** An entry of the seen file. Prepared and published entries hold the envelope. */
  datatype Entry = Prepared(hash: Hash) | Published(hash: Hash) | Quarantined

  datatype Message = Message(ref: SourceRef, hash: Hash)

  datatype State = State(
    seen: map<SourceRef, Entry>,
    attempts: map<AttemptKey, nat>,
    sent: seq<Message>,
    poison: seq<SourceRef>,
    held: seq<SourceRef>)

  datatype Effect =
    | SaveSeen(ref: SourceRef, entry: Entry)
    | Send(ref: SourceRef, hash: Hash)
    | SaveAttempts(key: AttemptKey, count: nat)
    | DropAttempts(key: AttemptKey)
    | PoisonRow(ref: SourceRef)
    | HeldRow(ref: SourceRef)

  function Apply(s: State, e: Effect): State {
    match e
    case SaveSeen(ref, entry) => s.(seen := s.seen[ref := entry])
    case Send(ref, hash) => s.(sent := s.sent + [Message(ref, hash)])
    case SaveAttempts(key, count) => s.(attempts := s.attempts[key := count])
    case DropAttempts(key) => s.(attempts := s.attempts - {key})
    case PoisonRow(ref) => s.(poison := s.poison + [ref])
    case HeldRow(ref) => s.(held := s.held + [ref])
  }

  function ApplyAll(s: State, es: seq<Effect>): State {
    if es == [] then s else Apply(ApplyAll(s, es[..|es| - 1]), es[|es| - 1])
  }

  lemma {:induction false} ApplyAppend(s: State, a: seq<Effect>, b: seq<Effect>)
    ensures ApplyAll(s, a + b) == ApplyAll(ApplyAll(s, a), b)
  {
    if b == [] {
      assert a + b == a;
    } else {
      var n := |b| - 1;
      ApplyAppend(s, a, b[..n]);
      assert (a + b)[..|a + b| - 1] == a + b[..n];
    }
  }

  lemma ApplyNone(s: State)
    ensures ApplyAll(s, []) == s
  {
  }

  lemma ApplyOne(s: State, e: Effect)
    ensures ApplyAll(s, [e]) == Apply(s, e)
  {
    assert [e][..0] == [];
    assert ApplyAll(s, [e]) == Apply(ApplyAll(s, []), e);
  }

  lemma ApplyCons(s: State, e: Effect, es: seq<Effect>)
    ensures ApplyAll(s, [e] + es) == ApplyAll(Apply(s, e), es)
  {
    ApplyOne(s, e);
    ApplyAppend(s, [e], es);
  }

  lemma ThreeWrites(s: State, a: Effect, b: Effect, c: Effect)
    ensures ApplyAll(s, [a, b, c]) == Apply(Apply(Apply(s, a), b), c)
  {
    hide ApplyAll;
    ApplyCons(s, a, [b, c]);
    ApplyCons(Apply(s, a), b, [c]);
    ApplyOne(Apply(Apply(s, a), b), c);
    assert [a] + [b, c] == [a, b, c] && [b] + [c] == [b, c];
  }

  function Attempts(s: State, key: AttemptKey): nat {
    if key in s.attempts then s.attempts[key] else 0
  }

  // ----- processing one window -----

  datatype Result = Done(accepted: nat, published: nat, skipped: nat) | Threw

  /** How a window that was not split ended in a pass that did not throw. */
  datatype Ending = WasPublished | WasNoise | WasQuarantined

  datatype Leaf = Leaf(window: Window, ending: Ending)

  datatype Outcome = Outcome(effects: seq<Effect>, result: Result, leaves: seq<Leaf>)

  function Quarantine(w: Window): seq<Effect>
    requires w.rows != []
  {
    [PoisonRow(RefOf(w)), SaveSeen(RefOf(w), Quarantined), DropAttempts(KeyOf(w))]
  }

  /** The catch block: count the failure, and quarantine the window at the fifth. */
  function Failure(s: State, w: Window): seq<Effect>
    requires w.rows != []
  {
    var n := Attempts(s, KeyOf(w)) + 1;
    [SaveAttempts(KeyOf(w), n)] + if n >= POISON_ATTEMPTS then Quarantine(w) else [HeldRow(RefOf(w))]
  }

  function Fails(s: State, w: Window): Outcome
    requires w.rows != []
  {
    Outcome(Failure(s, w), Threw, [])
  }

  /** Publishing an envelope that is prepared, unless it already was. */
  function Deliver(s: State, w: Window, hash: Hash, already: bool, b: Behaviour): Outcome
    requires w.rows != []
  {
    var n := |w.rows|;
    if !b.envelopeOk then Fails(s, w)
    else if already then Outcome([DropAttempts(KeyOf(w))], Done(n, 0, 0), [Leaf(w, WasPublished)])
    else
      match b.delivery
      case Acked =>
        Outcome([Send(RefOf(w), hash), SaveSeen(RefOf(w), Published(hash)), DropAttempts(KeyOf(w))],
                Done(n, 1, 0), [Leaf(w, WasPublished)])
      case DeliveredNoAck => Outcome([Send(RefOf(w), hash)] + Failure(s, w), Threw, [])
      case Refused => Fails(s, w)
  }

  /** Delivery depends on the state only through the attempt counter. */
  lemma SameDelivery(s: State, s': State, w: Window, hash: Hash, b: Behaviour)
    requires w.rows != [] && s.attempts == s'.attempts
    ensures Deliver(s, w, hash, false, b) == Deliver(s', w, hash, false, b)
  {
  }

  /** A summary that is neither too long nor broken. */
  function Summarised(s: State, w: Window, summary: Summary, b: Behaviour): Outcome
    requires w.rows != [] && (summary.Text? || summary.Noise?)
  {
    match summary
    case Noise => Outcome([DropAttempts(KeyOf(w))], Done(|w.rows|, 0, |w.rows|), [Leaf(w, WasNoise)])
    case Text(hash) =>
      if !b.envelopeOk then Fails(s, w)
      else
        var d := Deliver(s, w, hash, false, b);
        Outcome([SaveSeen(RefOf(w), Prepared(hash))] + d.effects, d.result, d.leaves)
  }

  /** The text the window is published with, or why there is none. */
  function Written(w: Window, b: Behaviour): Summary {
    if b.summary.TooLong? && |w.rows| == 1 then b.truncated else b.summary
  }

  predicate IsSplit(s: State, w: Window, depth: nat, b: Behaviour)
    requires w.rows != []
  {
    RefOf(w) !in s.seen && b.timesOk && b.summary.TooLong? && MaySplit(w, depth)
  }

  /** Processing a window that is not split. */
  function ProcessLeaf(s: State, w: Window, b: Behaviour): Outcome
    requires w.rows != []
  {
    if RefOf(w) in s.seen && s.seen[RefOf(w)].Quarantined? then
      Outcome([DropAttempts(KeyOf(w))], Done(0, 0, |w.rows|), [Leaf(w, WasQuarantined)])
    else if !b.timesOk then Fails(s, w)
    else if RefOf(w) in s.seen then
      Deliver(s, w, s.seen[RefOf(w)].hash, s.seen[RefOf(w)].Published?, b)
    else
      match b.summary
      case Text(_) => Summarised(s, w, b.summary, b)
      case Noise => Summarised(s, w, b.summary, b)
      case Broken => Fails(s, w)
      case TooLong =>
        if |w.rows| > 1 then Outcome(Quarantine(w), Threw, [])
        else
          match b.truncated
          case Text(_) => Summarised(s, w, b.truncated, b)
          case Noise => Summarised(s, w, b.truncated, b)
          case Broken => Fails(s, w)
          case TooLong => Outcome(Quarantine(w), Threw, [])
  }

  function Both(a: Outcome, b: Outcome): Outcome
    requires a.result.Done?
  {
    var result := match b.result
      case Threw => Threw
      case Done(x, y, z) => Done(a.result.accepted + x, a.result.published + y, a.result.skipped + z);
    Outcome(a.effects + b.effects, result, a.leaves + b.leaves)
  }

  lemma BothParts(a: Outcome, b: Outcome)
    requires a.result.Done?
    ensures Both(a, b).effects == a.effects + b.effects
    ensures b.result.Threw? ==> Both(a, b).result == Threw
    ensures b.result.Done? ==>
              Both(a, b).result == Done(a.result.accepted + b.result.accepted,
                                        a.result.published + b.result.published, a.result.skipped + b.result.skipped)
  {
  }

  lemma BothUnit(a: Outcome)
    ensures Both(Outcome([], Done(0, 0, 0), []), a) == a
    ensures a.result.Done? ==> Both(a, Outcome([], Done(0, 0, 0), [])) == a
  {
  }

  lemma BothAssociates(a: Outcome, b: Outcome, c: Outcome)
    requires a.result.Done? && b.result.Done?
    ensures Both(a, Both(b, c)) == Both(Both(a, b), c)
  {
  }

  /** `processWindow`, live: the children of a split window are processed in order until one throws. */
  function Process(s: State, w: Window, depth: nat, world: World): Outcome
    requires w.rows != []
    decreases |w.rows|
  {
    if IsSplit(s, w, depth, world(w)) then
      var s0 := Apply(s, DropAttempts(KeyOf(w)));
      var first := Process(s0, FirstHalf(w), depth + 1, world);
      if first.result.Threw? then Outcome([DropAttempts(KeyOf(w))] + first.effects, Threw, first.leaves)
      else
        var both := Both(first, Process(ApplyAll(s0, first.effects), SecondHalf(w), depth + 1, world));
        Outcome([DropAttempts(KeyOf(w))] + both.effects, both.result, both.leaves)
    else ProcessLeaf(s, w, world(w))
  }

  function LeafRows(leaves: seq<Leaf>): seq<Row> {
    if leaves == [] then [] else leaves[0].window.rows + LeafRows(leaves[1..])
  }

  lemma LeafRowsFront(l: Leaf, rest: seq<Leaf>)
    ensures LeafRows([l] + rest) == l.window.rows + LeafRows(rest) && LeafRows([]) == []
  {
    assert ([l] + rest)[1..] == rest;
  }

  lemma {:induction false} LeafRowsAppend(a: seq<Leaf>, b: seq<Leaf>)
    ensures LeafRows(a + b) == LeafRows(a) + LeafRows(b)
  {
    assert LeafRows([]) == [];
    hide LeafRows;
    if a == [] {
      assert a + b == b;
    } else {
      var (l, rest) := (a[0], a[1..]);
      assert a == [l] + rest && a + b == [l] + (rest + b);
      calc {
        LeafRows(a + b);
        { LeafRowsFront(l, rest + b); }
        l.window.rows + LeafRows(rest + b);
        { LeafRowsAppend(rest, b); }
        l.window.rows + (LeafRows(rest) + LeafRows(b));
        (l.window.rows + LeafRows(rest)) + LeafRows(b);
        { LeafRowsFront(l, rest); }
        LeafRows(a) + LeafRows(b);
      }
    }
  }

  /** Splitting conserves rows: when processing does not throw, the windows it ended with hold the
      rows of w in order, each once; when it throws, a proper prefix of them. */
  lemma {:induction false} LeavesConserveRows(s: State, w: Window, depth: nat, world: World)
    requires w.rows != []
    ensures var out := Process(s, w, depth, world);
            && LeafRows(out.leaves) <= w.rows
            && (out.result.Done? <==> LeafRows(out.leaves) == w.rows)
    decreases |w.rows|
  {
    hide ApplyAll, LeafRows;
    var out := Process(s, w, depth, world);
    if IsSplit(s, w, depth, world(w)) {
      var s0 := Apply(s, DropAttempts(KeyOf(w)));
      var first := Process(s0, FirstHalf(w), depth + 1, world);
      LeavesConserveRows(s0, FirstHalf(w), depth + 1, world);
      HalvesConserve(w);
      if first.result.Done? {
        var second := Process(ApplyAll(s0, first.effects), SecondHalf(w), depth + 1, world);
        LeavesConserveRows(ApplyAll(s0, first.effects), SecondHalf(w), depth + 1, world);
        LeafRowsAppend(first.leaves, second.leaves);
      }
    } else {
      LeafOfLeaf(s, w, world(w));
    }
  }

  lemma LeafOfLeaf(s: State, w: Window, b: Behaviour)
    requires w.rows != []
    ensures var out := ProcessLeaf(s, w, b);
            if out.result.Done? then LeafRows(out.leaves) == w.rows else LeafRows(out.leaves) == []
  {
    var out := ProcessLeaf(s, w, b);
    if out.result.Done? {
      assert out.leaves == [out.leaves[0]] && out.leaves[1..] == [];
      assert LeafRows(out.leaves) == w.rows + LeafRows([]);
    }
  }

  // ----- a pass over the windows of a batch -----

  function ProcessAll(s: State, ws: seq<Window>, world: World): Outcome
    requires forall w <- ws :: w.rows != []
    decreases |ws|
  {
    if ws == [] then Outcome([], Done(0, 0, 0), [])
    else
      var first := Process(s, ws[0], 0, world);
      if first.result.Threw? then first
      else Both(first, ProcessAll(ApplyAll(s, first.effects), ws[1..], world))
  }

  lemma RowsOfFront(ws: seq<Window>)
    requires ws != []
    ensures RowsOf(ws) == ws[0].rows + RowsOf(ws[1..])
  {
    hide RowsOf;
    assert ws == [ws[0]] + ws[1..];
    RowsOfAppend([ws[0]], ws[1..]);
    RowsOfOne(ws[0]);
  }

  /** A pass over a batch conserves its rows too: it ends with every one of them, in order, when no
      window throws, and with a proper prefix when one does. */
  lemma {:induction false} BatchConservesRows(s: State, ws: seq<Window>, world: World)
    requires forall w <- ws :: w.rows != []
    ensures var out := ProcessAll(s, ws, world);
            && LeafRows(out.leaves) <= RowsOf(ws)
            && (out.result.Done? <==> LeafRows(out.leaves) == RowsOf(ws))
    decreases |ws|
  {
    assert LeafRows([]) == [];
    hide Process, ApplyAll, LeafRows, RowsOf;
    if ws == [] {
      RowsOfNothing();
    } else {
      var first := Process(s, ws[0], 0, world);
      LeavesConserveRows(s, ws[0], 0, world);
      RowsOfFront(ws);
      if first.result.Done? {
        var rest := ProcessAll(ApplyAll(s, first.effects), ws[1..], world);
        BatchConservesRows(ApplyAll(s, first.effects), ws[1..], world);
        LeafRowsAppend(first.leaves, rest.leaves);
      }
    }
  }

  // ----- the truncation ladder -----

  const MIN_SUMMARY_TOKENS := 2000

  function NextBudget(budget: nat): nat {
    if budget / 2 < MIN_SUMMARY_TOKENS then MIN_SUMMARY_TOKENS else budget / 2
  }

  /** The budgets the ladder would try: halved, but not below the minimum. */
  function Ladder(budget: nat): (l: seq<nat>)
    ensures |l| > 0 && l[0] == budget
    decreases budget
  {
    if budget <= MIN_SUMMARY_TOKENS then [budget] else [budget] + Ladder(NextBudget(budget))
  }

  /** The ladder starts at the budget given, each step is half the last one but at least 2000, and it ends at
      the first budget of 2000 or less. */
  lemma {:induction false} LadderHalves(budget: nat, i: nat)
    requires i < |Ladder(budget)|
    ensures var l := Ladder(budget);
            if i == |l| - 1 then l[i] <= 2000 && (budget >= 2000 ==> l[i] == 2000)
            else l[i] > 2000 && l[i + 1] == if l[i] >= 4000 then l[i] / 2 else 2000
    decreases budget
  {
    if budget > MIN_SUMMARY_TOKENS {
      var rest := Ladder(NextBudget(budget));
      assert Ladder(budget) == [budget] + rest;
      LadderHalves(NextBudget(budget), if i == 0 then 0 else i - 1);
    }
  }

  /** The first budget of the ladder at which the summarizer does not find the row too long decides;
      only if there is none is the ladder exhausted. */
  ghost predicate Decides(budget: nat, summarize: nat -> Summary, r: Summary) {
    var l := Ladder(budget);
    if r.TooLong? then forall i :: 0 <= i < |l| ==> summarize(l[i]).TooLong?
    else exists i :: 0 <= i < |l| && r == summarize(l[i]) && forall j :: 0 <= j < i ==> summarize(l[j]).TooLong?
  }

  lemma DecidesLater(budget: nat, summarize: nat -> Summary, r: Summary)
    requires budget > MIN_SUMMARY_TOKENS && summarize(budget).TooLong? && Decides(NextBudget(budget), summarize, r)
    ensures Decides(budget, summarize, r)
  {
    var (l, rest) := (Ladder(budget), Ladder(NextBudget(budget)));
    assert l == [budget] + rest;
    if !r.TooLong? {
      var i :| 0 <= i < |rest| && r == summarize(rest[i]) && forall j :: 0 <= j < i ==> summarize(rest[j]).TooLong?;
      assert r == summarize(l[i + 1]);
    }
  }

  lemma DecidesNow(budget: nat, summarize: nat -> Summary)
    requires budget <= MIN_SUMMARY_TOKENS || !summarize(budget).TooLong?
    ensures Decides(budget, summarize, summarize(budget))
  {
    assert Ladder(budget)[0] == budget;
  }

  /** `summarizeSingleWithTruncation`. */
  method SummarizeWithTruncation(maxTokens: nat, summarize: nat -> Summary) returns (r: Summary)
    ensures Decides(if maxTokens < MIN_SUMMARY_TOKENS then MIN_SUMMARY_TOKENS else maxTokens, summarize, r)
  {
    hide Decides;
    var budget := if maxTokens < MIN_SUMMARY_TOKENS then MIN_SUMMARY_TOKENS else maxTokens;
    ghost var first := budget;
    while true
      invariant budget >= MIN_SUMMARY_TOKENS
      invariant forall r :: Decides(budget, summarize, r) ==> Decides(first, summarize, r)
      decreases budget
    {
      r := summarize(budget);
      if !r.TooLong? || budget <= MIN_SUMMARY_TOKENS {
        DecidesNow(budget, summarize);
        return;
      }
      forall r | Decides(NextBudget(budget), summarize, r) ensures Decides(first, summarize, r) {
        DecidesLater(budget, summarize, r);
      }
      budget := NextBudget(budget);
    }
  }
}
