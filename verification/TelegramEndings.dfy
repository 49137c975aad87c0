/** How the final windows of a pass end: what the pass leaves on file for them and what it has sent. */
module TelegramEndings {
  import opened TelegramWindows
  import opened TelegramProducer
  import opened TelegramSafety
  import opened TelegramWork

  // ----- one window -----

  /** The payload a window that counts as published goes out with: what is on file for its source ref,
      or else its own text. */
  function HashOf(s: State, w: Window, b: Behaviour): Hash
    requires w.rows != []
  {
    if RefOf(w) in s.seen then if s.seen[RefOf(w)].Quarantined? then 0 else s.seen[RefOf(w)].hash
    else if Written(w, b).Text? then Written(w, b).hash else 0
  }

  /** What a window that did not throw leaves behind. */
  ghost predicate LeavesBehind(s: State, s': State, w: Window, b: Behaviour, ending: Ending)
    requires w.rows != []
  {
    var (ref, h) := (RefOf(w), HashOf(s, w, b));
    && s'.poison == s.poison && s'.held == s.held
    && match ending
    case WasNoise => ref !in s.seen && s'.seen == s.seen && s'.sent == s.sent
    case WasQuarantined => ref in s.seen && s.seen[ref].Quarantined? && s'.seen == s.seen && s'.sent == s.sent
    case WasPublished =>
      && (if ref in s.seen then !s.seen[ref].Quarantined? else Written(w, b) == Text(h))
      && s'.seen == s.seen[ref := Published(h)]
      && s'.sent == (if ref in s.seen && s.seen[ref].Published? then s.sent else s.sent + [Message(ref, h)])
  }

  lemma LeafDone(s: State, w: Window, b: Behaviour)
    requires w.rows != [] && ProcessLeaf(s, w, b).result.Done?
    ensures var out := ProcessLeaf(s, w, b);
            && |out.leaves| == 1 && out.leaves[0].window == w
            && LeavesBehind(s, ApplyAll(s, out.effects), w, b, out.leaves[0].ending)
            && (forall k :: Attempts(ApplyAll(s, out.effects), k) == if k == KeyOf(w) then 0 else Attempts(s, k))
  {
    hide ApplyAll;
    var (ref, h, drop) := (RefOf(w), HashOf(s, w, b), DropAttempts(KeyOf(w)));
    ApplyOne(s, drop);
    var (prepare, send, save) := (SaveSeen(ref, Prepared(h)), Send(ref, h), SaveSeen(ref, Published(h)));
    ThreeWrites(s, send, save, drop);
    var s0 := Apply(s, prepare);
    ThreeWrites(s0, send, save, drop);
    ApplyCons(s, prepare, [send, save, drop]);
    assert s.seen[ref := Prepared(h)][ref := Published(h)] == s.seen[ref := Published(h)];
    assert ref in s.seen && s.seen[ref] == Published(h) ==> s.seen[ref := Published(h)] == s.seen;
  }

  lemma LeafKeepsSafe(s: State, w: Window, b: Behaviour)
    requires w.rows != [] && Safe(s)
    ensures Safe(ApplyAll(s, ProcessLeaf(s, w, b).effects))
  {
    hide Safe, LegalAll, ProcessLeaf, ApplyAll;
    var es := ProcessLeaf(s, w, b).effects;
    LeafLegal(s, w, b);
    PrefixSafe(s, es, |es|, RefOf(w));
    assert es[..|es|] == es;
  }

  lemma {:induction false} SentGrows(s: State, es: seq<Effect>)
    ensures s.sent <= ApplyAll(s, es).sent
  {
    if es != [] {
      SentGrows(s, es[..|es| - 1]);
    }
  }

  // ----- a pass -----

  /** What is finished stays on file as it is while work that does not throw goes on. */
  lemma {:induction false} WorkKeepsFinal(s: State, items: seq<Item>, world: World)
    requires NonEmpty(items) && Work(s, items, world).result.Done?
    ensures var s' := ApplyAll(s, Work(s, items, world).effects);
            forall r | Final(s, r) :: r in s'.seen && s'.seen[r] == s.seen[r]
    decreases Measure(items)
  {
    hide Work, ApplyAll, ProcessLeaf, Measure;
    if items == [] {
      WorkOnNothing(s, world);
    } else {
      var (i, rest) := (items[0], items[1..]);
      WorkStep(s, items, world);
      if Splitting(s, i, world) {
        SplitShrinks(items);
        var s0 := Apply(s, DropAttempts(KeyOf(i.window)));
        WorkKeepsFinal(s0, Halves(i) + rest, world);
        ApplyCons(s, DropAttempts(KeyOf(i.window)), Work(s0, Halves(i) + rest, world).effects);
      } else {
        var leaf := ProcessLeaf(s, i.window, world(i.window));
        LeafDone(s, i.window, world(i.window));
        var s1 := ApplyAll(s, leaf.effects);
        RestShrinks(items);
        WorkKeepsFinal(s1, rest, world);
        ApplyAppend(s, leaf.effects, Work(s1, rest, world).effects);
      }
    }
  }

  lemma WorkOnNothing(s: State, world: World)
    ensures Work(s, [], world) == Outcome([], Done(0, 0, 0), []) && ApplyAll(s, []) == s
  {
  }

  lemma RestShrinks(items: seq<Item>)
    requires items != [] && NonEmpty(items)
    ensures NonEmpty(items[1..]) && Measure(items[1..]) < Measure(items)
  {
  }

  /** A published window has an envelope on file, and it was sent; a quarantined one is on file as that. */
  ghost predicate Ended(s: State, l: Leaf)
    requires l.window.rows != []
  {
    var ref := RefOf(l.window);
    match l.ending
    case WasPublished => ref in s.seen && s.seen[ref].Published? && Message(ref, s.seen[ref].hash) in s.sent
    case WasQuarantined => ref in s.seen && s.seen[ref].Quarantined?
    case WasNoise => true
  }

  ghost predicate AllEnded(s: State, leaves: seq<Leaf>) {
    forall l <- leaves :: l.window.rows != [] && Ended(s, l)
  }

  lemma {:induction false} WorkEnds(s: State, items: seq<Item>, world: World)
    requires NonEmpty(items) && Safe(s) && Work(s, items, world).result.Done?
    ensures var out := Work(s, items, world);
            AllEnded(ApplyAll(s, out.effects), out.leaves)
    decreases Measure(items)
  {
    hide Work, ApplyAll, ProcessLeaf, Measure, Safe, Ended;
    if items == [] {
      WorkOnNothing(s, world);
    } else {
      var (i, rest) := (items[0], items[1..]);
      WorkStep(s, items, world);
      if Splitting(s, i, world) {
        SplitShrinks(items);
        var s0 := Apply(s, DropAttempts(KeyOf(i.window)));
        DropKeepsSafe(s, KeyOf(i.window));
        WorkEnds(s0, Halves(i) + rest, world);
        ApplyCons(s, DropAttempts(KeyOf(i.window)), Work(s0, Halves(i) + rest, world).effects);
      } else {
        var (w, b) := (i.window, world(i.window));
        var leaf := ProcessLeaf(s, w, b);
        var s1 := ApplyAll(s, leaf.effects);
        LeafDone(s, w, b);
        LeafKeepsSafe(s, w, b);
        RestShrinks(items);
        WorkEnds(s1, rest, world);
        var more := Work(s1, rest, world);
        ApplyAppend(s, leaf.effects, more.effects);
        WorkKeepsFinal(s1, rest, world);
        SentGrows(s1, more.effects);
        LeafEnded(s, s1, ApplyAll(s1, more.effects), w, b, leaf.leaves[0]);
      }
    }
  }

  lemma LeafEnded(s: State, s1: State, s2: State, w: Window, b: Behaviour, l: Leaf)
    requires w.rows != [] && l.window == w && LeavesBehind(s, s1, w, b, l.ending) && Safe(s)
    requires (forall r | Final(s1, r) :: r in s2.seen && s2.seen[r] == s1.seen[r]) && s1.sent <= s2.sent
    ensures Ended(s2, l)
  {
    var ref := RefOf(w);
    if l.ending.WasPublished? {
      var m := Message(ref, HashOf(s, w, b));
      assert m in s1.sent by {
        if !(ref in s.seen && s.seen[ref].Published?) {
          assert s1.sent[|s.sent|] == m;
        }
      }
      assert Final(s1, ref);
    } else if l.ending.WasQuarantined? {
      assert Final(s1, ref);
    }
  }

  lemma DropKeepsSafe(s: State, key: AttemptKey)
    requires Safe(s)
    ensures Safe(Apply(s, DropAttempts(key)))
  {
  }
}
