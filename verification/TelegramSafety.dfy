/** Write-ahead safety: whatever crashes, one source ref is only ever published with one payload, a
    window that is durably published or quarantined is never published again, and none is quarantined
    without a row in the poison file. */
module TelegramSafety {
  import opened TelegramWindows
  import opened TelegramProducer

  /** What the protocol demands of a write, given what is already durable. */
  ghost predicate Legal(s: State, e: Effect) {
    match e
    case Send(ref, hash) => ref in s.seen && s.seen[ref] == Prepared(hash)
    case SaveSeen(ref, Prepared(hash)) => ref !in s.seen
    case SaveSeen(ref, Published(hash)) =>
      ref in s.seen && s.seen[ref] == Prepared(hash) && Message(ref, hash) in s.sent
    case SaveSeen(ref, Quarantined) => ref in s.poison
    case _ => true
  }

  /** Every write is legal in the state its predecessors leave. */
  ghost predicate LegalAll(s: State, es: seq<Effect>)
    decreases |es|
  {
    es == [] || (Legal(s, es[0]) && LegalAll(Apply(s, es[0]), es[1..]))
  }

  lemma {:induction false} ApplyAllFront(s: State, es: seq<Effect>)
    requires es != []
    ensures ApplyAll(s, es) == ApplyAll(Apply(s, es[0]), es[1..])
  {
    ApplyAppend(s, [es[0]], es[1..]);
    assert es == [es[0]] + es[1..];
    assert [es[0]][..0] == [];
    assert ApplyAll(s, [es[0]]) == Apply(ApplyAll(s, []), es[0]);
  }

  lemma {:induction false} LegalAppend(s: State, a: seq<Effect>, b: seq<Effect>)
    requires LegalAll(s, a) && LegalAll(ApplyAll(s, a), b)
    ensures LegalAll(s, a + b)
    decreases |a|
  {
    if a == [] {
      assert a + b == b;
    } else {
      ApplyAllFront(s, a);
      LegalAppend(Apply(s, a[0]), a[1..], b);
      assert (a + b)[1..] == a[1..] + b;
    }
  }

  lemma LegalOne(s: State, e: Effect)
    requires Legal(s, e)
    ensures LegalAll(s, [e]) && ApplyAll(s, [e]) == Apply(s, e)
  {
    assert [e][1..] == [] && [e][..0] == [];
    assert ApplyAll(s, [e]) == Apply(ApplyAll(s, []), e);
  }

  lemma LegalCons(s: State, e: Effect, es: seq<Effect>)
    requires Legal(s, e) && LegalAll(Apply(s, e), es)
    ensures LegalAll(s, [e] + es)
  {
    assert ([e] + es)[1..] == es;
  }

  /** Bookkeeping asks nothing. */
  lemma {:induction false} BookkeepingLegal(s: State, es: seq<Effect>)
    requires forall e <- es :: !e.Send? && !e.SaveSeen?
    ensures LegalAll(s, es)
    decreases |es|
  {
    if es != [] {
      BookkeepingLegal(Apply(s, es[0]), es[1..]);
    }
  }

  lemma QuarantineLegal(s: State, w: Window)
    requires w.rows != []
    ensures LegalAll(s, Quarantine(w))
  {
    var (ref, drop) := (RefOf(w), DropAttempts(KeyOf(w)));
    var s1 := Apply(s, PoisonRow(ref));
    var s2 := Apply(s1, SaveSeen(ref, Quarantined));
    assert s1.poison[|s.poison|] == ref;
    hide LegalAll, ApplyAll;
    BookkeepingLegal(s2, [drop]);
    LegalCons(s1, SaveSeen(ref, Quarantined), [drop]);
    LegalCons(s, PoisonRow(ref), [SaveSeen(ref, Quarantined), drop]);
    assert [SaveSeen(ref, Quarantined)] + [drop] == [SaveSeen(ref, Quarantined), drop];
    assert [PoisonRow(ref)] + [SaveSeen(ref, Quarantined), drop] == Quarantine(w);
  }

  /** Counting a failure, whatever the count was. */
  lemma FailureLegal(s: State, t: State, w: Window)
    requires w.rows != []
    ensures LegalAll(t, Failure(s, w))
  {
    hide LegalAll, ApplyAll, Quarantine;
    var save := SaveAttempts(KeyOf(w), Attempts(s, KeyOf(w)) + 1);
    var t' := Apply(t, save);
    QuarantineLegal(t', w);
    BookkeepingLegal(t', [HeldRow(RefOf(w))]);
    LegalCons(t, save, Failure(s, w)[1..]);
    assert Failure(s, w) == [save] + Failure(s, w)[1..];
  }

  lemma DeliverLegal(s: State, w: Window, hash: Hash, already: bool, b: Behaviour)
    requires w.rows != []
    requires !already ==> RefOf(w) in s.seen && s.seen[RefOf(w)] == Prepared(hash)
    ensures LegalAll(s, Deliver(s, w, hash, already, b).effects)
  {
    hide LegalAll, ApplyAll;
    var ref := RefOf(w);
    if b.envelopeOk && !already && !b.delivery.Refused? {
      var s' := Apply(s, Send(ref, hash));
      match b.delivery {
        case Acked =>
          var s'' := Apply(s', SaveSeen(ref, Published(hash)));
          LegalOne(s'', DropAttempts(KeyOf(w)));
          LegalCons(s', SaveSeen(ref, Published(hash)), [DropAttempts(KeyOf(w))]);
          LegalCons(s, Send(ref, hash), [SaveSeen(ref, Published(hash)), DropAttempts(KeyOf(w))]);
          assert [Send(ref, hash)] + [SaveSeen(ref, Published(hash)), DropAttempts(KeyOf(w))]
              == [Send(ref, hash), SaveSeen(ref, Published(hash)), DropAttempts(KeyOf(w))];
          assert [SaveSeen(ref, Published(hash))] + [DropAttempts(KeyOf(w))]
              == [SaveSeen(ref, Published(hash)), DropAttempts(KeyOf(w))];
        case DeliveredNoAck =>
          FailureLegal(s, s', w);
          LegalCons(s, Send(ref, hash), Failure(s, w));
      }
    } else {
      FailureLegal(s, s, w);
      BookkeepingLegal(s, [DropAttempts(KeyOf(w))]);
    }
  }

  lemma SummarisedLegal(s: State, w: Window, summary: Summary, b: Behaviour)
    requires w.rows != [] && (summary.Text? || summary.Noise?) && RefOf(w) !in s.seen
    ensures LegalAll(s, Summarised(s, w, summary, b).effects)
  {
    hide LegalAll, ApplyAll;
    if summary.Text? && b.envelopeOk {
      var e := SaveSeen(RefOf(w), Prepared(summary.hash));
      DeliverLegal(Apply(s, e), w, summary.hash, false, b);
      SameDelivery(s, Apply(s, e), w, summary.hash, b);
      LegalCons(s, e, Deliver(s, w, summary.hash, false, b).effects);
    } else {
      FailureLegal(s, s, w);
      BookkeepingLegal(s, [DropAttempts(KeyOf(w))]);
    }
  }

  lemma LeafLegal(s: State, w: Window, b: Behaviour)
    requires w.rows != []
    ensures LegalAll(s, ProcessLeaf(s, w, b).effects)
  {
    hide LegalAll, ApplyAll;
    var ref := RefOf(w);
    if ref in s.seen && !s.seen[ref].Quarantined? && b.timesOk {
      DeliverLegal(s, w, s.seen[ref].hash, s.seen[ref].Published?, b);
    } else if ref !in s.seen && b.timesOk && (b.summary.Text? || b.summary.Noise?) {
      SummarisedLegal(s, w, b.summary, b);
    } else if ref !in s.seen && b.timesOk && b.summary.TooLong? && |w.rows| == 1
              && (b.truncated.Text? || b.truncated.Noise?) {
      SummarisedLegal(s, w, b.truncated, b);
    } else {
      FailureLegal(s, s, w);
      QuarantineLegal(s, w);
      BookkeepingLegal(s, [DropAttempts(KeyOf(w))]);
    }
  }

  lemma {:induction false} ProcessLegal(s: State, w: Window, depth: nat, world: World)
    requires w.rows != []
    ensures LegalAll(s, Process(s, w, depth, world).effects)
    decreases |w.rows|
  {
    hide LegalAll, ApplyAll, ProcessLeaf;
    if IsSplit(s, w, depth, world(w)) {
      var drop := DropAttempts(KeyOf(w));
      var s0 := Apply(s, drop);
      var first := Process(s0, FirstHalf(w), depth + 1, world);
      ProcessLegal(s0, FirstHalf(w), depth + 1, world);
      LegalCons(s, drop, first.effects);
      if first.result.Done? {
        var s1 := ApplyAll(s0, first.effects);
        var second := Process(s1, SecondHalf(w), depth + 1, world);
        ProcessLegal(s1, SecondHalf(w), depth + 1, world);
        LegalAppend(s0, first.effects, second.effects);
        LegalCons(s, drop, first.effects + second.effects);
      }
    } else {
      LeafLegal(s, w, world(w));
    }
  }

  // ----- the invariant -----

  /** All messages of one source ref agree, and agree with the envelope that is on file for it; what is
      on file as published has been sent, and what is on file as quarantined has a row in the poison file. */
  ghost predicate Safe(s: State) {
    && (forall m <- s.sent :: m.ref in s.seen && (s.seen[m.ref].Quarantined? || s.seen[m.ref].hash == m.hash))
    && (forall m <- s.sent, m' <- s.sent :: m.ref == m'.ref ==> m == m')
    && (forall ref <- s.seen :: s.seen[ref].Published? ==> Message(ref, s.seen[ref].hash) in s.sent)
    && forall ref <- s.seen :: s.seen[ref].Quarantined? ==> ref in s.poison
  }

  predicate Final(s: State, ref: SourceRef) {
    ref in s.seen && (s.seen[ref].Published? || s.seen[ref].Quarantined?)
  }

  function MessagesOf(sent: seq<Message>, ref: SourceRef): seq<Message> {
    if sent == [] then []
    else MessagesOf(sent[..|sent| - 1], ref)
         + if sent[|sent| - 1].ref == ref then [sent[|sent| - 1]] else []
  }

  lemma LegalKeepsSafe(s: State, e: Effect)
    requires Safe(s) && Legal(s, e)
    ensures Safe(Apply(s, e))
  {
    if e.Send? {
      assert forall m <- Apply(s, e).sent :: m in s.sent || m == Message(e.ref, e.hash);
    }
  }

  lemma LegalKeepsFinal(s: State, e: Effect, ref: SourceRef)
    requires Final(s, ref) && Legal(s, e)
    ensures Final(Apply(s, e), ref) && MessagesOf(Apply(s, e).sent, ref) == MessagesOf(s.sent, ref)
  {
    if e.Send? {
      assert (s.sent + [Message(e.ref, e.hash)])[..|s.sent|] == s.sent;
    }
  }

  /** A crash after any number of the writes leaves a safe state in which what was final stays final. */
  lemma {:induction false} PrefixSafe(s: State, es: seq<Effect>, cut: nat, ref: SourceRef)
    requires Safe(s) && LegalAll(s, es) && cut <= |es|
    ensures Safe(ApplyAll(s, es[..cut]))
    ensures Final(s, ref) ==> Final(ApplyAll(s, es[..cut]), ref)
                              && MessagesOf(ApplyAll(s, es[..cut]).sent, ref) == MessagesOf(s.sent, ref)
    decreases cut
  {
    hide MessagesOf, Safe, Final, Legal, Apply;
    if cut > 0 {
      var s' := Apply(s, es[0]);
      LegalKeepsSafe(s, es[0]);
      if Final(s, ref) {
        LegalKeepsFinal(s, es[0], ref);
      }
      PrefixSafe(s', es[1..], cut - 1, ref);
      ApplyAllFront(s, es[..cut]);
      assert es[..cut][1..] == es[1..][..cut - 1];
    }
  }

  // ----- runs with crashes -----

  /** One attempt at a window, cut off by a crash after `cut` writes (or not at all), or the pruning of
      attempt counters at the start of a run. */
  datatype Step = Attempt(window: Window, world: World, cut: nat) | Prune(keep: set<AttemptKey>)

  function Take(s: State, step: Step): State {
    match step
    case Prune(keep) => s.(attempts := map k <- s.attempts | k in keep :: s.attempts[k])
    case Attempt(w, world, cut) =>
      if w.rows == [] then s
      else
        var es := Process(s, w, 0, world).effects;
        ApplyAll(s, if cut < |es| then es[..cut] else es)
  }

  function Run(s: State, steps: seq<Step>): State
    decreases |steps|
  {
    if steps == [] then s else Run(Take(s, steps[0]), steps[1..])
  }

  const START := State(map[], map[], [], [], [])

  lemma StepSafe(s: State, step: Step, ref: SourceRef)
    requires Safe(s)
    ensures Safe(Take(s, step))
    ensures Final(s, ref) ==> Final(Take(s, step), ref)
                              && MessagesOf(Take(s, step).sent, ref) == MessagesOf(s.sent, ref)
  {
    hide Process, LegalAll, ApplyAll, MessagesOf;
    if step.Attempt? && step.window.rows != [] {
      var es := Process(s, step.window, 0, step.world).effects;
      ProcessLegal(s, step.window, 0, step.world);
      PrefixSafe(s, es, if step.cut < |es| then step.cut else |es|, ref);
      assert es[..|es|] == es;
    }
  }

  lemma {:induction false} RunSafe(s: State, steps: seq<Step>, ref: SourceRef)
    requires Safe(s)
    ensures Safe(Run(s, steps))
    ensures Final(s, ref) ==> Final(Run(s, steps), ref)
                              && MessagesOf(Run(s, steps).sent, ref) == MessagesOf(s.sent, ref)
    decreases |steps|
  {
    hide Take, MessagesOf, Safe, Final;
    if steps != [] {
      StepSafe(s, steps[0], ref);
      RunSafe(Take(s, steps[0]), steps[1..], ref);
    }
  }

  /** Write-ahead safety. In any run of attempts at any windows, each with any outcome and each cut off
      by a crash after any number of writes, all messages published for one source ref carry the same
      payload hash; from the moment a source ref is durably published or quarantined on, no further
      message is published for it; and every source ref on file as quarantined has its poison row. */
  lemma WriteAheadSafety(before: seq<Step>, after: seq<Step>)
    ensures var s := Run(START, before);
            var s' := Run(s, after);
            && (forall m <- s.sent, m' <- s.sent :: m.ref == m'.ref ==> m.hash == m'.hash)
            && (forall ref <- s.seen :: s.seen[ref].Quarantined? ==> ref in s.poison)
            && forall ref | Final(s, ref) :: Final(s', ref) && MessagesOf(s'.sent, ref) == MessagesOf(s.sent, ref)
  {
    var s := Run(START, before);
    RunSafe(START, before, Batch("", "", 0, 0));
    forall ref | Final(s, ref)
      ensures Final(Run(s, after), ref) && MessagesOf(Run(s, after).sent, ref) == MessagesOf(s.sent, ref)
    {
      RunSafe(s, after, ref);
    }
  }
}
