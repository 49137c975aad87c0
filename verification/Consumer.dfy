/** The queue consumer: each message is settled once, counted once, and handed to a gate that commits at
    most one thought for a source ref. */
module Consumer {
  import opened Common

  datatype Key = Key(namespace: string, sourceRef: string)

  type Hash = nat

  // ----- messages -----

  /** What a body parses to, as far as the consumer decides on it. A session body of JSON null makes the
      consumer fail on its first field access; the agent lane refuses it. */
  datatype Body = NotJson | JsonNull | Envelope(subjectOk: bool, check: Check, key: Key, hash: Hash)

  /** A record that is invalid, one the agent lane passes over at once (a system event, say), one with
      nothing to remember (session noise, an empty agent message), or one for the gate. */
  datatype Check = Bad | PassOver | Nothing | Good

  // ----- the gate, by its documented contract -----

  /** Raw actions of the gate. */
  datatype Raw = Replay | DuplicateSkipRaw | ConflictRaw | SemanticSkipRaw | InsertedRaw

  datatype Row = Row(sourceEventAction: Option<Raw>, action: Raw)

  /** Source events with their payload hash, and the key each thought was created for. */
  datatype Gate = Gate(events: map<Key, Hash>, thoughts: seq<Key>)

  /** What happens to one gate call: the database cannot be reached, the gate rejects the call, or it
      commits, creating a thought for a new source ref or not, and its reply can be read or not. */
  datatype Weather = Unreachable | Rejected | Committed(creates: bool, replyReadable: bool)

  datatype GateReply = GateReply(gate: Gate, row: Row)

  /** A committed call: a known source ref is replayed or conflicts, a new one is recorded. */
  function Commit(g: Gate, k: Key, h: Hash, creates: bool): GateReply {
    if k in g.events then
      if g.events[k] == h then GateReply(g, Row(Some(Replay), Replay))
      else GateReply(g, Row(Some(ConflictRaw), ConflictRaw))
    else
      GateReply(Gate(g.events[k := h], if creates then g.thoughts + [k] else g.thoughts),
                Row(None, if creates then InsertedRaw else SemanticSkipRaw))
  }

  // ----- outcomes -----

  datatype Action = StoredAction | DuplicateSkip | SemanticSkip | Skipped | ConflictDlq

  /** `mapGateResult`. */
  function MapGateResult(row: Row): Action {
    var raw := match row.sourceEventAction case Some(a) => a case None => row.action;
    match raw
    case ConflictRaw => ConflictDlq
    case Replay => DuplicateSkip
    case DuplicateSkipRaw => DuplicateSkip
    case SemanticSkipRaw => SemanticSkip
    case InsertedRaw => StoredAction
  }

  datatype Settlement = Ack | Nak | Term

  datatype Stats = Stats(
    fetched: nat, stored: nat, dup: nat, skipped: nat, semanticSkip: nat, conflict: nat,
    invalid: nat, dryRunValid: nat, held: nat, acked: nat, termed: nat, naked: nat)

  const NO_STATS := Stats(0, 0, 0, 0, 0, 0, 0, 0, 0, 0, 0, 0)

  /** Every fetched message is settled once and counted under one heading of its settlement. */
  ghost predicate Balanced(s: Stats) {
    && s.fetched == s.acked + s.termed + s.naked
    && s.acked == s.stored + s.dup + s.skipped + s.semanticSkip + s.conflict + s.dryRunValid
    && s.termed == s.invalid && s.naked == s.held
  }

  datatype Lane = Session | Agents

  datatype Delivery = Delivery(body: Body, weather: Weather)

  class MessageConsumer {
    const lane: Lane
    const dryRun: bool
    var stats: Stats
    var settled: seq<Settlement>
    var gate: Gate
    /** Dead-letter rows of payload conflicts. */
    var conflicts: seq<Key>

    constructor (lane: Lane, dryRun: bool, gate: Gate)
      ensures this.lane == lane && this.dryRun == dryRun && this.gate == gate
      ensures stats == NO_STATS && settled == [] && conflicts == []
    {
      this.lane, this.dryRun, this.gate := lane, dryRun, gate;
      stats, settled, conflicts := NO_STATS, [], [];
    }

    method SettleInvalid()
      modifies `stats, `settled
      ensures settled == old(settled) + [Term]
      ensures stats == old(stats).(invalid := old(stats).invalid + 1, termed := old(stats).termed + 1)
    {
      stats := stats.(invalid := stats.invalid + 1, termed := stats.termed + 1);
      settled := settled + [Term];
    }

    method SettleHeld()
      modifies `stats, `settled
      ensures settled == old(settled) + [Nak]
      ensures stats == old(stats).(held := old(stats).held + 1, naked := old(stats).naked + 1)
    {
      stats := stats.(held := stats.held + 1, naked := stats.naked + 1);
      settled := settled + [Nak];
    }

    /** The tail of both message handlers: count the action and acknowledge. */
    method SettleAction(action: Action)
      modifies `stats, `settled
      ensures settled == old(settled) + [Ack]
      ensures stats == Counted(old(stats), action)
    {
      stats := stats.(acked := stats.acked + 1);
      match action {
        case StoredAction => stats := stats.(stored := stats.stored + 1);
        case DuplicateSkip => stats := stats.(dup := stats.dup + 1);
        case SemanticSkip => stats := stats.(semanticSkip := stats.semanticSkip + 1);
        case Skipped => stats := stats.(skipped := stats.skipped + 1);
        case ConflictDlq => stats := stats.(conflict := stats.conflict + 1);
      }
      settled := settled + [Ack];
    }

    /** `captureRecordGated` and the settlement of its outcome. */
    method CaptureGated(k: Key, h: Hash, weather: Weather)
      modifies `stats, `settled, `gate, `conflicts
      ensures |settled| == |old(settled)| + 1 && old(settled) <= settled
      ensures Settles(old(stats), stats, settled[|old(settled)|])
      ensures gate == (if weather.Committed? then Commit(old(gate), k, h, weather.creates).gate else old(gate))
      ensures weather.Committed? && weather.replyReadable ==>
                var action := MapGateResult(Commit(old(gate), k, h, weather.creates).row);
                && settled == old(settled) + [Ack] && stats == Counted(old(stats), action)
                && conflicts == old(conflicts) + (if action.ConflictDlq? then [k] else [])
      ensures !(weather.Committed? && weather.replyReadable) ==>
                settled == old(settled) + [if weather.Rejected? then Term else Nak] && conflicts == old(conflicts)
    {
      match weather {
        case Unreachable => SettleHeld();
        case Rejected => SettleInvalid();
        case Committed(creates, replyReadable) =>
          var reply := Commit(gate, k, h, creates);
          gate := reply.gate;
          if !replyReadable {
            SettleHeld();
            return;
          }
          var action := MapGateResult(reply.row);
          if action.ConflictDlq? {
            conflicts := conflicts + [k];
          }
          SettleAction(action);
      }
    }

    /** `processSessionMessage` and `processA2AMessage`. Returns false when the handler fails on the
        message itself, which then stays unsettled. */
    method ProcessMessage(m: Delivery) returns (handled: bool)
      modifies `stats, `settled, `gate, `conflicts
      ensures handled <==> !(lane.Session? && m.body.JsonNull?)
      ensures !handled ==> stats == old(stats) && settled == old(settled) && gate == old(gate)
      ensures handled ==> |settled| == |old(settled)| + 1 && old(settled) <= settled
                          && Settles(old(stats), stats, settled[|old(settled)|])
                          && Rightly(lane, dryRun, old(gate), m, old(stats), stats, settled[|old(settled)|])
      ensures gate == GateAfter(lane, dryRun, old(gate), m)
    {
      match m.body {
        case NotJson => SettleInvalid();
        case JsonNull =>
          if lane.Session? {
            return false;
          }
          SettleInvalid();
        case Envelope(subjectOk, check, k, h) =>
          if lane.Session? && !subjectOk {
            SettleInvalid();
          } else if check.Bad? {
            SettleInvalid();
          } else if lane.Agents? && check.PassOver? {
            SettleAction(Skipped);
          } else if dryRun {
            stats := stats.(dryRunValid := stats.dryRunValid + 1, acked := stats.acked + 1);
            settled := settled + [Ack];
          } else if !check.Good? {
            SettleAction(Skipped);
          } else {
            CaptureGated(k, h, m.weather);
          }
      }
      return true;
    }

    /** The fetch loop. */
    method RunOnce(messages: seq<Delivery>) returns (finished: bool)
      requires Balanced(stats) && |settled| == stats.fetched
      modifies `stats, `settled, `gate, `conflicts
      ensures finished <==> forall m <- messages :: !(lane.Session? && m.body.JsonNull?)
      ensures finished ==> Balanced(stats) && stats.fetched == old(stats).fetched + |messages|
                           && |settled| == |old(settled)| + |messages|
                           && gate == GateAfterAll(lane, dryRun, old(gate), messages)
      ensures !finished ==> exists n :: 0 <= n < |messages| && messages[n].body.JsonNull?
                                        && |settled| == |old(settled)| + n
                                        && stats.fetched == old(stats).fetched + n + 1
      ensures old(settled) <= settled
    {
      hide Settles, Balanced, Rightly, GateAfter;
      for i := 0 to |messages|
        invariant Balanced(stats) && |settled| == stats.fetched == old(stats).fetched + i
        invariant old(settled) <= settled
        invariant gate == GateAfterAll(lane, dryRun, old(gate), messages[..i])
        invariant forall j :: 0 <= j < i ==> !(lane.Session? && messages[j].body.JsonNull?)
      {
        ghost var before := stats;
        stats := stats.(fetched := stats.fetched + 1);
        var handled := ProcessMessage(messages[i]);
        if !handled {
          assert messages[i] in messages;
          return false;
        }
        SettlingKeepsBalance(before, stats, settled[|settled| - 1]);
        assert messages[..i + 1][..i] == messages[..i];
      }
      assert messages[..|messages|] == messages;
      return true;
    }
  }

  lemma SettlingKeepsBalance(s: Stats, t: Stats, how: Settlement)
    requires Balanced(s) && Settles(s.(fetched := s.fetched + 1), t, how)
    ensures Balanced(t) && t.fetched == s.fetched + 1
  {
  }

  function Counted(s: Stats, action: Action): Stats {
    var t := s.(acked := s.acked + 1);
    match action
    case StoredAction => t.(stored := t.stored + 1)
    case DuplicateSkip => t.(dup := t.dup + 1)
    case SemanticSkip => t.(semanticSkip := t.semanticSkip + 1)
    case Skipped => t.(skipped := t.skipped + 1)
    case ConflictDlq => t.(conflict := t.conflict + 1)
  }

  /** Exactly one settlement, counted under exactly one heading. */
  ghost predicate Settles(s: Stats, t: Stats, how: Settlement) {
    match how
    case Ack => (exists action :: t == Counted(s, action))
                || t == s.(dryRunValid := s.dryRunValid + 1, acked := s.acked + 1)
    case Term => t == s.(invalid := s.invalid + 1, termed := s.termed + 1)
    case Nak => t == s.(held := s.held + 1, naked := s.naked + 1)
  }

  /** Whether a message is refused before anything else is asked. */
  predicate Refused(lane: Lane, m: Delivery) {
    match m.body
    case NotJson => true
    case JsonNull => lane.Agents?
    case Envelope(subjectOk, check, _, _) => (lane.Session? && !subjectOk) || check.Bad?
  }

  predicate ReachesGate(lane: Lane, dryRun: bool, m: Delivery) {
    m.body.Envelope? && !Refused(lane, m) && m.body.check.Good? && !dryRun
  }

  /** Which settlement and heading a message gets: terminated if it is refused, by the consumer or the
      gate; sent back if the gate's answer is not known; otherwise acknowledged and counted as what
      happened to it. */
  ghost predicate Rightly(lane: Lane, dryRun: bool, g: Gate, m: Delivery, s: Stats, t: Stats, how: Settlement) {
    var asked := ReachesGate(lane, dryRun, m);
    && (how.Term? <==> Refused(lane, m) || (asked && m.weather.Rejected?))
    && (how.Nak? <==> asked && (m.weather.Unreachable? || (m.weather.Committed? && !m.weather.replyReadable)))
    && (how.Ack? ==>
          if asked then t == Counted(s, MapGateResult(Commit(g, m.body.key, m.body.hash, m.weather.creates).row))
          else if m.body.Envelope? && dryRun && !(lane.Agents? && m.body.check.PassOver?) then
            t == s.(dryRunValid := s.dryRunValid + 1, acked := s.acked + 1)
          else t == Counted(s, Skipped))
  }

  /** What becomes of each kind of message that the handler gets through, heading by heading. */
  lemma SettledAs(lane: Lane, dryRun: bool, g: Gate, m: Delivery, s: Stats, t: Stats, how: Settlement)
    requires Rightly(lane, dryRun, g, m, s, t, how) && !(lane.Session? && m.body.JsonNull?)
    ensures match m.body
            case NotJson => how == Term
            case JsonNull => how == Term
            case Envelope(subjectOk, check, k, h) =>
              if check.Bad? || (lane.Session? && !subjectOk) then how == Term
              else if lane.Agents? && check.PassOver? then
                how == Ack && t == s.(acked := s.acked + 1, skipped := s.skipped + 1)
              else if dryRun then how == Ack && t == s.(acked := s.acked + 1, dryRunValid := s.dryRunValid + 1)
              else if !check.Good? then how == Ack && t == s.(acked := s.acked + 1, skipped := s.skipped + 1)
              else
                match m.weather
                case Unreachable => how == Nak
                case Rejected => how == Term
                case Committed(creates, replyReadable) =>
                  if !replyReadable then how == Nak
                  else
                    && how == Ack
                    && if k in g.events then
                         if g.events[k] == h then t == s.(acked := s.acked + 1, dup := s.dup + 1)
                         else t == s.(acked := s.acked + 1, conflict := s.conflict + 1)
                       else if creates then t == s.(acked := s.acked + 1, stored := s.stored + 1)
                       else t == s.(acked := s.acked + 1, semanticSkip := s.semanticSkip + 1)
  {
    assert how.Ack? || how.Nak? || how.Term?;
  }

  // ----- at most one thought -----

  /** Whether handling a message reaches the gate, and what the gate holds afterwards. */
  function GateAfter(lane: Lane, dryRun: bool, g: Gate, m: Delivery): Gate {
    if ReachesGate(lane, dryRun, m) && m.weather.Committed?
    then Commit(g, m.body.key, m.body.hash, m.weather.creates).gate
    else g
  }

  function GateAfterAll(lane: Lane, dryRun: bool, g: Gate, ms: seq<Delivery>): Gate {
    if ms == [] then g else GateAfter(lane, dryRun, GateAfterAll(lane, dryRun, g, ms[..|ms| - 1]), ms[|ms| - 1])
  }

  ghost predicate OneThoughtEach(g: Gate) {
    && (forall k <- g.thoughts :: k in g.events)
    && forall i, j :: 0 <= i < j < |g.thoughts| ==> g.thoughts[i] != g.thoughts[j]
  }

  /** Over any deliveries and redeliveries, lost replies and outages included, no source ref ever has two
      thoughts, and what is committed stays as it was committed. */
  lemma {:induction false} AtMostOneThought(lane: Lane, dryRun: bool, g: Gate, ms: seq<Delivery>)
    requires OneThoughtEach(g)
    ensures var g' := GateAfterAll(lane, dryRun, g, ms);
            && OneThoughtEach(g') && g.thoughts <= g'.thoughts
            && forall k <- g.events :: k in g'.events && g'.events[k] == g.events[k]
                                       && (k in g'.thoughts ==> k in g.thoughts)
  {
    if ms != [] {
      AtMostOneThought(lane, dryRun, g, ms[..|ms| - 1]);
    }
  }

  /** A call that committed but whose reply was unreadable is held back; when the message comes again,
      however much later, it is a duplicate and creates nothing. */
  lemma {:induction false} LostReplyResolves(
      lane: Lane, g: Gate, k: Key, h: Hash, creates: bool, between: seq<Delivery>, again: bool)
    requires OneThoughtEach(g) && k !in g.events
    ensures var g1 := Commit(g, k, h, creates).gate;
            var g2 := GateAfterAll(lane, false, g1, between);
            var reply := Commit(g2, k, h, again);
            reply.gate == g2 && MapGateResult(reply.row) == DuplicateSkip
            && (k in g2.thoughts <==> creates)
  {
    var g1 := Commit(g, k, h, creates).gate;
    assert k !in g.thoughts;
    assert creates ==> g1.thoughts[|g.thoughts|] == k;
    AtMostOneThought(lane, false, g1, between);
  }
}
