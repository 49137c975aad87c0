/** The kEngram adapters: an envelope becomes one source event, one thought and its queue entries, and
    redelivering envelopes is harmless. Payload hashes are modelled by the canonical encoding itself,
    which stands for a hash without collisions. */
module Adapter {
  import opened CanonicalJson
  import opened Common

  datatype Key = Key(namespace: string, sourceRef: string)

  /** An envelope as it is delivered. `wellFormed` stands for the checks of its identity fields,
      `createdAtOk` and `scopeOk` for those of its source time and scope; `content` is the text rendered
      from it, `at` the instant of delivery, and `dlqPath` whether the caller names a dead-letter file. */
  datatype Envelope = Envelope(
    key: Key, wellFormed: bool, claimedHash: Text, payload: Json, noise: bool,
    createdAtOk: bool, scopeOk: bool, content: string, at: int, dlqPath: bool)

  datatype Check = Refused(error: string) | Skip | Accept

  /** `validate`: the claimed hash must be the hash of the canonical payload; noise is skipped. */
  function Validate(e: Envelope): Check {
    if !e.wellFormed then Refused("invalid_required_field")
    else if e.claimedHash != Encode(e.payload) then Refused("payload_sha256_mismatch")
    else if !e.createdAtOk then Refused("invalid_source_created_at")
    else if e.noise then Skip
    else Accept
  }

  // ----- the database -----

  datatype Status = Stored | Conflict

  type ThoughtId = nat

  /** A row of argus_source_events. `conflict` holds the hash of the last conflicting payload. */
  datatype Event = Event(hash: Text, status: Status, thought: ThoughtId, lastSeen: int, conflict: Option<Text>)

  function Seen(prior: Event, at: int): Event {
    prior.(lastSeen := at)
  }

  function Conflicted(prior: Event, e: Envelope): Event {
    prior.(status := Conflict, lastSeen := e.at, conflict := Some(e.claimedHash))
  }

  datatype DlqRow = DlqRow(key: Key, prior: Text, incoming: Text)

  /** `tagged` are the thoughts that already carry tags. */
  datatype Db = Db(
    events: map<Key, Event>,
    thoughts: map<string, ThoughtId>,
    embedQueue: set<ThoughtId>,
    tagQueue: set<ThoughtId>,
    tagged: set<ThoughtId>,
    dlq: seq<DlqRow>)

  datatype Outcome =
    | Failed(error: string)
    | Skipped
    | DuplicateSkip(thought: ThoughtId)
    | ConflictDlq
    | NewlyStored(thought: ThoughtId)

  datatype Delivery = Delivery(db: Db, outcome: Outcome)

  /** The transaction of `storeRecord`: thoughts are unique by content, the queues by thought. */
  function Store(db: Db, e: Envelope): Delivery {
    var id := if e.content in db.thoughts then db.thoughts[e.content] else |db.thoughts|;
    Delivery(
      db.(events := db.events[e.key := Event(e.claimedHash, Stored, id, e.at, None)],
          thoughts := db.thoughts[e.content := id],
          embedQueue := db.embedQueue + {id},
          tagQueue := if id in db.tagged then db.tagQueue else db.tagQueue + {id}),
      NewlyStored(id))
  }

  /** `processRecord`. */
  function Deliver(db: Db, e: Envelope): Delivery {
    match Validate(e)
    case Refused(error) => Delivery(db, Failed(error))
    case Skip => Delivery(db, Skipped)
    case Accept =>
      if e.key in db.events then
        var prior := db.events[e.key];
        if prior.hash == e.claimedHash then
          Delivery(db.(events := db.events[e.key := Seen(prior, e.at)]), DuplicateSkip(prior.thought))
        else if !e.dlqPath then Delivery(db, Failed("missing_dlq_path"))
        else Delivery(db.(events := db.events[e.key := Conflicted(prior, e)],
                          dlq := db.dlq + [DlqRow(e.key, prior.hash, e.claimedHash)]), ConflictDlq)
      else if !e.scopeOk then Delivery(db, Failed("adapter_error"))
      else Store(db, e)
  }

  /** What one delivery does, on the tables: what is refused or skipped, and in which order that is asked, what a
      repeat changes of its event, and what is stored for a new key. */
  lemma DeliveryDoes(db: Db, e: Envelope)
    ensures var d := Deliver(db, e);
            if !e.wellFormed then d == Delivery(db, Failed("invalid_required_field"))
            else if e.claimedHash != Encode(e.payload) then d == Delivery(db, Failed("payload_sha256_mismatch"))
            else if !e.createdAtOk then d == Delivery(db, Failed("invalid_source_created_at"))
            else if e.noise then d == Delivery(db, Skipped)
            else if e.key in db.events then
              var p := db.events[e.key];
              if p.hash == e.claimedHash then
                && d.outcome == DuplicateSkip(p.thought)
                && d.db == db.(events := db.events[e.key := Event(p.hash, p.status, p.thought, e.at, p.conflict)])
              else if !e.dlqPath then d == Delivery(db, Failed("missing_dlq_path"))
              else
                && d.outcome == ConflictDlq
                && d.db == db.(events := db.events[e.key :=
                                 Event(p.hash, Conflict, p.thought, e.at, Some(e.claimedHash))],
                               dlq := db.dlq + [DlqRow(e.key, p.hash, e.claimedHash)])
            else if !e.scopeOk then d == Delivery(db, Failed("adapter_error"))
            else
              && d.outcome.NewlyStored?
              && var id := d.outcome.thought;
              && d.db.events == db.events[e.key := Event(e.claimedHash, Stored, id, e.at, None)]
              && (if e.content in db.thoughts then id == db.thoughts[e.content] && d.db.thoughts == db.thoughts
                  else id == |db.thoughts| && d.db.thoughts == db.thoughts[e.content := id])
              && d.db.embedQueue == db.embedQueue + {id}
              && d.db.tagQueue == (if id in db.tagged then db.tagQueue else db.tagQueue + {id})
              && d.db.tagged == db.tagged && d.db.dlq == db.dlq
  {
    hide Encode;
    if e.content in db.thoughts {
      assert db.thoughts[e.content := db.thoughts[e.content]] == db.thoughts;
    }
  }

  class Database {
    var events: map<Key, Event>
    var thoughts: map<string, ThoughtId>
    var embedQueue: set<ThoughtId>
    var tagQueue: set<ThoughtId>
    var tagged: set<ThoughtId>
    var dlq: seq<DlqRow>

    constructor ()
      ensures Snapshot() == EMPTY
    {
      events, thoughts, embedQueue, tagQueue, tagged, dlq := map[], map[], {}, {}, {}, [];
    }

    function Snapshot(): Db
      reads this
    {
      Db(events, thoughts, embedQueue, tagQueue, tagged, dlq)
    }

    /** `markConflict`. */
    method MarkConflict(e: Envelope, prior: Event)
      requires e.key in events && events[e.key] == prior
      modifies `events, `dlq
      ensures events == old(events)[e.key := Conflicted(prior, e)]
      ensures dlq == old(dlq) + [DlqRow(e.key, prior.hash, e.claimedHash)]
    {
      events := events[e.key := prior.(status := Conflict, lastSeen := e.at, conflict := Some(e.claimedHash))];
      dlq := dlq + [DlqRow(e.key, prior.hash, e.claimedHash)];
    }

    /** `storeRecord`: one transaction. */
    method StoreRecord(e: Envelope) returns (id: ThoughtId)
      requires e.key !in events
      modifies `events, `thoughts, `embedQueue, `tagQueue
      ensures Delivery(Snapshot(), NewlyStored(id)) == Store(old(Snapshot()), e)
    {
      id := if e.content in thoughts then thoughts[e.content] else |thoughts|;
      thoughts := thoughts[e.content := id];
      embedQueue := embedQueue + {id};
      if id !in tagged {
        tagQueue := tagQueue + {id};
      }
      events := events[e.key := Event(e.claimedHash, Stored, id, e.at, None)];
    }

    /** `processRecord`. */
    method ProcessRecord(e: Envelope) returns (outcome: Outcome)
      modifies this
      ensures Delivery(Snapshot(), outcome) == Deliver(old(Snapshot()), e)
    {
      var check := Validate(e);
      if check.Refused? {
        return Failed(check.error);
      }
      if check.Skip? {
        return Skipped;
      }
      if e.key in events {
        var existing := events[e.key];
        if existing.hash == e.claimedHash {
          events := events[e.key := existing.(lastSeen := e.at)];
          return DuplicateSkip(existing.thought);
        }
        if !e.dlqPath {
          return Failed("missing_dlq_path");
        }
        MarkConflict(e, existing);
        return ConflictDlq;
      }
      if !e.scopeOk {
        return Failed("adapter_error");
      }
      var id := StoreRecord(e);
      return NewlyStored(id);
    }
  }

  const EMPTY := Db(map[], map[], {}, {}, {}, [])

  // ----- redelivery -----

  function DeliverAll(db: Db, es: seq<Envelope>): Db {
    if es == [] then db else Deliver(DeliverAll(db, es[..|es| - 1]), es[|es| - 1]).db
  }

  /** Everything but the dead-letter file and, of an event, its status, its instant and the conflict noted. */
  datatype View = View(
    identities: map<Key, (Text, ThoughtId)>, thoughts: map<string, ThoughtId>,
    embedQueue: set<ThoughtId>, tagQueue: set<ThoughtId>)

  ghost function ViewOf(db: Db): View {
    View(map k <- db.events :: (db.events[k].hash, db.events[k].thought), db.thoughts, db.embedQueue, db.tagQueue)
  }

  /** Whether an envelope is stored when its key is new. */
  predicate Storable(e: Envelope) {
    Validate(e).Accept? && e.scopeOk
  }

  /** The first storable envelope of each key that is not taken. */
  ghost function Firsts(es: seq<Envelope>, taken: set<Key>): seq<Envelope> {
    if es == [] then []
    else
      var e := es[|es| - 1];
      Firsts(es[..|es| - 1], taken)
      + if Storable(e) && e.key !in taken && e.key !in KeysOfAll(es[..|es| - 1]) then [e] else []
  }

  /** Keys of the storable envelopes. */
  ghost function KeysOfAll(es: seq<Envelope>): set<Key> {
    set e <- es | Storable(e) :: e.key
  }

  lemma DeliveryKeepsEvents(db: Db, e: Envelope)
    ensures var d := Deliver(db, e).db;
            && d.events.Keys == db.events.Keys + (if Storable(e) then {e.key} else {}) && d.tagged == db.tagged
            && forall k <- db.events ::
                 d.events[k].hash == db.events[k].hash && d.events[k].thought == db.events[k].thought
  {
    hide Encode;
  }

  lemma KeysSnoc(es: seq<Envelope>, e: Envelope)
    ensures KeysOfAll(es + [e]) == KeysOfAll(es) + (if Storable(e) then {e.key} else {})
  {
    hide Storable;
  }

  lemma {:induction false} EventsAre(db: Db, es: seq<Envelope>)
    ensures DeliverAll(db, es).events.Keys == db.events.Keys + KeysOfAll(es)
    ensures DeliverAll(db, es).tagged == db.tagged
  {
    hide Deliver, Storable;
    if es != [] {
      var (init, e) := (es[..|es| - 1], es[|es| - 1]);
      EventsAre(db, init);
      assert es == init + [e];
      KeysSnoc(init, e);
      DeliveryKeepsEvents(DeliverAll(db, init), e);
    }
  }

  /** A delivery that does not store a new event changes nothing that counts. */
  lemma RepeatKeepsView(db: Db, e: Envelope)
    requires !Storable(e) || e.key in db.events
    ensures ViewOf(Deliver(db, e).db) == ViewOf(db)
  {
  }

  /** A new event leads equal views to equal views. */
  lemma StoreKeepsEqualViews(db: Db, db': Db, e: Envelope)
    requires ViewOf(db) == ViewOf(db') && db.tagged == db'.tagged
    requires Storable(e) && e.key !in db.events && e.key !in db'.events
    ensures ViewOf(Deliver(db, e).db) == ViewOf(Deliver(db', e).db)
  {
    var (d, d') := (Deliver(db, e).db, Deliver(db', e).db);
    assert d.thoughts == d'.thoughts && d.events[e.key] == d'.events[e.key];
    forall k | k in d.events
      ensures k in d'.events && d.events[k].hash == d'.events[k].hash && d.events[k].thought == d'.events[k].thought
    {
      if k != e.key {
        assert ViewOf(db).identities[k] == ViewOf(db').identities[k];
      }
    }
    assert forall k | k in d'.events && k != e.key :: k in ViewOf(db').identities;
  }

  lemma {:induction false} FirstsKeys(es: seq<Envelope>, taken: set<Key>)
    ensures taken + KeysOfAll(Firsts(es, taken)) == taken + KeysOfAll(es)
  {
    hide Storable;
    if es != [] {
      var (init, e) := (es[..|es| - 1], es[|es| - 1]);
      FirstsKeys(init, taken);
      assert es == init + [e];
      KeysSnoc(init, e);
      var f := Firsts(init, taken);
      if Storable(e) && e.key !in taken && e.key !in KeysOfAll(init) {
        KeysSnoc(f, e);
        assert Firsts(es, taken) == f + [e];
      } else {
        assert Firsts(es, taken) == f;
      }
    }
  }

  /** Redelivery refines first delivery: whatever is delivered, in any order and as often as may be,
      identities, thoughts and queues are those of the first storable envelope of each key alone. */
  lemma {:induction false} RedeliveryIsHarmless(db: Db, es: seq<Envelope>)
    ensures ViewOf(DeliverAll(db, es)) == ViewOf(DeliverAll(db, Firsts(es, db.events.Keys)))
  {
    hide Deliver, Storable, ViewOf, KeysOfAll;
    if es != [] {
      var (init, e) := (es[..|es| - 1], es[|es| - 1]);
      var taken := db.events.Keys;
      var (now, once) := (DeliverAll(db, init), DeliverAll(db, Firsts(init, taken)));
      RedeliveryIsHarmless(db, init);
      EventsAre(db, init);
      EventsAre(db, Firsts(init, taken));
      FirstsKeys(init, taken);
      if Storable(e) && e.key !in now.events {
        StoreKeepsEqualViews(now, once, e);
        var f := Firsts(init, taken);
        assert Firsts(es, taken) == f + [e] && (f + [e])[..|f|] == f;
      } else {
        RepeatKeepsView(now, e);
        assert Firsts(es, taken) == Firsts(init, taken);
      }
    }
  }

  // ----- what a repeat is -----

  /** The first storable envelope of a key. */
  ghost function FirstOf(es: seq<Envelope>, k: Key): Envelope
    requires k in KeysOfAll(es)
  {
    if Storable(es[0]) && es[0].key == k then es[0]
    else
      assert es == [es[0]] + es[1..];
      FirstOf(es[1..], k)
  }

  lemma {:induction false} FirstOfSnoc(es: seq<Envelope>, e: Envelope, k: Key)
    requires k in KeysOfAll(es + [e])
    ensures k in KeysOfAll(es) ==> FirstOf(es + [e], k) == FirstOf(es, k)
    ensures k !in KeysOfAll(es) ==> FirstOf(es + [e], k) == e
  {
    if es == [] {
      assert ([] + [e])[1..] == [];
    } else {
      assert (es + [e])[1..] == es[1..] + [e] && (es + [e])[0] == es[0];
      if !(Storable(es[0]) && es[0].key == k) {
        assert es == [es[0]] + es[1..];
        assert es + [e] == [es[0]] + (es[1..] + [e]);
        FirstOfSnoc(es[1..], e, k);
      }
    }
  }

  /** An event keeps the hash and the thought of the first storable envelope of its key. */
  lemma {:induction false} EventsHoldFirst(es: seq<Envelope>, k: Key)
    requires k in KeysOfAll(es)
    ensures k in DeliverAll(EMPTY, es).events
    ensures DeliverAll(EMPTY, es).events[k].hash == Encode(FirstOf(es, k).payload)
    ensures FirstOf(es, k).content in DeliverAll(EMPTY, es).thoughts
    ensures DeliverAll(EMPTY, es).events[k].thought == DeliverAll(EMPTY, es).thoughts[FirstOf(es, k).content]
  {
    var (init, e) := (es[..|es| - 1], es[|es| - 1]);
    assert es == init + [e];
    hide Encode, FirstOf;
    EventsAre(EMPTY, init);
    EventsAre(EMPTY, es);
    KeysSnoc(init, e);
    FirstOfSnoc(init, e, k);
    DeliveryKeepsEvents(DeliverAll(EMPTY, init), e);
    DeliveryKeepsThoughts(DeliverAll(EMPTY, init), e);
    if k in KeysOfAll(init) {
      EventsHoldFirst(init, k);
    }
  }

  lemma DeliveryKeepsThoughts(db: Db, e: Envelope)
    ensures var d := Deliver(db, e).db;
            forall c <- db.thoughts :: c in d.thoughts && d.thoughts[c] == db.thoughts[c]
  {
    hide Encode;
  }

  /** Thoughts of different content are different. */
  ghost predicate DistinctThoughts(thoughts: map<string, ThoughtId>) {
    && (forall c <- thoughts :: thoughts[c] < |thoughts|)
    && forall c <- thoughts, d <- thoughts :: thoughts[c] == thoughts[d] ==> c == d
  }

  ghost predicate Exists(thoughts: map<string, ThoughtId>, id: ThoughtId) {
    exists c :: c in thoughts && thoughts[c] == id
  }

  /** An event's thought exists and waits for its embedding and, if it has no tags yet, for its tags. */
  ghost predicate Followed(db: Db, id: ThoughtId) {
    Exists(db.thoughts, id) && id in db.embedQueue && (id in db.tagQueue || id in db.tagged)
  }

  ghost predicate Sound(db: Db) {
    DistinctThoughts(db.thoughts) && forall k <- db.events :: Followed(db, db.events[k].thought)
  }

  lemma OneMoreThought(thoughts: map<string, ThoughtId>, content: string)
    requires DistinctThoughts(thoughts)
    ensures DistinctThoughts(thoughts[content := if content in thoughts then thoughts[content] else |thoughts|])
  {
    var id := if content in thoughts then thoughts[content] else |thoughts|;
    var next := thoughts[content := id];
    assert content !in thoughts ==> next.Keys == thoughts.Keys + {content};
    assert content in thoughts ==> next == thoughts;
  }

  lemma StoreKeepsFollowed(db: Db, e: Envelope, id: ThoughtId)
    ensures var d := Store(db, e);
            Followed(d.db, d.outcome.thought) && (Followed(db, id) ==> Followed(d.db, id))
  {
    var d := Store(db, e).db;
    assert e.content in d.thoughts;
    if Followed(db, id) {
      var c :| c in db.thoughts && db.thoughts[c] == id;
      assert c in d.thoughts && d.thoughts[c] == id;
    }
  }

  lemma DeliveryKeepsSound(db: Db, e: Envelope)
    requires Sound(db)
    ensures Sound(Deliver(db, e).db)
  {
    hide Encode, Followed, DistinctThoughts, Validate;
    var d := Deliver(db, e);
    if d.outcome.NewlyStored? {
      OneMoreThought(db.thoughts, e.content);
      forall k <- d.db.events ensures Followed(d.db, d.db.events[k].thought) {
        StoreKeepsFollowed(db, e, d.db.events[k].thought);
      }
    } else {
      forall k <- d.db.events ensures Followed(d.db, d.db.events[k].thought) {
        ConflictKeepsFollowed(db, e, d.db.events[k].thought);
      }
    }
  }

  lemma ConflictKeepsFollowed(db: Db, e: Envelope, id: ThoughtId)
    requires !Deliver(db, e).outcome.NewlyStored?
    ensures Followed(Deliver(db, e).db, id) == Followed(db, id)
  {
    hide Encode, Exists;
  }

  lemma {:induction false} StoredIsQueued(es: seq<Envelope>)
    ensures Sound(DeliverAll(EMPTY, es))
  {
    hide Deliver, Sound;
    if es == [] {
      NothingIsSound();
    } else {
      StoredIsQueued(es[..|es| - 1]);
      DeliveryKeepsSound(DeliverAll(EMPTY, es[..|es| - 1]), es[|es| - 1]);
    }
  }

  lemma NothingIsSound()
    ensures Sound(EMPTY)
  {
  }

  /** After any deliveries, an acceptable envelope of a known key is a duplicate exactly when its payload
      equals the first one's up to the order of object members, and then only the instant it was last
      seen changes; otherwise it marks the event as in conflict and adds exactly one dead-letter row with
      both hashes, or without a dead-letter file it fails and changes nothing. */
  lemma RepeatOutcome(es: seq<Envelope>, e: Envelope)
    requires Validate(e).Accept? && e.key in KeysOfAll(es)
    requires WellFormed(e.payload) && WellFormed(FirstOf(es, e.key).payload)
    ensures var db := DeliverAll(EMPTY, es);
            var d := Deliver(db, e);
            && e.key in db.events
            && var first := db.events[e.key];
            && (Same(FirstOf(es, e.key).payload, e.payload) <==> d.outcome == DuplicateSkip(first.thought))
            && (d.outcome.DuplicateSkip? ==> d.db == db.(events := db.events[e.key := Seen(first, e.at)]))
            && (!d.outcome.DuplicateSkip? && e.dlqPath ==>
                  && d.outcome == ConflictDlq
                  && d.db == db.(events := db.events[e.key := Conflicted(first, e)],
                                 dlq := db.dlq + [DlqRow(e.key, first.hash, e.claimedHash)]))
            && (!d.outcome.DuplicateSkip? && !e.dlqPath ==>
                  d.outcome == Failed("missing_dlq_path") && d.db == db)
            && ViewOf(d.db) == ViewOf(db)
  {
    EventsHoldFirst(es, e.key);
    EncodingIsCanonical(FirstOf(es, e.key).payload, e.payload);
    RepeatKeepsView(DeliverAll(EMPTY, es), e);
  }
}
