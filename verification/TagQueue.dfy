/** The tag queue: one job's life over any run of drain ticks, and the all-or-nothing relation
    update. Attempt increments and job removals succeed, as the drainer assumes. */
module TagQueue {
  import W = WordSpans

  const MAX_TAG_ATTEMPTS := 5
  const MAX_TARGET_NAME_LEN := 200
  const MAX_TARGET_URL_LEN := 2048

  type Id = nat

  datatype Target = Thought(id: Id) | Entity(name: string) | Person(name: string) | Url(url: string)

  datatype Relation = Relation(kind: nat, target: Target)

  ghost predicate AllBlank(name: string) {
    forall c <- name :: W.IsWhitespace(c)
  }

  predicate Starts(text: string, prefix: string) {
    |prefix| <= |text| && text[..|prefix|] == prefix
  }

  /** A relation the link store takes: a name with a visible character and at most 200 bytes, or an
      http(s) address of at most 2048 bytes. */
  ghost predicate Valid(r: Relation) {
    match r.target
    case Thought(_) => true
    case Entity(name) => !AllBlank(name) && W.ByteOff(name, |name|) <= 200
    case Person(name) => !AllBlank(name) && W.ByteOff(name, |name|) <= 200
    case Url(url) => W.ByteOff(url, |url|) <= 2048 && (Starts(url, "http://") || Starts(url, "https://"))
  }

  method NameIsUsable(name: string) returns (ok: bool)
    ensures ok <==> !AllBlank(name) && W.ByteOff(name, |name|) <= MAX_TARGET_NAME_LEN
  {
    var i := 0;
    while i < |name| && W.IsWhitespace(name[i])
      invariant 0 <= i <= |name|
      invariant forall j :: 0 <= j < i ==> W.IsWhitespace(name[j])
    {
      i := i + 1;
    }
    ok := i < |name| && W.ByteOff(name, |name|) <= MAX_TARGET_NAME_LEN;
  }

  method ValidateTarget(r: Relation) returns (ok: bool)
    ensures ok <==> Valid(r)
  {
    match r.target {
      case Thought(_) => ok := true;
      case Entity(name) => ok := NameIsUsable(name);
      case Person(name) => ok := NameIsUsable(name);
      case Url(url) =>
        ok := W.ByteOff(url, |url|) <= MAX_TARGET_URL_LEN && (Starts(url, "http://") || Starts(url, "https://"));
    }
  }

  function Times(n: nat, c: char): (t: string)
    ensures |t| == n && forall i :: 0 <= i < n ==> t[i] == c
  {
    seq(n, _ => c)
  }

  lemma {:induction false} TimesBytes(prefix: string, n: nat, c: char, k: nat)
    requires k <= n
    ensures W.ByteOff(prefix + Times(n, c), |prefix| + k) == W.ByteOff(prefix, |prefix|) + k * W.Utf8Len(c)
  {
    var text := prefix + Times(n, c);
    if k == 0 {
      SameBytes(prefix, Times(n, c), |prefix|);
    } else {
      TimesBytes(prefix, n, c, k - 1);
      assert text[|prefix| + k - 1] == c;
      assert k * W.Utf8Len(c) == (k - 1) * W.Utf8Len(c) + W.Utf8Len(c);
    }
  }

  lemma {:induction false} SameBytes(a: string, b: string, i: nat)
    requires i <= |a|
    ensures W.ByteOff(a + b, i) == W.ByteOff(a, i)
  {
    if i > 0 {
      SameBytes(a, b, i - 1);
    }
  }

  /** A character other than whitespace, n times over, is a usable name exactly if it fills at most 200 bytes and
      at least one; whitespace alone never is. */
  lemma NamesBySize(kind: nat, n: nat, c: char)
    ensures Valid(Relation(kind, Entity(Times(n, c)))) == Valid(Relation(kind, Person(Times(n, c))))
    ensures Valid(Relation(kind, Person(Times(n, c)))) <==> !W.IsWhitespace(c) && 0 < n * W.Utf8Len(c) <= 200
  {
    TimesBytes([], n, c, n);
    assert [] + Times(n, c) == Times(n, c);
    if n > 0 {
      assert Times(n, c)[0] == c;
    }
  }

  /** An address is taken with either scheme and up to 2048 bytes, and with no other beginning. */
  lemma AddressesBySize(kind: nat, n: nat, c: char, rest: string)
    ensures Valid(Relation(kind, Url("http://" + Times(n, c)))) <==> 7 + n * W.Utf8Len(c) <= 2048
    ensures Valid(Relation(kind, Url("https://" + Times(n, c)))) <==> 8 + n * W.Utf8Len(c) <= 2048
    ensures !Valid(Relation(kind, Url("ftp://" + rest)))
  {
    TimesBytes("http://", n, c, n);
    TimesBytes("https://", n, c, n);
    SchemeBytes();
    assert ("http://" + Times(n, c))[..7] == "http://" && ("https://" + Times(n, c))[..8] == "https://";
    assert ("ftp://" + rest)[0] == 'f';
  }

  lemma SchemeBytes()
    ensures W.ByteOff("http://", 7) == 7 && W.ByteOff("https://", 8) == 8
  {
    var (p, q) := ("http://", "https://");
    assert W.ByteOff(p, 1) == 1 && W.ByteOff(p, 2) == 2 && W.ByteOff(p, 3) == 3 && W.ByteOff(p, 4) == 4
        && W.ByteOff(p, 5) == 5 && W.ByteOff(p, 6) == 6;
    assert W.ByteOff(q, 1) == 1 && W.ByteOff(q, 2) == 2 && W.ByteOff(q, 3) == 3 && W.ByteOff(q, 4) == 4
        && W.ByteOff(q, 5) == 5 && W.ByteOff(q, 6) == 6 && W.ByteOff(q, 7) == 7;
  }

  // ----- one attempt at a job -----

  /** How one attempt meets the world. `stores`: the tags are persisted; `links`: the relation
      replacement, if it is reached, is accepted. */
  datatype Attempt =
    | ThoughtGone | FetchFails | VocabFails
    | TaggerFails(transient: bool)
    | Tagged(tags: nat, relations: seq<Relation>, stores: bool, links: bool)

  datatype Outcome = Completed | Transient | Permanent

  ghost predicate Succeeds(a: Attempt) {
    a.Tagged? && a.stores && a.links && forall r <- a.relations :: Valid(r)
  }

  class TagStore {
    var attempts: map<Id, nat>
    var tags: map<Id, nat>
    /** What the tagger has linked from a thought, as a set of emissions kept with multiplicity. */
    var edges: map<Id, multiset<Relation>>

    /** Every emission is checked before the one call that replaces the set. */
    method ApplyTaggerRelations(id: Id, relations: seq<Relation>, links: bool) returns (ok: bool)
      modifies this`edges
      ensures ok <==> links && forall r <- relations :: Valid(r)
      ensures edges == if ok then old(edges)[id := multiset(relations)] else old(edges)
    {
      var emitted := [];
      var i := 0;
      while i < |relations|
        invariant 0 <= i <= |relations|
        invariant emitted == relations[..i] && forall r <- emitted :: Valid(r)
        invariant edges == old(edges)
      {
        var valid := ValidateTarget(relations[i]);
        if !valid { return false; }
        emitted := emitted + [relations[i]];
        i := i + 1;
      }
      assert emitted == relations;
      if !links { return false; }
      edges := edges[id := multiset(emitted)];
      return true;
    }

    method Increment(id: Id)
      requires id in attempts
      modifies this`attempts
      ensures attempts == old(attempts)[id := old(attempts)[id] + 1]
    {
      attempts := attempts[id := attempts[id] + 1];
    }

    method Complete(id: Id)
      modifies this`attempts
      ensures attempts == old(attempts) - {id}
    {
      attempts := attempts - {id};
    }

    method ProcessTagJob(id: Id, a: Attempt) returns (outcome: Outcome)
      requires id in attempts
      modifies this
      ensures (if id in attempts then Queued(attempts[id]) else Gone) == After(Queued(old(attempts)[id]), a)
      ensures attempts - {id} == old(attempts) - {id}
      ensures tags == if a.Tagged? && a.stores then old(tags)[id := a.tags] else old(tags)
      ensures edges == if Succeeds(a) then old(edges)[id := multiset(a.relations)] else old(edges)
      ensures outcome == if id in attempts then Transient else if Succeeds(a) then Completed else Permanent
    {
      var before := attempts[id];
      match a {
        case ThoughtGone =>
          Complete(id);
          return Permanent;
        case FetchFails =>
          Increment(id);
          return Transient;
        case VocabFails =>
          Increment(id);
          return Transient;
        case TaggerFails(transient) =>
          if !transient || before + 1 >= MAX_TAG_ATTEMPTS {
            Complete(id);
            return Permanent;
          }
          Increment(id);
          return Transient;
        case Tagged(new_tags, relations, stores, links) =>
          if !stores {
            Increment(id);
            return Transient;
          }
          tags := tags[id := new_tags];
          var ok := ApplyTaggerRelations(id, relations, links);
          if !ok {
            Increment(id);
            return Transient;
          }
          Complete(id);
          return Completed;
      }
    }
  }

  // ----- a job's life -----

  datatype Entry = Queued(attempts: nat) | Gone

  /** The queue entry after one attempt; a job that is gone stays gone. */
  ghost function After(e: Entry, a: Attempt): Entry {
    if e == Gone || a == ThoughtGone || Succeeds(a)
       || (a.TaggerFails? && (!a.transient || e.attempts + 1 >= MAX_TAG_ATTEMPTS))
    then Gone else Queued(e.attempts + 1)
  }

  ghost function AfterAll(e: Entry, run: seq<Attempt>): Entry {
    if run == [] then e else After(AfterAll(e, run[..|run| - 1]), run[|run| - 1])
  }

  /** The i-th attempt of a run ends a job that had `tries` attempts behind it. */
  ghost predicate Ends(tries: nat, i: nat, a: Attempt) {
    || a == ThoughtGone || Succeeds(a)
    || (a.TaggerFails? && (!a.transient || tries + i + 1 >= 5))
  }

  /** A job outlives a run exactly when nothing in it ends the job; it then counts every attempt. Only
      a tagger error consults the cap: other failures count as attempts and never drop the job. */
  lemma {:induction false} SurvivesIff(tries: nat, run: seq<Attempt>)
    ensures AfterAll(Queued(tries), run)
         == if forall i :: 0 <= i < |run| ==> !Ends(tries, i, run[i]) then Queued(tries + |run|) else Gone
  {
    hide Succeeds;
    if run != [] {
      var n := |run| - 1;
      SurvivesIff(tries, run[..n]);
      assert forall i :: 0 <= i < n ==> run[..n][i] == run[i];
      if AfterAll(Queued(tries), run[..n]) != Gone {
        assert AfterAll(Queued(tries), run) == Gone <==> Ends(tries, n, run[n]);
      }
    }
  }

  ghost function TaggerErrors(run: seq<Attempt>): nat {
    if run == [] then 0 else TaggerErrors(run[..|run| - 1]) + if run[|run| - 1].TaggerFails? then 1 else 0
  }

  /** A job still queued has met fewer than five tagger errors: the fifth, at the latest, removes it,
      whatever else happened in between. */
  lemma {:induction false} GoneByTheFifthTaggerError(run: seq<Attempt>)
    ensures TaggerErrors(run) >= 5 ==> AfterAll(Queued(0), run) == Gone
  {
    QueuedErrors(run);
  }

  lemma {:induction false} QueuedErrors(run: seq<Attempt>)
    ensures AfterAll(Queued(0), run).Queued? ==>
              TaggerErrors(run) < 5 && TaggerErrors(run) <= AfterAll(Queued(0), run).attempts
  {
    hide Succeeds;
    if run != [] {
      QueuedErrors(run[..|run| - 1]);
    }
  }

  /** An attempt that fails for another reason than a tagger error: the thought or the vocabulary cannot be
      read, the tags are not stored, a relation is malformed, or the relations are not accepted. */
  ghost predicate FailsSoftly(a: Attempt) {
    match a
    case FetchFails => true
    case VocabFails => true
    case Tagged(_, relations, stores, links) => !stores || !links || exists r <- relations :: !Valid(r)
    case _ => false
  }

  /** Such failures never drop a job, however many there are; they are counted. */
  lemma {:induction false} SoftFailuresNeverDrop(tries: nat, run: seq<Attempt>)
    requires forall a <- run :: FailsSoftly(a)
    ensures AfterAll(Queued(tries), run) == Queued(tries + |run|)
  {
    forall i | 0 <= i < |run| ensures !Ends(tries, i, run[i]) {
      assert run[i] in run;
    }
    SurvivesIff(tries, run);
  }

  /** One attempt ends a job only by completing it, or because the thought is gone, or by a tagger error that is
      permanent or comes fifth or later. */
  lemma OneAttempt(tries: nat, a: Attempt)
    ensures After(Queued(tries), a)
         == match a
            case ThoughtGone => Gone
            case TaggerFails(transient) => if transient && tries < 4 then Queued(tries + 1) else Gone
            case _ => if FailsSoftly(a) then Queued(tries + 1) else Gone
  {
  }

  /** A malformed relation, emitted every time, keeps the job queued for ever. */
  lemma {:induction false} BadRelationNeverDrops(bad: Relation, rest: seq<Relation>, tags: nat, n: nat)
    requires !Valid(bad)
    ensures AfterAll(Queued(0), seq(n, _ => Tagged(tags, [bad] + rest, true, true))) == Queued(n)
  {
    var a := Tagged(tags, [bad] + rest, true, true);
    var run := seq(n, _ => a);
    assert a.relations[0] == bad;
    SoftFailuresNeverDrop(0, run);
  }
}
