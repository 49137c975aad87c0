/** The embedding queue: its drainer, crashes between the drainer's steps, and the operator's
    backfill loop. Storage calls succeed; a crash ends a pass between any two of them. */
module EmbedQueue {

  /** What an embedding row is keyed by: target kind, target and model. */
  type Key = nat

  type Vector = nat

  datatype Job = Job(id: nat, key: Key)

  /** A job of another model or kind, a target that is gone, or a text, perhaps denied to retrieval. */
  datatype Source = Foreign | Missing | Present(text: nat, denied: bool)

  datatype Embedded = Vector(value: Vector) | Error

  /** `upserts`: whether an insert over an existing row replaces it (one model's table does) or is ignored. */
  datatype World = World(source: Key -> Source, embed: nat -> Embedded, hygiene: bool, upserts: bool)

  datatype Fate = Embed(vector: Vector) | Skip | Fail

  function FateOf(w: World, key: Key): Fate {
    match w.source(key)
    case Foreign => Fail
    case Missing => if w.hygiene then Skip else Fail
    case Present(text, denied) =>
      if w.hygiene && denied then Skip
      else match w.embed(text) case Vector(v) => Embed(v) case Error => Fail
  }

  datatype Store = Store(queue: seq<Job>, vectors: map<Key, Vector>)

  function Insert(w: World, vectors: map<Key, Vector>, key: Key, v: Vector): map<Key, Vector> {
    if key in vectors && !w.upserts then vectors else vectors[key := v]
  }

  function Without(queue: seq<Job>, id: nat): seq<Job> {
    if queue == [] then []
    else
      var rest := Without(queue[..|queue| - 1], id);
      if queue[|queue| - 1].id == id then rest else rest + [queue[|queue| - 1]]
  }

  /** Job after job; the worker dies after `steps` durable steps (an insert, a removal from the queue). */
  ghost function RunJobs(w: World, s: Store, jobs: seq<Job>, steps: nat): Store
    decreases |jobs|
  {
    if jobs == [] || steps == 0 then s
    else
      var j := jobs[0];
      match FateOf(w, j.key)
      case Fail => RunJobs(w, s, jobs[1..], steps)
      case Skip => RunJobs(w, s.(queue := Without(s.queue, j.id)), jobs[1..], steps - 1)
      case Embed(v) =>
        var put := s.(vectors := Insert(w, s.vectors, j.key, v));
        if steps == 1 then put
        else RunJobs(w, put.(queue := Without(put.queue, j.id)), jobs[1..], steps - 2)
  }

  ghost predicate DistinctJobs(queue: seq<Job>) {
    forall i, j :: 0 <= i < j < |queue| ==> queue[i].id != queue[j].id
  }

  // ----- the state a queue is on its way to -----

  function Failing(w: World, queue: seq<Job>): seq<Job> {
    if queue == [] then []
    else
      var rest := Failing(w, queue[..|queue| - 1]);
      if FateOf(w, queue[|queue| - 1].key) == Fail then rest + [queue[|queue| - 1]] else rest
  }

  ghost function ToEmbed(w: World, queue: seq<Job>): set<Key> {
    set j <- queue | FateOf(w, j.key).Embed? :: j.key
  }

  /** Only hopeless jobs left, and a vector for every target that could be embedded. */
  ghost function Healed(w: World, s: Store): Store {
    var due := ToEmbed(w, s.queue);
    Store(Failing(w, s.queue),
          map k | k in s.vectors.Keys + due ::
            if k in due && (w.upserts || k !in s.vectors) then FateOf(w, k).vector else s.vectors[k])
  }

  lemma {:induction false} WithoutLeaves(queue: seq<Job>, id: nat)
    ensures forall j :: j in Without(queue, id) <==> j in queue && j.id != id
    ensures DistinctJobs(queue) ==> DistinctJobs(Without(queue, id))
    ensures |Without(queue, id)| <= |queue|
  {
    if queue != [] {
      var n := |queue| - 1;
      assert queue == queue[..n] + [queue[n]];
      WithoutLeaves(queue[..n], id);
      var rest := Without(queue[..n], id);
      if DistinctJobs(queue) {
        forall i | 0 <= i < |rest| ensures rest[i].id != queue[n].id {
          assert rest[i] in rest;
          assert rest[i] in queue[..n];
        }
      }
    }
  }

  lemma {:induction false} FailingWithout(w: World, queue: seq<Job>, id: nat)
    requires forall j <- queue :: j.id == id ==> FateOf(w, j.key) != Fail
    ensures Failing(w, Without(queue, id)) == Failing(w, queue)
  {
    hide FateOf;
    if queue != [] {
      var n := |queue| - 1;
      assert queue == queue[..n] + [queue[n]];
      FailingWithout(w, queue[..n], id);
      var rest := Without(queue[..n], id);
      if queue[n].id != id {
        assert Without(queue, id) == rest + [queue[n]];
        assert (rest + [queue[n]])[..|rest|] == rest;
      }
    }
  }

  lemma PutKeepsHealed(w: World, s: Store, j: Job)
    requires j in s.queue && FateOf(w, j.key).Embed?
    ensures Healed(w, s.(vectors := Insert(w, s.vectors, j.key, FateOf(w, j.key).vector))) == Healed(w, s)
  {
    hide FateOf;
  }

  lemma DueWithout(w: World, queue: seq<Job>, j: Job)
    requires DistinctJobs(queue) && j in queue
    ensures ToEmbed(w, Without(queue, j.id)) <= ToEmbed(w, queue)
    ensures forall k <- ToEmbed(w, queue) :: k in ToEmbed(w, Without(queue, j.id)) || k == j.key
    ensures FateOf(w, j.key) == Skip ==> j.key !in ToEmbed(w, queue)
  {
    hide FateOf, Without;
    WithoutLeaves(queue, j.id);
    forall k | k in ToEmbed(w, queue) && k != j.key ensures k in ToEmbed(w, Without(queue, j.id)) {
      var i :| i in queue && FateOf(w, i.key).Embed? && i.key == k;
      assert i != j;
      assert i in Without(queue, j.id);
    }
  }

  lemma DequeueKeepsHealed(w: World, s: Store, j: Job)
    requires DistinctJobs(s.queue) && j in s.queue
    requires match FateOf(w, j.key)
             case Embed(v) => j.key in s.vectors && (w.upserts ==> s.vectors[j.key] == v)
             case Skip => true
             case Fail => false
    ensures Healed(w, s.(queue := Without(s.queue, j.id))) == Healed(w, s)
  {
    FailingWithout(w, s.queue, j.id);
    hide FateOf, Without, ToEmbed, Failing, DistinctJobs;
    var queue := Without(s.queue, j.id);
    DueWithout(w, s.queue, j);
    assert Healed(w, s.(queue := queue)).vectors == Healed(w, s).vectors;
  }

  /** A pass, cut short anywhere, leaves the queue on its way to the same state. */
  lemma {:induction false} PassKeepsHealed(w: World, s: Store, jobs: seq<Job>, steps: nat)
    requires DistinctJobs(s.queue) && DistinctJobs(jobs) && forall j <- jobs :: j in s.queue
    ensures Healed(w, RunJobs(w, s, jobs, steps)) == Healed(w, s)
    ensures DistinctJobs(RunJobs(w, s, jobs, steps).queue)
    decreases |jobs|
  {
    hide FateOf, Healed, Without;
    if jobs != [] && steps > 0 {
      var (j, rest) := (jobs[0], jobs[1..]);
      assert forall i <- rest :: i in jobs && i.id != j.id;
      match FateOf(w, j.key) {
        case Fail =>
          PassKeepsHealed(w, s, rest, steps);
        case Skip =>
          DequeueKeepsHealed(w, s, j);
          WithoutLeaves(s.queue, j.id);
          PassKeepsHealed(w, s.(queue := Without(s.queue, j.id)), rest, steps - 1);
        case Embed(v) =>
          var put := s.(vectors := Insert(w, s.vectors, j.key, v));
          PutKeepsHealed(w, s, j);
          if steps > 1 {
            DequeueKeepsHealed(w, put, j);
            WithoutLeaves(put.queue, j.id);
            PassKeepsHealed(w, put.(queue := Without(put.queue, j.id)), rest, steps - 2);
          }
      }
    }
  }

  /** One tick of the worker: the oldest `batch` jobs, and how many durable steps it lives for. */
  datatype Tick = Tick(batch: nat, steps: nat)

  ghost function Oldest(queue: seq<Job>, batch: nat): seq<Job> {
    if batch <= |queue| then queue[..batch] else queue
  }

  ghost function Worked(w: World, s: Store, ticks: seq<Tick>): Store {
    if ticks == [] then s
    else
      var t := ticks[|ticks| - 1];
      var before := Worked(w, s, ticks[..|ticks| - 1]);
      RunJobs(w, before, Oldest(before.queue, t.batch), t.steps)
  }

  lemma {:induction false} TicksKeepHealed(w: World, s: Store, ticks: seq<Tick>)
    requires DistinctJobs(s.queue)
    ensures Healed(w, Worked(w, s, ticks)) == Healed(w, s) && DistinctJobs(Worked(w, s, ticks).queue)
  {
    hide Healed, RunJobs;
    if ticks != [] {
      TicksKeepHealed(w, s, ticks[..|ticks| - 1]);
      var before := Worked(w, s, ticks[..|ticks| - 1]);
      var t := ticks[|ticks| - 1];
      PassKeepsHealed(w, before, Oldest(before.queue, t.batch), t.steps);
    }
  }

  /** A pass that lives long enough takes its jobs off the head of the queue, all but the failing ones. */
  lemma {:induction false} FullPass(w: World, s: Store, done: seq<Job>, jobs: seq<Job>, tail: seq<Job>, steps: nat)
    requires s.queue == Failing(w, done) + jobs + tail && DistinctJobs(s.queue)
    requires steps >= 2 * |jobs|
    ensures RunJobs(w, s, jobs, steps).queue == Failing(w, done + jobs) + tail
    decreases |jobs|
  {
    hide FateOf, Without, Failing;
    if jobs == [] {
      assert done + jobs == done && Failing(w, done) + jobs == Failing(w, done);
    } else {
      var (j, rest) := (jobs[0], jobs[1..]);
      var (head, next) := (Failing(w, done), done + [j]);
      assert next + rest == done + jobs;
      assert s.queue == head + [j] + (rest + tail);
      FailingOneMore(w, done, j);
      if FateOf(w, j.key) == Fail {
        assert s.queue == head + [j] + rest + tail;
        FullPass(w, s, next, rest, tail, steps);
      } else {
        WithoutMiddle(head, j, rest + tail);
        WithoutLeaves(s.queue, j.id);
        var queue := Without(s.queue, j.id);
        assert queue == head + rest + tail;
        if FateOf(w, j.key) == Skip {
          FullPass(w, s.(queue := queue), next, rest, tail, steps - 1);
        } else {
          var put := s.(vectors := Insert(w, s.vectors, j.key, FateOf(w, j.key).vector));
          FullPass(w, put.(queue := queue), next, rest, tail, steps - 2);
        }
      }
    }
  }

  lemma FailingOneMore(w: World, queue: seq<Job>, j: Job)
    ensures Failing(w, queue + [j]) == if FateOf(w, j.key) == Fail then Failing(w, queue) + [j] else Failing(w, queue)
  {
    hide FateOf;
    assert (queue + [j])[..|queue|] == queue;
  }

  lemma {:induction false} WithoutMiddle(head: seq<Job>, j: Job, tail: seq<Job>)
    requires DistinctJobs(head + [j] + tail)
    ensures Without(head + [j] + tail, j.id) == head + tail
    decreases |tail|
  {
    var all := head + [j] + tail;
    assert all[|head|] == j;
    if tail == [] {
      assert all[..|all| - 1] == head;
      WithoutNothing(head, j.id) by {
        forall i | 0 <= i < |head| ensures head[i].id != j.id { assert all[i] == head[i]; }
      }
      assert head + tail == head;
    } else {
      var n := |tail| - 1;
      assert all[..|all| - 1] == head + [j] + tail[..n];
      WithoutMiddle(head, j, tail[..n]);
      assert all[|all| - 1] == tail[n];
      assert head + tail == head + tail[..n] + [tail[n]];
    }
  }

  lemma {:induction false} WithoutNothing(queue: seq<Job>, id: nat)
    requires forall i :: 0 <= i < |queue| ==> queue[i].id != id
    ensures Without(queue, id) == queue
  {
    if queue != [] {
      WithoutNothing(queue[..|queue| - 1], id);
    }
  }

  /** Crashes leave no trace: after any ticks, each dying wherever it likes, one tick over the whole
      queue that lives reaches the very state it would have reached at the start. */
  lemma CrashesLeaveNoTrace(w: World, s: Store, ticks: seq<Tick>, last: Tick)
    requires DistinctJobs(s.queue)
    requires last.batch >= |Worked(w, s, ticks).queue| && last.steps >= 2 * |Worked(w, s, ticks).queue|
    ensures Worked(w, s, ticks + [last]) == Healed(w, s)
  {
    hide RunJobs;
    var all := ticks + [last];
    assert all[..|all| - 1] == ticks;
    TicksKeepHealed(w, s, ticks);
    TicksKeepHealed(w, s, all);
    var before := Worked(w, s, ticks);
    assert before.queue == Failing(w, []) + before.queue + [];
    FullPass(w, before, [], before.queue, [], last.steps);
    assert [] + before.queue == before.queue;
    var after := Worked(w, s, all);
    assert after.queue == Failing(w, before.queue) + [] == Failing(w, before.queue);
    HealedIsFixed(w, before, after);
  }

  /** With only failing jobs left there is nothing more to come. */
  lemma HealedIsFixed(w: World, before: Store, after: Store)
    requires after.queue == Failing(w, before.queue)
    ensures Healed(w, after) == after
  {
    hide FateOf;
    FailingFails(w, before.queue);
    FailingIsIdempotent(w, before.queue);
    assert ToEmbed(w, after.queue) == {};
    assert Healed(w, after).vectors == after.vectors;
  }

  lemma {:induction false} FailingFails(w: World, queue: seq<Job>)
    ensures forall j :: j in Failing(w, queue) <==> j in queue && FateOf(w, j.key) == Fail
  {
    hide FateOf;
    if queue != [] {
      assert queue == queue[..|queue| - 1] + [queue[|queue| - 1]];
      FailingFails(w, queue[..|queue| - 1]);
    }
  }

  lemma {:induction false} FailingIsIdempotent(w: World, queue: seq<Job>)
    ensures Failing(w, Failing(w, queue)) == Failing(w, queue)
  {
    hide FateOf;
    if queue != [] {
      var n := |queue| - 1;
      FailingIsIdempotent(w, queue[..n]);
      var f := Failing(w, queue[..n]);
      if FateOf(w, queue[n].key) == Fail {
        assert (f + [queue[n]])[..|f|] == f;
      }
    }
  }

  // ----- what the outside world decides -----

  /** A target that gets a vector: one with a text that is not withheld and that the embedder takes. */
  ghost predicate CanEmbed(w: World, key: Key) {
    match w.source(key)
    case Present(text, denied) => !(w.hygiene && denied) && w.embed(text).Vector?
    case _ => false
  }

  /** A job that stays: of another kind, of a target that is gone while hygiene is off, or of a text that is not
      withheld and that the embedder refuses. With hygiene on, jobs of targets that are gone or denied are
      dropped without a vector. */
  ghost predicate CannotGo(w: World, key: Key) {
    match w.source(key)
    case Foreign => true
    case Missing => !w.hygiene
    case Present(text, denied) => !(w.hygiene && denied) && w.embed(text).Error?
  }

  ghost predicate Queued(queue: seq<Job>, key: Key) {
    exists j <- queue :: j.key == key
  }

  /** What the queue heals to, in terms of the outside world: the jobs that cannot go are left, and a target
      has a vector if it had one or can be embedded; the new vector replaces an old one where the table lets it. */
  lemma HealedMeans(w: World, s: Store)
    ensures var h := Healed(w, s);
            && (forall j :: j in h.queue <==> j in s.queue && CannotGo(w, j.key))
            && (forall k :: k in h.vectors <==> k in s.vectors || (Queued(s.queue, k) && CanEmbed(w, k)))
            && forall k <- h.vectors ::
                 h.vectors[k] == if (w.upserts || k !in s.vectors) && Queued(s.queue, k) && CanEmbed(w, k)
                                 then w.embed(w.source(k).text).value else s.vectors[k]
  {
    FailingFails(w, s.queue);
    assert forall k :: k in ToEmbed(w, s.queue) <==> Queued(s.queue, k) && CanEmbed(w, k);
  }

  /** One job that is run to its end: it leaves the queue unless it cannot go, and leaves a vector if its
      target can be embedded. */
  lemma OneJobRun(w: World, s: Store, j: Job)
    ensures var s' := RunJobs(w, s, [j], 2);
            && (forall i :: i in s'.queue <==> i in s.queue && (i.id != j.id || CannotGo(w, j.key)))
            && s'.vectors == (if CanEmbed(w, j.key) && (w.upserts || j.key !in s.vectors)
                              then s.vectors[j.key := w.embed(w.source(j.key).text).value] else s.vectors)
  {
    hide Without;
    WithoutLeaves(s.queue, j.id);
    assert [j][1..] == [];
  }

  // ----- the drainer -----

  datatype Report = Report(found: nat, embedded: nat, skipped: nat, failed: nat)

  function Tally(w: World, jobs: seq<Job>): Report {
    if jobs == [] then Report(0, 0, 0, 0)
    else
      var r := Tally(w, jobs[..|jobs| - 1]);
      var r := r.(found := r.found + 1);
      match FateOf(w, jobs[|jobs| - 1].key)
      case Embed(_) => r.(embedded := r.embedded + 1)
      case Skip => r.(skipped := r.skipped + 1)
      case Fail => r.(failed := r.failed + 1)
  }

  /** Every claimed job is reported once; the failures are the jobs that stay. */
  lemma {:induction false} TallyCounts(w: World, jobs: seq<Job>)
    ensures var r := Tally(w, jobs);
            r.found == |jobs| == r.embedded + r.skipped + r.failed && r.failed == |Failing(w, jobs)|
    ensures !w.hygiene ==> Tally(w, jobs).skipped == 0
    ensures Tally(w, jobs).failed == |jobs| <==> AllFail(w, jobs)
  {
    if jobs != [] {
      var n := |jobs| - 1;
      assert jobs == jobs[..n] + [jobs[n]];
      TallyCounts(w, jobs[..n]);
      hide FateOf;
    }
  }

  lemma {:induction false} StepsToSpare(w: World, s: Store, jobs: seq<Job>, a: nat, b: nat)
    requires a >= 2 * |jobs| && b >= 2 * |jobs|
    ensures RunJobs(w, s, jobs, a) == RunJobs(w, s, jobs, b)
    decreases |jobs|
  {
    hide FateOf, Without;
    if jobs != [] {
      var (j, rest) := (jobs[0], jobs[1..]);
      var fate := FateOf(w, j.key);
      var put := if fate.Embed? then s.(vectors := Insert(w, s.vectors, j.key, fate.vector)) else s;
      StepsToSpare(w, s, rest, a, b);
      StepsToSpare(w, put.(queue := Without(s.queue, j.id)), rest, a - 1, b - 1);
      StepsToSpare(w, put.(queue := Without(s.queue, j.id)), rest, a - 2, b - 2);
    }
  }

  /** What a tick that lives does: its jobs leave the head of the queue, all but the failing ones. */
  lemma TickThatLives(w: World, s: Store, batch: nat, s': Store)
    requires DistinctJobs(s.queue)
    requires s' == RunJobs(w, s, Oldest(s.queue, batch), 2 * |Oldest(s.queue, batch)|)
    ensures var jobs := Oldest(s.queue, batch);
            s'.queue == Failing(w, jobs) + s.queue[|jobs|..]
            && |s'.queue| == |s.queue| - |jobs| + Tally(w, jobs).failed
            && Failing(w, s'.queue) == Failing(w, s.queue)
            && |Failing(w, jobs)| <= |Failing(w, s.queue)| <= |s.queue|
    ensures Healed(w, s') == Healed(w, s) && DistinctJobs(s'.queue)
  {
    hide RunJobs, FateOf;
    var jobs := Oldest(s.queue, batch);
    var tail := s.queue[|jobs|..];
    assert s.queue == jobs + tail;
    assert s.queue == Failing(w, []) + jobs + tail;
    PassKeepsHealed(w, s, jobs, 2 * |jobs|);
    FullPass(w, s, [], jobs, tail, 2 * |jobs|);
    assert [] + jobs == jobs;
    TallyCounts(w, jobs);
    TallyCounts(w, s.queue);
    FailingSplits(w, jobs, tail);
  }

  lemma {:induction false} FailingSplits(w: World, a: seq<Job>, b: seq<Job>)
    ensures Failing(w, a + b) == Failing(w, a) + Failing(w, b)
  {
    assert Failing(w, []) == [];
    hide FateOf, Failing;
    if b == [] {
      assert a + b == a;
    } else {
      var n := |b| - 1;
      FailingSplits(w, a, b[..n]);
      FailingOneMore(w, a + b[..n], b[n]);
      FailingOneMore(w, b[..n], b[n]);
      assert a + b == (a + b[..n]) + [b[n]] && b == b[..n] + [b[n]];
      JoinLast(Failing(w, a), Failing(w, b[..n]), b[n]);
    }
  }

  lemma JoinLast(f: seq<Job>, g: seq<Job>, j: Job)
    ensures f + (g + [j]) == (f + g) + [j]
  {
  }

  const BATCH := 16

  ghost predicate AllFail(w: World, jobs: seq<Job>) {
    forall j <- jobs :: FateOf(w, j.key) == Fail
  }

  class Worker {
    var queue: seq<Job>
    var vectors: map<Key, Vector>

    ghost function State(): Store
      reads this
    {
      Store(queue, vectors)
    }

    method ProcessEmbedJob(w: World, job: Job) returns (fate: Fate)
      modifies this
      ensures fate == FateOf(w, job.key)
      ensures State() == RunJobs(w, old(State()), [job], 2)
    {
      var source := w.source(job.key);
      if source == Foreign { return Fail; }
      if source == Missing || (w.hygiene && source.denied) {
        if !w.hygiene { return Fail; }
        queue := Without(queue, job.id);
        return Skip;
      }
      var embedded := w.embed(source.text);
      if embedded == Error { return Fail; }
      vectors := Insert(w, vectors, job.key, embedded.value);
      queue := Without(queue, job.id);
      return Embed(embedded.value);
    }

    method DrainPendingEmbeddings(w: World, batch: nat) returns (report: Report)
      modifies this
      ensures report == Tally(w, Oldest(old(queue), batch))
      ensures var jobs := Oldest(old(queue), batch);
              State() == RunJobs(w, old(State()), jobs, 2 * |jobs|)
    {
      hide FateOf, Without;
      var jobs := if batch <= |queue| then queue[..batch] else queue;
      report := Report(|jobs|, 0, 0, 0);
      ghost var goal := RunJobs(w, State(), jobs, 2 * |jobs|);
      var i := 0;
      while i < |jobs|
        invariant 0 <= i <= |jobs|
        invariant report == Tally(w, jobs[..i]).(found := |jobs|)
        invariant RunJobs(w, State(), jobs[i..], 2 * |jobs[i..]|) == goal
      {
        ghost var s := State();
        var fate := ProcessEmbedJob(w, jobs[i]);
        match fate {
          case Embed(_) => report := report.(embedded := report.embedded + 1);
          case Skip => report := report.(skipped := report.skipped + 1);
          case Fail => report := report.(failed := report.failed + 1);
        }
        assert jobs[..i + 1][..i] == jobs[..i];
        OneJob(w, s, State(), jobs[i..]);
        assert jobs[i..][1..] == jobs[i + 1..];
        i := i + 1;
      }
      assert jobs[..i] == jobs;
      TallyCounts(w, jobs);
    }

    /** Enqueue the targets found without a vector (`unembedded`), then drain within the budget. The
        enqueue query refuses a negative limit. */
    method EmbedBackfill(w: World, unembedded: seq<Job>, limit: int)
      returns (ok: bool, healed: nat, embedded: nat, failed: nat)
      requires !w.hygiene && DistinctJobs(queue + unembedded)
      modifies this
      ensures ok <==> limit >= 0
      ensures !ok ==> State() == old(State()) && healed == embedded == failed == 0
      ensures ok ==> healed == |unembedded| && embedded + failed <= limit
      ensures ok ==> |queue| == |old(queue) + unembedded| - embedded
      ensures ok ==> Healed(w, State()) == Healed(w, Store(old(queue) + unembedded, old(vectors)))
      ensures ok ==>
        (embedded == 0
         <==> limit == 0 || AllFail(w, Oldest(old(queue) + unembedded, if limit < 16 then limit else 16)))
      ensures var all := old(queue) + unembedded;
              limit >= 16 * (|all| - |Failing(w, all)|) ==>
                (State() == Healed(w, Store(all, old(vectors))) <==> Ahead(w, all) < 16)
    {
      hide FateOf, Without, RunJobs, Healed, Tally, Failing, Oldest, DistinctJobs, AllFail, Ahead;
      TallyCounts(w, queue + unembedded);
      if limit < 0 {
        return false, 0, 0, 0;
      }
      queue := queue + unembedded;
      ok, healed, embedded, failed := true, |unembedded|, 0, 0;
      ghost var start := State();
      ghost var hopeless := |Failing(w, queue)|;
      ghost var ample := limit >= BATCH * (|queue| - hopeless);
      var budget := limit;
      while budget > 0
        invariant 0 <= budget <= limit && embedded + failed <= limit - budget
        invariant hopeless <= |queue| == |start.queue| - embedded && DistinctJobs(queue)
        invariant Healed(w, State()) == Healed(w, start) && |Failing(w, queue)| == hopeless
        invariant embedded == 0 ==> State() == start && budget == limit
        invariant embedded > 0 ==> limit > 0 && !AllFail(w, Oldest(start.queue, if limit < BATCH then limit else BATCH))
        invariant ample ==> budget >= BATCH * (|queue| - hopeless)
        invariant Ahead(w, queue) <= Ahead(w, start.queue)
        invariant Ahead(w, start.queue) >= BATCH ==> Ahead(w, queue) >= BATCH
        decreases budget
      {
        var take := if budget < BATCH then budget else BATCH;
        ghost var before := State();
        var report := DrainPendingEmbeddings(w, take);
        BatchDone(w, before, take, State(), report);
        BatchKeepsAhead(w, before, take, State());
        if report.found == 0 { break; }
        if ample && Ahead(w, start.queue) < BATCH && report.embedded == 0 {
          NothingLeft(w, before, budget);
        }
        embedded := embedded + report.embedded;
        failed := failed + report.failed;
        budget := budget - report.found;
        if report.embedded == 0 { break; }
      }
      if ample && Ahead(w, start.queue) < BATCH {
        AllHopeless(w, State());
      }
      if Ahead(w, start.queue) >= BATCH {
        NotHealed(w, start, State());
      }
    }
  }

  // ----- what a backfill can reach -----

  /** How many failing jobs stand ahead of the last job that can be embedded. */
  function Ahead(w: World, queue: seq<Job>): nat {
    if queue == [] then 0
    else if FateOf(w, queue[|queue| - 1].key) == Fail then Ahead(w, queue[..|queue| - 1])
    else |Failing(w, queue[..|queue| - 1])|
  }

  lemma {:induction false} AheadBound(w: World, queue: seq<Job>)
    ensures Ahead(w, queue) <= |Failing(w, queue)| <= |queue|
    ensures Ahead(w, queue) > 0 ==> |Failing(w, queue)| < |queue|
    ensures AllFail(w, queue) ==> Ahead(w, queue) == 0
  {
    hide FateOf, Failing;
    TallyCounts(w, queue);
    if queue != [] {
      var n := |queue| - 1;
      AheadBound(w, queue[..n]);
      TallyCounts(w, queue[..n]);
      FailingOneMore(w, queue[..n], queue[n]);
      assert queue == queue[..n] + [queue[n]];
    } else {
      NoneFailing(w);
    }
  }

  lemma NoneFailing(w: World)
    ensures Failing(w, []) == []
  {
  }

  lemma {:induction false} AheadSplits(w: World, a: seq<Job>, b: seq<Job>)
    ensures Ahead(w, a + b) == if AllFail(w, b) then Ahead(w, a) else |Failing(w, a)| + Ahead(w, b)
  {
    hide FateOf, Failing;
    if b == [] {
      assert a + b == a;
    } else {
      var n := |b| - 1;
      AheadSplits(w, a, b[..n]);
      FailingSplits(w, a, b[..n]);
      assert (a + b)[..|a + b| - 1] == a + b[..n];
      assert b == b[..n] + [b[n]];
    }
  }

  /** A batch does not add to the failing jobs in the way, and cannot get past a batch of them. */
  lemma BatchKeepsAhead(w: World, s: Store, take: nat, s': Store)
    requires DistinctJobs(s.queue) && take <= BATCH
    requires s' == RunJobs(w, s, Oldest(s.queue, take), 2 * |Oldest(s.queue, take)|)
    ensures Ahead(w, s'.queue) <= Ahead(w, s.queue)
    ensures Ahead(w, s.queue) >= BATCH ==> Ahead(w, s'.queue) >= BATCH
  {
    hide RunJobs, FateOf, Failing, Ahead, AllFail;
    TickThatLives(w, s, take, s');
    var jobs := Oldest(s.queue, take);
    var tail := s.queue[|jobs|..];
    assert s.queue == jobs + tail;
    FailingOnly(w, jobs);
    FailingIsIdempotent(w, jobs);
    AheadSplits(w, jobs, tail);
    AheadSplits(w, Failing(w, jobs), tail);
    AheadBound(w, jobs);
    AheadBound(w, Failing(w, jobs));
  }

  lemma FailingOnly(w: World, queue: seq<Job>)
    ensures AllFail(w, Failing(w, queue))
  {
    FailingFails(w, queue);
  }

  /** As long as a batch of failing jobs stands ahead of one that can be embedded, that one waits. */
  lemma NotHealed(w: World, start: Store, s: Store)
    requires Healed(w, s) == Healed(w, start) && Ahead(w, s.queue) >= BATCH
    ensures s != Healed(w, start)
  {
    hide FateOf, Ahead;
    AheadBound(w, s.queue);
  }

  /** What the backfill needs to know of one batch. */
  lemma BatchDone(w: World, s: Store, take: nat, s': Store, report: Report)
    requires DistinctJobs(s.queue) && !w.hygiene && take > 0
    requires report == Tally(w, Oldest(s.queue, take))
    requires s' == RunJobs(w, s, Oldest(s.queue, take), 2 * |Oldest(s.queue, take)|)
    ensures report.found == report.embedded + report.failed <= take
    ensures |s'.queue| == |s.queue| - report.embedded
    ensures DistinctJobs(s'.queue) && Healed(w, s') == Healed(w, s) && |Failing(w, s'.queue)| == |Failing(w, s.queue)|
    ensures report.embedded == 0 <==> AllFail(w, Oldest(s.queue, take))
    ensures report.found == 0 ==> |s.queue| == |Failing(w, s.queue)| == 0
    ensures |Failing(w, s'.queue)| <= |s'.queue|
  {
    hide FateOf, RunJobs, Healed, Tally, Failing, DistinctJobs, AllFail;
    TallyCounts(w, s'.queue);
    TickThatLives(w, s, take, s');
    TallyCounts(w, Oldest(s.queue, take));
  }

  lemma AllHopeless(w: World, s: Store)
    requires |Failing(w, s.queue)| == |s.queue|
    ensures Healed(w, s) == s
  {
    TallyCounts(w, s.queue);
    AllFailStay(w, s.queue);
    HealedIsFixed(w, s, s);
  }

  lemma {:induction false} AllFailStay(w: World, queue: seq<Job>)
    requires AllFail(w, queue)
    ensures Failing(w, queue) == queue
  {
    hide FateOf;
    if queue != [] {
      AllFailStay(w, queue[..|queue| - 1]);
    }
  }

  /** With less than a batch of failing jobs in the way and budget for a batch, a batch without a
      success means that nothing but failing jobs is left. */
  lemma NothingLeft(w: World, s: Store, budget: nat)
    requires !w.hygiene && budget > 0
    requires Ahead(w, s.queue) < BATCH && budget >= BATCH * (|s.queue| - |Failing(w, s.queue)|)
    requires Tally(w, Oldest(s.queue, if budget < BATCH then budget else BATCH)).embedded == 0
    ensures |Failing(w, s.queue)| == |s.queue|
  {
    hide FateOf, Tally, Failing, AllFail, Ahead;
    var jobs := Oldest(s.queue, if budget < BATCH then budget else BATCH);
    var tail := s.queue[|jobs|..];
    TallyCounts(w, s.queue);
    TallyCounts(w, jobs);
    TallyCounts(w, tail);
    assert s.queue == jobs + tail;
    FailingSplits(w, jobs, tail);
    AheadSplits(w, jobs, tail);
    NoneLeft(w, tail);
  }

  lemma NoneLeft(w: World, queue: seq<Job>)
    ensures AllFail(w, queue) ==> |Failing(w, queue)| == |queue|
    ensures queue == [] ==> AllFail(w, queue)
  {
    TallyCounts(w, queue);
  }

  lemma OneJob(w: World, s: Store, s': Store, jobs: seq<Job>)
    requires jobs != [] && s' == RunJobs(w, s, [jobs[0]], 2)
    ensures RunJobs(w, s', jobs[1..], 2 * |jobs[1..]|) == RunJobs(w, s, jobs, 2 * |jobs|)
  {
    hide FateOf, Without;
    var rest := jobs[1..];
    assert [jobs[0]][1..] == [];
    forall s: Store, k: nat ensures RunJobs(w, s, [], k) == s {}
    StepsToSpare(w, s', rest, 2 * |rest|, 2 * |rest| + 1);
    StepsToSpare(w, s', rest, 2 * |rest|, 2 * |rest| + 2);
  }
}
