/** The table of attempt counters on file: pruning by age, by what is still pending, and by number. */
module AttemptTable {
  import opened TelegramWindows
  import opened TelegramProducer
  import opened TelegramLiveness

  const ATTEMPT_MAX_AGE_MS := 604_800_000
  const ATTEMPT_HARD_CAP := 1000

  /** A counter and the instant of its last failure, if that can be read. */
  datatype AttemptEntry = AttemptEntry(count: nat, lastFailed: SortTime)

  type Table = map<AttemptKey, AttemptEntry>

  datatype Pending = Anything | Only(keys: set<AttemptKey>)

  predicate Aged(e: AttemptEntry, now: int) {
    e.lastFailed.Time? && now - e.lastFailed.ms > ATTEMPT_MAX_AGE_MS
  }

  predicate Stays(k: AttemptKey, e: AttemptEntry, pending: Pending, now: int) {
    !Aged(e, now) && (pending.Only? ==> k in pending.keys)
  }

  /** The counters neither too old nor of windows that are no longer pending. */
  function Survivors(t: Table, pending: Pending, now: int): Table {
    map k <- t | Stays(k, t[k], pending, now) :: t[k]
  }

  /** An unreadable instant counts as the epoch. */
  function When(e: AttemptEntry): int {
    match e.lastFailed case Time(ms) => ms case NoTime => 0
  }

  ghost predicate OldestFirst(t: Table, keys: seq<AttemptKey>) {
    (forall k <- keys :: k in t) && forall i, j :: 0 <= i < j < |keys| ==> When(t[keys[i]]) <= When(t[keys[j]])
  }

  function Place(t: Table, keys: seq<AttemptKey>, k: AttemptKey): (r: seq<AttemptKey>)
    requires k in t && forall x <- keys :: x in t
    ensures multiset(r) == multiset(keys) + multiset{k} && forall x <- r :: x in t
  {
    if keys == [] || When(t[k]) < When(t[keys[0]]) then [k] + keys
    else
      assert keys == [keys[0]] + keys[1..];
      [keys[0]] + Place(t, keys[1..], k)
  }

  lemma {:induction false} PlaceKeepsOrder(t: Table, keys: seq<AttemptKey>, k: AttemptKey)
    requires k in t && OldestFirst(t, keys)
    ensures OldestFirst(t, Place(t, keys, k))
  {
    hide When;
    if keys != [] && When(t[k]) >= When(t[keys[0]]) {
      PlaceKeepsOrder(t, keys[1..], k);
      var r := Place(t, keys[1..], k);
      forall j | 0 <= j < |r| ensures When(t[keys[0]]) <= When(t[r[j]]) {
        assert r[j] in multiset(keys[1..]) + multiset{k};
        assert r[j] in keys[1..] || r[j] == k;
      }
    }
  }

  ghost function Members(keys: seq<AttemptKey>): set<AttemptKey> {
    set k <- keys
  }

  /** A part of a table with nothing older in it than what was dropped. */
  ghost predicate KeepsNewest(t: Table, r: Table) {
    (forall k <- r :: k in t && r[k] == t[k]) && forall k <- r, d <- t :: d !in r ==> When(t[d]) <= When(t[k])
  }

  /** What a pruning may leave: all survivors if they are few enough, else the newest, as many as the cap allows. */
  ghost predicate Pruned(t: Table, pending: Pending, now: int, r: Table) {
    var s := Survivors(t, pending, now);
    if |s| <= ATTEMPT_HARD_CAP then r == s else |r| == ATTEMPT_HARD_CAP && KeepsNewest(s, r)
  }

  class Attempts {
    var entries: Table

    /** `pruneAttemptState`. */
    method Prune(pending: Pending, now: int) returns (changed: bool)
      modifies this
      ensures Pruned(old(entries), pending, now, entries)
      ensures changed <==> entries != old(entries)
    {
      hide Stays, Survivors, KeepsNewest;
      changed := DropStale(pending, now);
      if |entries| > ATTEMPT_HARD_CAP {
        DropOldest();
        changed := true;
      }
    }

    method DropStale(pending: Pending, now: int) returns (changed: bool)
      modifies this
      ensures entries == Survivors(old(entries), pending, now)
      ensures changed <==> entries != old(entries)
      ensures |entries| <= |old(entries)|
    {
      hide Stays, Survivors;
      ghost var was := entries;
      changed := false;
      var todo := entries.Keys;
      while todo != {}
        invariant todo <= entries.Keys <= was.Keys
        invariant forall k <- was :: k in entries <==> k in todo || Stays(k, was[k], pending, now)
        invariant forall k <- entries :: entries[k] == was[k]
        invariant if changed then |entries| < |was| else entries == was
        decreases |todo|
      {
        var k: AttemptKey :| k in todo;
        if !Stays(k, entries[k], pending, now) {
          WithoutOne(entries, k);
          entries := entries - {k};
          changed := true;
        }
        todo := todo - {k};
      }
      SurvivorsAre(was, entries, pending, now);
    }

    method DropOldest()
      requires |entries| > ATTEMPT_HARD_CAP
      modifies this
      ensures |entries| == ATTEMPT_HARD_CAP
      ensures KeepsNewest(old(entries), entries)
    {
      assert Members([]) == {};
      hide When, Members, OldestFirst, KeepsNewest;
      ghost var s := entries;
      var sorted := SortedKeys();
      var i := 0;
      assert sorted[..0] == [];
      while i < |sorted| - ATTEMPT_HARD_CAP
        invariant 0 <= i <= |sorted| - ATTEMPT_HARD_CAP
        invariant entries == s - Members(sorted[..i])
        invariant |entries| == |sorted| - i
      {
        OneMoreDropped(s, sorted, i, entries);
        entries := entries - {sorted[i]};
        i := i + 1;
      }
      DroppedAreOlder(s, sorted, i, entries);
    }

    /** The keys of the table, oldest failure first. */
    method SortedKeys() returns (sorted: seq<AttemptKey>)
      ensures OldestFirst(entries, sorted) && |sorted| == |entries|
      ensures Members(sorted) == entries.Keys
      ensures forall i, j :: 0 <= i < j < |sorted| ==> sorted[i] != sorted[j]
    {
      assert Members([]) == {} && OldestFirst(entries, []);
      hide Members, Place, When, OldestFirst;
      sorted := [];
      var todo := entries.Keys;
      while todo != {}
        invariant todo <= entries.Keys && OldestFirst(entries, sorted)
        invariant Members(sorted) == entries.Keys - todo
        invariant |sorted| + |todo| == |entries.Keys|
        decreases |todo|
      {
        var k: AttemptKey :| k in todo;
        KeysInTable(entries, sorted);
        PlaceKeepsOrder(entries, sorted, k);
        PlaceAdds(entries, sorted, k);
        sorted := Place(entries, sorted, k);
        todo := todo - {k};
      }
      AsManyAsDistinct(sorted);
    }
  }

  lemma SurvivorsAre(t: Table, r: Table, pending: Pending, now: int)
    requires forall k <- r :: k in t && r[k] == t[k]
    requires forall k <- t :: k in r <==> Stays(k, t[k], pending, now)
    ensures r == Survivors(t, pending, now)
  {
    hide Stays;
  }

  lemma KeysInTable(t: Table, keys: seq<AttemptKey>)
    requires OldestFirst(t, keys)
    ensures forall k <- keys :: k in t
  {
  }

  lemma PlaceAdds(t: Table, keys: seq<AttemptKey>, k: AttemptKey)
    requires k in t && OldestFirst(t, keys)
    ensures Members(Place(t, keys, k)) == Members(keys) + {k} && |Place(t, keys, k)| == |keys| + 1
  {
    hide Place;
    var r := Place(t, keys, k);
    forall x ensures x in r <==> x in keys || x == k {
      assert x in multiset(r) <==> x in multiset(keys) + multiset{k};
    }
    assert |r| == |multiset(r)|;
  }

  lemma WithoutOne(t: Table, k: AttemptKey)
    requires k in t
    ensures |t - {k}| == |t| - 1
  {
    assert (t - {k}).Keys == t.Keys - {k};
  }

  lemma LastMember(keys: seq<AttemptKey>)
    requires keys != []
    ensures var (init, k) := (keys[..|keys| - 1], keys[|keys| - 1]);
            && Members(keys) == Members(init) + {k}
            && (k !in Members(init) ==> forall i :: 0 <= i < |init| ==> keys[i] != k)
  {
    var (init, k) := (keys[..|keys| - 1], keys[|keys| - 1]);
    assert keys == init + [k];
    assert forall i :: 0 <= i < |init| ==> keys[i] == init[i] && init[i] in Members(init);
  }

  /** A list that has as many members as places has no repeats. */
  lemma {:induction false} AsManyAsDistinct(keys: seq<AttemptKey>)
    ensures |Members(keys)| <= |keys|
    ensures |Members(keys)| == |keys| ==> forall i, j :: 0 <= i < j < |keys| ==> keys[i] != keys[j]
  {
    if keys != [] {
      LastMember(keys);
      AsManyAsDistinct(keys[..|keys| - 1]);
      hide Members;
    }
  }

  lemma OneMoreMember(keys: seq<AttemptKey>, i: nat)
    requires i < |keys| && forall i, j :: 0 <= i < j < |keys| ==> keys[i] != keys[j]
    ensures keys[i] in Members(keys) && keys[i] !in Members(keys[..i])
    ensures Members(keys[..i + 1]) == Members(keys[..i]) + {keys[i]}
  {
  }

  lemma OneMoreDropped(t: Table, sorted: seq<AttemptKey>, i: nat, r: Table)
    requires i < |sorted| && Members(sorted) == t.Keys && r == t - Members(sorted[..i])
    requires forall i, j :: 0 <= i < j < |sorted| ==> sorted[i] != sorted[j]
    ensures r - {sorted[i]} == t - Members(sorted[..i + 1]) && |r - {sorted[i]}| == |r| - 1
  {
    OneMoreMember(sorted, i);
    hide Members;
    WithoutOne(r, sorted[i]);
  }

  lemma DroppedAreOlder(t: Table, sorted: seq<AttemptKey>, i: nat, r: Table)
    requires i <= |sorted| && OldestFirst(t, sorted) && Members(sorted) == t.Keys
    requires r == t - Members(sorted[..i])
    ensures KeepsNewest(t, r)
  {
    hide When;
    forall k <- r, d <- t | d !in r ensures When(t[d]) <= When(t[k]) {
      assert k in Members(sorted) && d in Members(sorted[..i]);
      assert forall q :: 0 <= q < i ==> sorted[..i][q] == sorted[q];
      assert forall q :: 0 <= q < i ==> sorted[q] in Members(sorted[..i]);
      var p :| 0 <= p < i && sorted[p] == d;
      var q :| 0 <= q < |sorted| && sorted[q] == k;
    }
  }

  function Counts(t: Table): map<AttemptKey, nat> {
    map k <- t :: t[k].count
  }

  /** What a pruning does, in numbers: nothing left is over a week old or outside the pending set, there are at
      most a thousand counters, each as it was, and what is gone was one or the other, or was no newer than any
      of the thousand that are left. */
  lemma PruneDecides(t: Table, pending: Pending, now: int, r: Table)
    requires Pruned(t, pending, now, r)
    ensures |r| <= 1000
    ensures forall k <- r :: && k in t && r[k] == t[k]
                             && (t[k].lastFailed.Time? ==> now - t[k].lastFailed.ms <= 604_800_000)
                             && (pending.Only? ==> k in pending.keys)
    ensures forall k <- t ::
              || k in r
              || (t[k].lastFailed.Time? && now - t[k].lastFailed.ms > 604_800_000)
              || (pending.Only? && k !in pending.keys)
              || (|r| == 1000
                  && forall l <- r :: (match t[k].lastFailed case Time(ms) => ms case NoTime => 0)
                                      <= match r[l].lastFailed case Time(ms) => ms case NoTime => 0)
  {
  }

  /** Of a table with no counter older than a week and at most a thousand pending ones, a run's pruning
      keeps exactly the pending counters; those include every key a window of the batch can fail under. */
  lemma PruneKeepsPending(s: State, t: Table, ws: seq<Window>, now: int, r: Table)
    requires s.attempts == Counts(t)
    requires forall k <- t :: !Aged(t[k], now)
    requires |Survivors(t, Only(AllPendingKeys(ws)), now)| <= ATTEMPT_HARD_CAP
    requires Pruned(t, Only(AllPendingKeys(ws)), now, r)
    ensures s.(attempts := Counts(r)) == PruneTo(s, AllPendingKeys(ws))
    ensures forall w <- ws, k <- PendingKeys(w, 0) :: k in t ==> k in r && r[k] == t[k]
  {
    hide AllPendingKeys, PendingKeys;
    AllWindowsPending(ws);
    assert Counts(r) == PruneTo(s, AllPendingKeys(ws)).attempts;
  }

  /** Recording and deleting a counter prunes without a pending set: nothing but age and number count. */
  lemma PlainPruneKeepsAll(t: Table, now: int, r: Table)
    requires (forall k <- t :: !Aged(t[k], now)) && |t| <= ATTEMPT_HARD_CAP
    requires Pruned(t, Anything, now, r)
    ensures r == t
  {
    assert Survivors(t, Anything, now) == t;
  }
}
