/** Fusing several rankings into one (reciprocal rank fusion) and the recency boost applied to the
    fused list, over exact reals. Instants are nanoseconds; `0.5^x` is a parameter, of which only the
    addition law and positivity are used. */
module Search {
  import opened Common

  type Id = nat

  datatype Thought = Thought(id: Id, createdAt: int)

  datatype Hit = Hit(thought: Thought, vector: Option<real>, lexical: Option<real>,
                     trigram: Option<real>, rrf: Option<real>, rerank: Option<real>, chunk: Option<nat>)

  function Key(h: Hit): real {
    match h.rrf
    case Some(s) => s
    case None => 0.0
  }

  // ----- the library's stable sort by descending score -----

  ghost predicate Descending(s: seq<Hit>) {
    forall i, j :: 0 <= i < j < |s| ==> Key(s[i]) >= Key(s[j])
  }

  /** Behind every hit of at least the same score: equal scores keep their order. */
  function Insert(s: seq<Hit>, h: Hit): seq<Hit> {
    if s == [] || Key(s[0]) < Key(h) then [h] + s else [s[0]] + Insert(s[1..], h)
  }

  function SortByScore(s: seq<Hit>): seq<Hit> {
    if s == [] then [] else Insert(SortByScore(s[..|s| - 1]), s[|s| - 1])
  }

  lemma {:induction false} InsertAdds(s: seq<Hit>, h: Hit)
    ensures multiset(Insert(s, h)) == multiset(s) + multiset{h} && |Insert(s, h)| == |s| + 1
  {
    hide Key;
    if s != [] {
      InsertAdds(s[1..], h);
      assert s == [s[0]] + s[1..];
    }
  }

  lemma {:induction false} InsertIsSorted(s: seq<Hit>, h: Hit)
    requires Descending(s)
    ensures Descending(Insert(s, h))
  {
    hide Key;
    if s != [] && Key(s[0]) >= Key(h) {
      InsertIsSorted(s[1..], h);
      InsertAdds(s[1..], h);
      var r := Insert(s[1..], h);
      forall j | 0 <= j < |r| ensures Key(s[0]) >= Key(r[j]) {
        assert r[j] in multiset(s[1..]) + multiset{h};
        assert r[j] in s[1..] || r[j] == h;
      }
    }
  }

  lemma {:induction false} SortIsSorted(s: seq<Hit>)
    ensures Descending(SortByScore(s)) && multiset(SortByScore(s)) == multiset(s)
    ensures |SortByScore(s)| == |s|
  {
    if s != [] {
      SortIsSorted(s[..|s| - 1]);
      InsertIsSorted(SortByScore(s[..|s| - 1]), s[|s| - 1]);
      InsertAdds(SortByScore(s[..|s| - 1]), s[|s| - 1]);
      assert s == s[..|s| - 1] + [s[|s| - 1]];
    }
  }

  /** The hits of one score, in their order. */
  function OfScore(s: seq<Hit>, x: real): seq<Hit> {
    if s == [] then [] else (if Key(s[0]) == x then [s[0]] else []) + OfScore(s[1..], x)
  }

  lemma OfScoreFront(h: Hit, rest: seq<Hit>, x: real)
    ensures OfScore([h] + rest, x) == (if Key(h) == x then [h] else []) + OfScore(rest, x)
    ensures OfScore([], x) == []
  {
    assert ([h] + rest)[1..] == rest;
  }

  lemma {:induction false} OfScoreSnoc(s: seq<Hit>, h: Hit, x: real)
    ensures OfScore(s + [h], x) == OfScore(s, x) + if Key(h) == x then [h] else []
  {
    hide Key, OfScore;
    OfScoreFront(h, [], x);
    if s == [] {
      assert [] + [h] == [h] + [];
    } else {
      var (f, rest) := (s[0], s[1..]);
      OfScoreSnoc(rest, h, x);
      OfScoreFront(f, rest + [h], x);
      OfScoreFront(f, rest, x);
      assert s == [f] + rest && s + [h] == [f] + (rest + [h]);
    }
  }

  lemma {:induction false} NoneOfScore(s: seq<Hit>, x: real)
    requires forall h <- s :: Key(h) != x
    ensures OfScore(s, x) == []
  {
    hide Key;
    if s != [] {
      NoneOfScore(s[1..], x);
    }
  }

  lemma {:induction false} InsertIsStable(s: seq<Hit>, h: Hit, x: real)
    requires Descending(s)
    ensures OfScore(Insert(s, h), x) == OfScore(s, x) + if Key(h) == x then [h] else []
  {
    assert Insert(s, h) == if s == [] || Key(s[0]) < Key(h) then [h] + s else [s[0]] + Insert(s[1..], h);
    hide Key, Insert, OfScore;
    if s == [] || Key(s[0]) < Key(h) {
      OfScoreFront(h, s, x);
      if Key(h) == x {
        NoneOfScore(s, x);
      }
    } else {
      InsertIsStable(s[1..], h, x);
      OfScoreFront(s[0], Insert(s[1..], h), x);
      OfScoreFront(s[0], s[1..], x);
      assert s == [s[0]] + s[1..];
    }
  }

  /** Sorting keeps hits of equal score in the order in which they came. */
  lemma {:induction false} SortIsStable(s: seq<Hit>, x: real)
    ensures OfScore(SortByScore(s), x) == OfScore(s, x)
  {
    hide Key, Insert, OfScore, Descending;
    if s != [] {
      var (init, h) := (s[..|s| - 1], s[|s| - 1]);
      SortIsStable(init, x);
      SortIsSorted(init);
      InsertIsStable(SortByScore(init), h, x);
      OfScoreSnoc(init, h, x);
      assert s == init + [h];
    }
  }

  // ----- what fusion is to compute -----

  /** What one place in a ranking is worth to a thought. */
  function Share(hit: Hit, rank: nat, id: Id, k: real): (r: real)
    requires k > -1.0 && rank > 0
    ensures r >= 0.0
  {
    if hit.thought.id == id then 1.0 / (k + rank as real) else 0.0
  }

  /** One ranking's contribution to a thought: 1/(k + rank) for each place, counted from 1, it holds. */
  function RankScore(ranking: seq<Hit>, id: Id, k: real): (r: real)
    requires k > -1.0
    ensures r >= 0.0
  {
    if ranking == [] then 0.0
    else
      var n := |ranking|;
      RankScore(ranking[..n - 1], id, k) + Share(ranking[n - 1], n, id, k)
  }

  function Score(rankings: seq<seq<Hit>>, id: Id, k: real): (r: real)
    requires k > -1.0
    ensures r >= 0.0
  {
    if rankings == [] then 0.0
    else Score(rankings[..|rankings| - 1], id, k) + RankScore(rankings[|rankings| - 1], id, k)
  }

  /** Every hit handed in, ranking after ranking. */
  function Flat(rankings: seq<seq<Hit>>): seq<Hit> {
    if rankings == [] then [] else Flat(rankings[..|rankings| - 1]) + rankings[|rankings| - 1]
  }

  function Ids(hits: seq<Hit>): set<Id> {
    set h <- hits :: h.thought.id
  }

  ghost predicate DistinctIds(hits: seq<Hit>) {
    forall i, j :: 0 <= i < j < |hits| ==> hits[i].thought.id != hits[j].thought.id
  }

  function OrElse<T>(a: Option<T>, b: Option<T>): Option<T> {
    if a.Some? then a else b
  }

  /** The hit of thought `id` as the inputs describe it: the thought of its first occurrence and, leg
      by leg, the first value present in input order. */
  function Merged(hits: seq<Hit>, id: Id): Hit
    requires id in Ids(hits)
  {
    var n := |hits| - 1;
    var (before, last) := (hits[..n], hits[n]);
    if id !in Ids(before) then
      assert last.thought.id == id by { assert hits == before + [last]; }
      last.(rrf := None, rerank := None)
    else if last.thought.id != id then Merged(before, id)
    else
      var m := Merged(before, id);
      m.(vector := OrElse(m.vector, last.vector), lexical := OrElse(m.lexical, last.lexical),
         trigram := OrElse(m.trigram, last.trigram), chunk := OrElse(m.chunk, last.chunk))
  }

  /** `leg` read from the first occurrence of the thought that carries it. */
  ghost predicate FirstPresent<T(!new)>(hits: seq<Hit>, id: Id, leg: Hit -> Option<T>, v: Option<T>) {
    match v
    case None => forall h <- hits :: h.thought.id == id ==> leg(h) == None
    case Some(_) =>
      exists i :: 0 <= i < |hits| && hits[i].thought.id == id && leg(hits[i]) == v
        && forall j :: 0 <= j < i && hits[j].thought.id == id ==> leg(hits[j]) == None
  }

  lemma FirstPresentGrows<T(!new)>(hits: seq<Hit>, last: Hit, id: Id, leg: Hit -> Option<T>, v: Option<T>)
    requires FirstPresent(hits, id, leg, v)
    ensures FirstPresent(hits + [last], id, leg, if last.thought.id == id then OrElse(v, leg(last)) else v)
  {
    var all := hits + [last];
    assert forall i :: 0 <= i < |hits| ==> all[i] == hits[i];
    if v == None && last.thought.id == id && leg(last).Some? {
      assert all[|hits|] == last;
      forall j | 0 <= j < |hits| && all[j].thought.id == id ensures leg(all[j]) == None {
        assert hits[j] in hits;
      }
    }
  }

  /** The thought as its first occurrence has it. */
  ghost predicate IsFirst(hits: seq<Hit>, id: Id, t: Thought) {
    exists i :: 0 <= i < |hits| && hits[i].thought == t && forall j :: 0 <= j < i ==> hits[j].thought.id != id
  }

  lemma {:induction false} MergedIsFirst(hits: seq<Hit>, id: Id)
    requires id in Ids(hits)
    ensures IsFirst(hits, id, Merged(hits, id).thought) && Merged(hits, id).rerank == None
  {
    var n := |hits| - 1;
    var (before, last) := (hits[..n], hits[n]);
    assert hits == before + [last];
    if id in Ids(before) {
      MergedIsFirst(before, id);
      var i :| 0 <= i < n && before[i].thought == Merged(before, id).thought
               && forall j :: 0 <= j < i ==> before[j].thought.id != id;
      assert hits[i] == before[i];
    } else {
      assert forall j :: 0 <= j < n ==> hits[j] in before && hits[j].thought.id in Ids(before);
      assert hits[n].thought == Merged(hits, id).thought;
    }
  }

  lemma {:induction false} MergedTakesFirstPresent(hits: seq<Hit>, id: Id)
    requires id in Ids(hits)
    ensures Merged(hits, id).thought.id == id && Merged(hits, id).rerank == None
    ensures IsFirst(hits, id, Merged(hits, id).thought)
    ensures FirstPresent(hits, id, (h: Hit) => h.vector, Merged(hits, id).vector)
    ensures FirstPresent(hits, id, (h: Hit) => h.lexical, Merged(hits, id).lexical)
    ensures FirstPresent(hits, id, (h: Hit) => h.trigram, Merged(hits, id).trigram)
    ensures FirstPresent(hits, id, (h: Hit) => h.chunk, Merged(hits, id).chunk)
  {
    MergedIsFirst(hits, id);
    hide IsFirst;
    var n := |hits| - 1;
    var (before, last) := (hits[..n], hits[n]);
    assert hits == before + [last];
    if id in Ids(before) {
      MergedTakesFirstPresent(before, id);
      var m := Merged(before, id);
      FirstPresentGrows(before, last, id, (h: Hit) => h.vector, m.vector);
      FirstPresentGrows(before, last, id, (h: Hit) => h.lexical, m.lexical);
      FirstPresentGrows(before, last, id, (h: Hit) => h.trigram, m.trigram);
      FirstPresentGrows(before, last, id, (h: Hit) => h.chunk, m.chunk);
    } else {
      assert forall h <- before :: h.thought.id in Ids(before);
      FirstPresentGrows(before, last, id, (h: Hit) => h.vector, None);
      FirstPresentGrows(before, last, id, (h: Hit) => h.lexical, None);
      FirstPresentGrows(before, last, id, (h: Hit) => h.trigram, None);
      FirstPresentGrows(before, last, id, (h: Hit) => h.chunk, None);
    }
  }

  /** A list of hits is a fusion of the rankings: every thought that was ranked, once, with its score
      and its merged legs, best first. */
  ghost predicate IsFusion(rankings: seq<seq<Hit>>, k: real, fused: seq<Hit>)
    requires k > -1.0
  {
    && Ids(fused) == Ids(Flat(rankings))
    && DistinctIds(fused)
    && (forall h <- fused ::
          h == Merged(Flat(rankings), h.thought.id).(rrf := Some(Score(rankings, h.thought.id, k))))
    && Descending(fused)
  }

  // ----- fusion -----

  /** The hits met once `r` rankings and the first `i` hits of the next have been read. */
  ghost function Seen(rankings: seq<seq<Hit>>, r: nat, i: nat): seq<Hit>
    requires r < |rankings| && i <= |rankings[r]|
  {
    Flat(rankings[..r]) + rankings[r][..i]
  }

  ghost function PartialScore(rankings: seq<seq<Hit>>, r: nat, i: nat, id: Id, k: real): real
    requires r < |rankings| && i <= |rankings[r]| && k > -1.0
  {
    Score(rankings[..r], id, k) + RankScore(rankings[r][..i], id, k)
  }

  /** What the accumulator holds at that point. */
  ghost predicate Holds(acc: map<Id, Hit>, rankings: seq<seq<Hit>>, r: nat, i: nat, k: real)
    requires r < |rankings| && i <= |rankings[r]| && k > -1.0
  {
    && acc.Keys == Ids(Seen(rankings, r, i))
    && forall id <- acc ::
         acc[id] == Merged(Seen(rankings, r, i), id).(rrf := Some(PartialScore(rankings, r, i, id, k)))
  }

  /** The accumulator between two rankings. */
  ghost predicate HoldsAll(acc: map<Id, Hit>, rankings: seq<seq<Hit>>, k: real)
    requires k > -1.0
  {
    && acc.Keys == Ids(Flat(rankings))
    && forall id <- acc :: acc[id] == Merged(Flat(rankings), id).(rrf := Some(Score(rankings, id, k)))
  }

  lemma RankingBoundary(acc: map<Id, Hit>, rankings: seq<seq<Hit>>, r: nat, k: real)
    requires r < |rankings| && k > -1.0
    ensures HoldsAll(acc, rankings[..r], k) ==> Holds(acc, rankings, r, 0, k)
    ensures Holds(acc, rankings, r, |rankings[r]|, k) ==> HoldsAll(acc, rankings[..r + 1], k)
  {
    assert forall id :: RankScore([], id, k) == 0.0;
    hide Ids, Merged, RankScore;
    var n := |rankings[r]|;
    assert rankings[r][..0] == [] && rankings[r][..n] == rankings[r];
    assert Seen(rankings, r, 0) == Flat(rankings[..r]);
    assert rankings[..r + 1][..r] == rankings[..r];
    assert Seen(rankings, r, n) == Flat(rankings[..r + 1]);
    forall id ensures PartialScore(rankings, r, 0, id, k) == Score(rankings[..r], id, k)
                   && PartialScore(rankings, r, n, id, k) == Score(rankings[..r + 1], id, k) {
      assert RankScore([], id, k) == 0.0;
    }
  }

  lemma {:induction false} UnseenScoresZero(rankings: seq<seq<Hit>>, id: Id, k: real)
    requires k > -1.0 && id !in Ids(Flat(rankings))
    ensures Score(rankings, id, k) == 0.0
  {
    if rankings != [] {
      var n := |rankings| - 1;
      assert forall h <- rankings[n] :: h in Flat(rankings) && h.thought.id in Ids(Flat(rankings));
      assert forall h <- Flat(rankings[..n]) :: h in Flat(rankings);
      UnseenScoresZero(rankings[..n], id, k);
      AbsentScoresZero(rankings[n], id, k);
    }
  }

  lemma {:induction false} AbsentScoresZero(ranking: seq<Hit>, id: Id, k: real)
    requires k > -1.0 && forall h <- ranking :: h.thought.id != id
    ensures RankScore(ranking, id, k) == 0.0
  {
    if ranking != [] {
      AbsentScoresZero(ranking[..|ranking| - 1], id, k);
    }
  }

  lemma HitStep(rankings: seq<seq<Hit>>, r: nat, i: nat, k: real)
    requires r < |rankings| && i < |rankings[r]| && k > -1.0
    ensures var hit := rankings[r][i];
            Seen(rankings, r, i + 1) == Seen(rankings, r, i) + [hit]
            && (forall id :: PartialScore(rankings, r, i + 1, id, k)
                             == PartialScore(rankings, r, i, id, k) + Share(hit, i + 1, id, k))
            && (hit.thought.id !in Ids(Seen(rankings, r, i))
                ==> PartialScore(rankings, r, i, hit.thought.id, k) == 0.0)
  {
    hide Share;
    var (ranking, id) := (rankings[r], rankings[r][i].thought.id);
    assert ranking[..i + 1] == ranking[..i] + [ranking[i]];
    assert ranking[..i + 1][..i] == ranking[..i];
    if id !in Ids(Seen(rankings, r, i)) {
      assert forall h <- Seen(rankings, r, i) :: h.thought.id in Ids(Seen(rankings, r, i));
      assert forall h <- Flat(rankings[..r]) :: h in Seen(rankings, r, i);
      UnseenScoresZero(rankings[..r], id, k);
      assert forall h <- ranking[..i] :: h in Seen(rankings, r, i);
      AbsentScoresZero(ranking[..i], id, k);
    }
  }

  lemma MergedStep(seen: seq<Hit>, hit: Hit)
    ensures Ids(seen + [hit]) == Ids(seen) + {hit.thought.id}
    ensures forall id <- Ids(seen) :: id != hit.thought.id ==> Merged(seen + [hit], id) == Merged(seen, id)
  {
    var all := seen + [hit];
    assert all[..|all| - 1] == seen && all[|all| - 1] == hit;
  }

  lemma DistinctHitsOccurOnce(s: seq<Hit>, h: Hit)
    requires DistinctIds(s) && h in s
    ensures multiset(s)[h] == 1
  {
    var p :| 0 <= p < |s| && s[p] == h;
    assert s == s[..p] + [s[p]] + s[p + 1..];
    assert h !in s[..p] && h !in s[p + 1..];
  }

  lemma RepeatedHitsOccurTwice(s: seq<Hit>, i: nat, j: nat)
    requires i < j < |s| && s[i] == s[j]
    ensures multiset(s)[s[i]] >= 2
  {
    assert s == s[..j] + s[j..] && s[j] == s[j..][0] && s[i] == s[..j][i];
  }

  lemma PermutedHits(a: seq<Hit>, b: seq<Hit>)
    requires multiset(a) == multiset(b)
    ensures Ids(a) == Ids(b) && forall h :: h in a <==> h in b
    ensures DistinctIds(a) ==> DistinctIds(b)
  {
    forall h ensures h in a <==> h in b {
      assert h in multiset(a) <==> h in multiset(b);
    }
    if DistinctIds(a) {
      forall i, j | 0 <= i < j < |b| ensures b[i].thought.id != b[j].thought.id {
        assert b[i] in a && b[j] in a;
        if b[i] == b[j] {
          DistinctHitsOccurOnce(a, b[i]);
          RepeatedHitsOccurTwice(b, i, j);
          assert false;
        }
      }
    }
  }

  lemma NothingHeld(rankings: seq<seq<Hit>>, k: real)
    requires k > -1.0
    ensures HoldsAll(map[], rankings[..0], k)
  {
    assert rankings[..0] == [];
  }

  method RrfFuse(rankings: seq<seq<Hit>>, k: real) returns (fused: seq<Hit>)
    requires k > -1.0
    ensures IsFusion(rankings, k, fused)
  {
    hide Merged, Ids, Score, RankScore, Flat, Share, SortByScore, Descending, Seen, PartialScore;
    var acc: map<Id, Hit> := map[];
    NothingHeld(rankings, k);
    var r := 0;
    while r < |rankings|
      invariant 0 <= r <= |rankings|
      invariant HoldsAll(acc, rankings[..r], k)
    {
      var ranking := rankings[r];
      RankingBoundary(acc, rankings, r, k);
      var i := 0;
      while i < |ranking|
        invariant 0 <= i <= |ranking|
        invariant Holds(acc, rankings, r, i, k)
      {
        acc := Accumulate(acc, rankings, r, i, k);
        i := i + 1;
      }
      RankingBoundary(acc, rankings, r, k);
      r := r + 1;
    }
    assert rankings[..r] == rankings;
    forall id <- acc ensures acc[id].thought.id == id {
      MergedTakesFirstPresent(Flat(rankings), id);
    }
    var collected := Values(acc);
    fused := SortByScore(collected);
    SortIsSorted(collected);
    PermutedHits(collected, fused);
  }

  /** One hit enters the accumulator: its share is added and gaps in the legs are filled. */
  method Accumulate(acc: map<Id, Hit>, rankings: seq<seq<Hit>>, r: nat, i: nat, k: real)
    returns (next: map<Id, Hit>)
    requires k > -1.0 && r < |rankings| && i < |rankings[r]|
    requires Holds(acc, rankings, r, i, k)
    ensures Holds(next, rankings, r, i + 1, k)
  {
    hide Ids, Seen, PartialScore;
    var hit := rankings[r][i];
    var id := hit.thought.id;
    var contribution := 1.0 / (k + (i + 1) as real);
    if id in acc {
      var existing := acc[id];
      var current := if existing.rrf.Some? then existing.rrf.value else 0.0;
      existing := existing.(rrf := Some(current + contribution));
      if existing.vector.None? { existing := existing.(vector := hit.vector); }
      if existing.trigram.None? { existing := existing.(trigram := hit.trigram); }
      if existing.lexical.None? { existing := existing.(lexical := hit.lexical); }
      if existing.chunk.None? { existing := existing.(chunk := hit.chunk); }
      next := acc[id := existing];
    } else {
      next := acc[id := Hit(hit.thought, hit.vector, hit.lexical, hit.trigram, Some(contribution), None, hit.chunk)];
    }
    HitStep(rankings, r, i, k);
    ghost var seen := Seen(rankings, r, i);
    ghost var all := seen + [hit];
    MergedStep(seen, hit);
    assert all[..|all| - 1] == seen && all[|all| - 1] == hit;
    assert next[id] == Merged(all, id).(rrf := Some(PartialScore(rankings, r, i + 1, id, k)));
    hide Merged, Share;
  }

  lemma IdsOfOneMore(hits: seq<Hit>, h: Hit)
    ensures Ids(hits + [h]) == Ids(hits) + {h.thought.id}
    ensures h.thought.id !in Ids(hits) && DistinctIds(hits) ==> DistinctIds(hits + [h])
  {
    assert forall i :: 0 <= i < |hits| ==> hits[i].thought.id in Ids(hits);
  }

  /** The accumulated hits, in whatever order the table yields them. */
  method Values(acc: map<Id, Hit>) returns (hits: seq<Hit>)
    requires forall id <- acc :: acc[id].thought.id == id
    ensures Ids(hits) == acc.Keys && forall h <- hits :: h.thought.id in acc && h == acc[h.thought.id]
    ensures DistinctIds(hits)
  {
    assert Ids([]) == {} && DistinctIds([]);
    hide Ids, DistinctIds;
    hits := [];
    var rest := acc.Keys;
    while rest != {}
      invariant rest <= acc.Keys && Ids(hits) == acc.Keys - rest
      invariant forall h <- hits :: h.thought.id in acc && h == acc[h.thought.id]
      invariant DistinctIds(hits)
      decreases |rest|
    {
      var id: Id :| id in rest;
      IdsOfOneMore(hits, acc[id]);
      hits := hits + [acc[id]];
      rest := rest - {id};
    }
  }

  // ----- what the scores mean -----

  lemma {:induction false} FlatHasTheIds(rankings: seq<seq<Hit>>, id: Id)
    ensures id in Ids(Flat(rankings)) <==> exists q <- rankings :: id in Ids(q)
  {
    if rankings != [] {
      var n := |rankings| - 1;
      FlatHasTheIds(rankings[..n], id);
      assert rankings == rankings[..n] + [rankings[n]];
      assert Ids(Flat(rankings)) == Ids(Flat(rankings[..n])) + Ids(rankings[n]) by {
        assert forall h :: h in Flat(rankings) <==> h in Flat(rankings[..n]) || h in rankings[n];
      }
    }
  }

  lemma {:induction false} ScoreWithout(rankings: seq<seq<Hit>>, j: nat, id: Id, k: real)
    requires k > -1.0 && j < |rankings|
    ensures Score(rankings, id, k) == Score(rankings[..j] + rankings[j + 1..], id, k) + RankScore(rankings[j], id, k)
  {
    hide RankScore;
    var n := |rankings| - 1;
    var rest := rankings[..j] + rankings[j + 1..];
    if j == n {
      assert rest == rankings[..n];
    } else {
      ScoreWithout(rankings[..n], j, id, k);
      assert rest[..n - 1] == rankings[..n][..j] + rankings[..n][j + 1..];
      assert rest[n - 1] == rankings[n];
    }
  }

  /** A rearrangement holds the other's last element somewhere, and is a rearrangement without it. */
  lemma WithoutLast<T>(a: seq<T>, b: seq<T>) returns (j: nat)
    requires a != [] && multiset(a) == multiset(b)
    ensures j < |b| && b[j] == a[|a| - 1] && multiset(a[..|a| - 1]) == multiset(b[..j] + b[j + 1..])
  {
    var n := |a| - 1;
    assert a == a[..n] + [a[n]];
    assert a[n] in multiset(b);
    j :| 0 <= j < |b| && b[j] == a[n];
    assert b == b[..j] + [b[j]] + b[j + 1..];
    assert multiset(b) == multiset(b[..j] + b[j + 1..]) + multiset{b[j]};
    assert multiset(a[..n]) == multiset(a) - multiset{a[n]};
  }

  /** The order in which the legs are passed in does not matter to any score. */
  lemma {:induction false} ScoreIgnoresRankingOrder(r: seq<seq<Hit>>, p: seq<seq<Hit>>, id: Id, k: real)
    requires k > -1.0 && multiset(r) == multiset(p)
    ensures Score(r, id, k) == Score(p, id, k)
    decreases |r|
  {
    hide RankScore;
    if r == [] {
      assert |p| == |multiset(p)| == |multiset(r)| == 0;
    } else {
      var n := |r| - 1;
      var j := WithoutLast(r, p);
      ScoreIgnoresRankingOrder(r[..n], p[..j] + p[j + 1..], id, k);
      ScoreWithout(p, j, id, k);
    }
  }

  lemma {:induction false} DistinctIdsCount(hits: seq<Hit>)
    requires DistinctIds(hits)
    ensures |Ids(hits)| == |hits|
  {
    if hits != [] {
      var n := |hits| - 1;
      DistinctIdsCount(hits[..n]);
      assert hits == hits[..n] + [hits[n]];
      IdsOfOneMore(hits[..n], hits[n]);
      assert hits[n].thought.id !in Ids(hits[..n]);
    }
  }

  ghost predicate Agree(a: seq<Hit>, b: seq<Hit>) {
    forall i, j :: 0 <= i < |a| && 0 <= j < |b| && a[i].thought.id == b[j].thought.id ==> Key(a[i]) == Key(b[j])
  }

  /** Were a[i] above b[i], the i+1 thoughts of a up to i would all have to sit among the first i of b. */
  lemma NoHigher(a: seq<Hit>, b: seq<Hit>, i: nat)
    requires DistinctIds(a) && DistinctIds(b) && Descending(a) && Descending(b)
    requires Ids(a) == Ids(b) && Agree(a, b)
    requires i < |a| && i < |b|
    ensures Key(a[i]) <= Key(b[i])
  {
    hide Key;
    if Key(a[i]) > Key(b[i]) {
      forall id | id in Ids(a[..i + 1]) ensures id in Ids(b[..i]) {
        var p :| 0 <= p <= i && a[p].thought.id == id;
        assert a[p] in a;
        assert id in Ids(b);
        var q :| 0 <= q < |b| && b[q].thought.id == id;
        assert Key(a[p]) >= Key(a[i]);
        assert q < i;
        assert b[..i][q] == b[q];
      }
      DistinctIdsCount(a[..i + 1]);
      DistinctIdsCount(b[..i]);
      SubsetIsSmaller(Ids(a[..i + 1]), Ids(b[..i]));
      assert false;
    }
  }

  lemma {:induction false} SubsetIsSmaller(a: set<Id>, b: set<Id>)
    requires a <= b
    ensures |a| <= |b|
  {
    if a != {} {
      var x :| x in a;
      SubsetIsSmaller(a - {x}, b - {x});
    }
  }

  /** Fusing the same rankings, in any order, gives the same thoughts with the same scores and the
      same descending list of scores: the result is determined up to the order of equal scores. */
  lemma FusionIgnoresRankingOrder(r: seq<seq<Hit>>, p: seq<seq<Hit>>, k: real, a: seq<Hit>, b: seq<Hit>)
    requires k > -1.0 && multiset(r) == multiset(p)
    requires IsFusion(r, k, a) && IsFusion(p, k, b)
    ensures |a| == |b| && Ids(a) == Ids(b) && Agree(a, b)
    ensures forall i :: 0 <= i < |a| ==> Key(a[i]) == Key(b[i])
  {
    hide Descending, Merged, Score;
    forall id ensures id in Ids(Flat(r)) <==> id in Ids(Flat(p)) {
      FlatHasTheIds(r, id);
      FlatHasTheIds(p, id);
      assert forall q :: q in r <==> q in multiset(r);
      assert forall q :: q in p <==> q in multiset(p);
    }
    forall i, j | 0 <= i < |a| && 0 <= j < |b| && a[i].thought.id == b[j].thought.id ensures Key(a[i]) == Key(b[j]) {
      ScoreIgnoresRankingOrder(r, p, a[i].thought.id, k);
      assert a[i] in a && b[j] in b;
    }
    assert Ids(Flat(r)) == Ids(Flat(p));
    DistinctIdsCount(a);
    DistinctIdsCount(b);
    forall i | 0 <= i < |a| ensures Key(a[i]) == Key(b[i]) {
      NoHigher(a, b, i);
      NoHigher(b, a, i);
    }
  }

  // ----- dominance -----

  /** Some place of x comes before every place of y. */
  ghost predicate RankedAbove(ranking: seq<Hit>, x: Id, y: Id) {
    exists i :: 0 <= i < |ranking| && ranking[i].thought.id == x
                && forall j :: 0 <= j < |ranking| && ranking[j].thought.id == y ==> i < j
  }

  ghost predicate AtMostOnce(ranking: seq<Hit>, y: Id) {
    forall i, j :: 0 <= i < j < |ranking| ==> !(ranking[i].thought.id == y == ranking[j].thought.id)
  }

  lemma {:induction false} PlaceIsWorth(ranking: seq<Hit>, i: nat, k: real)
    requires k > -1.0 && i < |ranking|
    ensures RankScore(ranking, ranking[i].thought.id, k) >= 1.0 / (k + (i + 1) as real)
    ensures AtMostOnce(ranking, ranking[i].thought.id)
        ==> RankScore(ranking, ranking[i].thought.id, k) == 1.0 / (k + (i + 1) as real)
  {
    var n := |ranking| - 1;
    if i < n {
      PlaceIsWorth(ranking[..n], i, k);
    } else if AtMostOnce(ranking, ranking[n].thought.id) {
      AbsentScoresZero(ranking[..n], ranking[n].thought.id, k);
    }
  }

  lemma HigherPlaceIsWorthMore(a: real, b: real)
    requires 0.0 < a < b
    ensures 1.0 / a > 1.0 / b
  {
    var u, v := 1.0 / a, 1.0 / b;
    assert u * a == 1.0 == v * b;
    assert (u - v) * a > 0.0;
  }

  lemma RankedAboveScoresHigher(ranking: seq<Hit>, x: Id, y: Id, k: real)
    requires k > -1.0 && AtMostOnce(ranking, y)
    requires y in Ids(ranking) ==> RankedAbove(ranking, x, y)
    ensures RankScore(ranking, x, k) >= RankScore(ranking, y, k)
    ensures y in Ids(ranking) ==> RankScore(ranking, x, k) > RankScore(ranking, y, k)
  {
    hide RankScore, AtMostOnce;
    if y in Ids(ranking) {
      var i :| 0 <= i < |ranking| && ranking[i].thought.id == x
               && forall j :: 0 <= j < |ranking| && ranking[j].thought.id == y ==> i < j;
      var j :| 0 <= j < |ranking| && ranking[j].thought.id == y;
      PlaceIsWorth(ranking, i, k);
      PlaceIsWorth(ranking, j, k);
      HigherPlaceIsWorthMore(k + (i + 1) as real, k + (j + 1) as real);
    } else {
      assert forall h <- ranking :: h.thought.id in Ids(ranking);
      AbsentScoresZero(ranking, y, k);
    }
  }

  lemma {:induction false} DominantScoresHigher(rankings: seq<seq<Hit>>, x: Id, y: Id, k: real)
    requires k > -1.0
    requires forall q <- rankings :: AtMostOnce(q, y) && (y in Ids(q) ==> RankedAbove(q, x, y))
    ensures Score(rankings, x, k) >= Score(rankings, y, k)
    ensures (exists q <- rankings :: y in Ids(q)) ==> Score(rankings, x, k) > Score(rankings, y, k)
  {
    hide RankScore, RankedAbove, AtMostOnce, Ids;
    if rankings != [] {
      var n := |rankings| - 1;
      assert rankings == rankings[..n] + [rankings[n]];
      RankedAboveScoresHigher(rankings[n], x, y, k);
      DominantScoresHigher(rankings[..n], x, y, k);
    }
  }

  /** A thought ranked above another in every ranking that has the other comes before it in every
      fusion, whatever else the rankings hold. */
  lemma DominanceDecides(rankings: seq<seq<Hit>>, k: real, fused: seq<Hit>, x: Id, y: Id)
    requires k > -1.0 && IsFusion(rankings, k, fused)
    requires forall q <- rankings :: AtMostOnce(q, y) && (y in Ids(q) ==> RankedAbove(q, x, y))
    requires y in Ids(fused)
    ensures exists i, j :: 0 <= i < j < |fused| && fused[i].thought.id == x && fused[j].thought.id == y
  {
    hide Merged, Score, RankedAbove, AtMostOnce;
    FlatHasTheIds(rankings, y);
    DominantScoresHigher(rankings, x, y, k);
    if x !in Ids(Flat(rankings)) {
      UnseenScoresZero(rankings, x, k);
      assert false;
    }
    var i :| 0 <= i < |fused| && fused[i].thought.id == x;
    var j :| 0 <= j < |fused| && fused[j].thought.id == y;
    assert fused[i] in fused && fused[j] in fused;
    assert Key(fused[i]) == Score(rankings, x, k) > Score(rankings, y, k) == Key(fused[j]);
    assert i < j;
  }

  lemma {:induction false} TwoPlacesAreWorth(ranking: seq<Hit>, i: nat, j: nat, k: real)
    requires k > -1.0 && i < j < |ranking| && ranking[i].thought.id == ranking[j].thought.id
    ensures RankScore(ranking, ranking[i].thought.id, k) >= 1.0 / (k + (i + 1) as real) + 1.0 / (k + (j + 1) as real)
  {
    var n := |ranking| - 1;
    if j < n {
      TwoPlacesAreWorth(ranking[..n], i, j, k);
    } else {
      PlaceIsWorth(ranking[..n], i, k);
    }
  }

  lemma SmallerQuotient(a: real, b: real)
    requires 0.0 < a <= b
    ensures 1.0 / a >= 1.0 / b
  {
    if a < b {
      HigherPlaceIsWorthMore(a, b);
    }
  }

  lemma TwoHalves(n: real)
    requires n > 0.0
    ensures 1.0 / (n + n) + 1.0 / (n + n) == 1.0 / n
  {
  }

  /** Of two thoughts of one ranking, x placed once and above every place of y, x scores higher for
      every constant if and only if y is not listed again: the shares of two places can outweigh a
      better one. */
  lemma RepeatsBreakDominance(ranking: seq<Hit>, x: Id, y: Id)
    requires AtMostOnce(ranking, x) && RankedAbove(ranking, x, y) && y in Ids(ranking)
    ensures (forall k: real :: k > -1.0 ==> RankScore(ranking, x, k) > RankScore(ranking, y, k))
       <==> AtMostOnce(ranking, y)
  {
    hide RankScore, RankedAbove;
    if AtMostOnce(ranking, y) {
      forall k: real | k > -1.0 ensures RankScore(ranking, x, k) > RankScore(ranking, y, k) {
        RankedAboveScoresHigher(ranking, x, y, k);
      }
    } else {
      var i, j :| 0 <= i < j < |ranking| && ranking[i].thought.id == y == ranking[j].thought.id;
      RepeatOutscores(ranking, x, i, j);
    }
  }

  lemma RepeatOutscores(ranking: seq<Hit>, x: Id, i: nat, j: nat)
    requires i < j < |ranking| && ranking[i].thought.id == ranking[j].thought.id
    requires AtMostOnce(ranking, x) && RankedAbove(ranking, x, ranking[i].thought.id)
    ensures RankScore(ranking, x, |ranking| as real) < RankScore(ranking, ranking[i].thought.id, |ranking| as real)
  {
    var n := |ranking| as real;
    var p :| 0 <= p < |ranking| && ranking[p].thought.id == x;
    hide RankScore, RankedAbove, AtMostOnce;
    PlaceIsWorth(ranking, p, n);
    TwoPlacesAreWorth(ranking, i, j, n);
    SmallerQuotient(n + 1.0, n + (p + 1) as real);
    SmallerQuotient(n + (i + 1) as real, n + n);
    SmallerQuotient(n + (j + 1) as real, n + n);
    TwoHalves(n);
    HigherPlaceIsWorthMore(n, n + 1.0);
  }

  // ----- recency -----

  const NANOS_PER_SECOND := 1_000_000_000
  const SECONDS_PER_DAY := 86_400.0

  /** Whole seconds of a span of nanoseconds, the rest cut off toward zero. */
  function WholeSeconds(nanos: int): int {
    if nanos >= 0 then nanos / NANOS_PER_SECOND else -(-nanos / NANOS_PER_SECOND)
  }

  function AgeSeconds(h: Hit, now: int): int {
    WholeSeconds(now - h.thought.createdAt)
  }

  ghost predicate Multiplies(decay: real -> real, x: real, y: real) {
    decay(x + y) == decay(x) * decay(y)
  }

  /** What is used of x => 0.5^x. */
  ghost predicate IsDecay(decay: real -> real) {
    (forall x, y :: Multiplies(decay, x, y)) && (forall x :: decay(x) > 0.0) && (forall x :: x > 0.0 ==> decay(x) < 1.0)
  }

  function HalfLives(seconds: int, halfLife: real): real
    requires halfLife > 0.0
  {
    seconds as real / SECONDS_PER_DAY / halfLife
  }

  /** The fused score times a factor; hits without one are left alone. */
  function Scaled(h: Hit, factor: real): Hit {
    match h.rrf
    case Some(s) => h.(rrf := Some(s * factor))
    case None => h
  }

  function ScaledAll(s: seq<Hit>, factor: real): seq<Hit> {
    seq(|s|, i requires 0 <= i < |s| => Scaled(s[i], factor))
  }

  function Aged(h: Hit, halfLife: real, now: int, decay: real -> real): Hit
    requires halfLife > 0.0
  {
    Scaled(h, decay(HalfLives(AgeSeconds(h, now), halfLife)))
  }

  function AgedAll(s: seq<Hit>, halfLife: real, now: int, decay: real -> real): seq<Hit>
    requires halfLife > 0.0
  {
    seq(|s|, i requires 0 <= i < |s| => Aged(s[i], halfLife, now, decay))
  }

  function Boosted(s: seq<Hit>, halfLife: real, now: int, decay: real -> real): seq<Hit> {
    if halfLife <= 0.0 then s else SortByScore(AgedAll(s, halfLife, now, decay))
  }

  method RecencyBoost(hits: array<Hit>, halfLife: real, now: int, decay: real -> real)
    modifies hits
    ensures hits[..] == Boosted(old(hits[..]), halfLife, now, decay)
    ensures halfLife > 0.0 ==> Descending(hits[..])
    ensures halfLife > 0.0 ==> multiset(hits[..]) == multiset(AgedAll(old(hits[..]), halfLife, now, decay))
    ensures halfLife > 0.0 ==>
              forall x :: OfScore(hits[..], x) == OfScore(AgedAll(old(hits[..]), halfLife, now, decay), x)
  {
    hide OfScore, SortByScore, Descending, Aged, HalfLives, AgeSeconds;
    if halfLife <= 0.0 { return; }
    ghost var was := hits[..];
    var i := 0;
    while i < hits.Length
      invariant 0 <= i <= hits.Length
      invariant forall j :: 0 <= j < i ==> hits[j] == Aged(was[j], halfLife, now, decay)
      invariant forall j :: i <= j < hits.Length ==> hits[j] == was[j]
    {
      var ageSecs := AgeSeconds(hits[i], now);
      var factor := decay(HalfLives(ageSecs, halfLife));
      if hits[i].rrf.Some? {
        hits[i] := hits[i].(rrf := Some(hits[i].rrf.value * factor));
      }
      AgedIs(was[i], halfLife, now, decay, factor, hits[i]);
      i := i + 1;
    }
    assert hits[..] == AgedAll(was, halfLife, now, decay);
    SortIsSorted(hits[..]);
    forall x ensures OfScore(SortByScore(hits[..]), x) == OfScore(hits[..], x) {
      SortIsStable(hits[..], x);
    }
    var sorted := SortByScore(hits[..]);
    i := 0;
    while i < hits.Length
      invariant 0 <= i <= hits.Length == |sorted|
      invariant hits[..i] == sorted[..i]
    {
      hits[i] := sorted[i];
      i := i + 1;
    }
    assert hits[..] == sorted;
  }

  lemma AgedIs(h: Hit, halfLife: real, now: int, decay: real -> real, factor: real, r: Hit)
    requires halfLife > 0.0 && factor == decay(HalfLives(AgeSeconds(h, now), halfLife))
    requires if h.rrf.None? then r == h
             else r.rrf.Some? && r.rrf.value == h.rrf.value * factor && r == h.(rrf := r.rrf)
    ensures r == Aged(h, halfLife, now, decay)
  {
    hide HalfLives, AgeSeconds;
    if h.rrf.Some? {
      SameScore(r.rrf, Aged(h, halfLife, now, decay).rrf);
    }
  }

  /** What a boost does to one hit: of an age of `seconds` whole seconds and a part of one, which is x
      half-lives counted in days of 86 400 seconds, its score is multiplied by decay(x). A hit half-life days
      old is scaled by decay(1). A hit from the future has a negative age, cut toward zero likewise; hits
      without a fused score stay as they are. */
  lemma AgeDecides(h: Hit, halfLife: real, now: int, decay: real -> real, seconds: int, x: real)
    requires halfLife > 0.0 && x * (86_400.0 * halfLife) == seconds as real
    requires var part := now - h.thought.createdAt - seconds * 1_000_000_000;
             (seconds >= 0 && 0 <= part < 1_000_000_000) || (seconds <= 0 && -1_000_000_000 < part <= 0)
    ensures h.rrf.None? ==> Aged(h, halfLife, now, decay) == h
    ensures h.rrf.Some? ==> Aged(h, halfLife, now, decay) == h.(rrf := Some(h.rrf.value * decay(x)))
  {
    assert AgeSeconds(h, now) == seconds;
    assert HalfLives(seconds, halfLife) == x by {
      SameQuotient(seconds as real, halfLife, x);
    }
    AgedIs(h, halfLife, now, decay, decay(x), if h.rrf.None? then h else h.(rrf := Some(h.rrf.value * decay(x))));
  }

  lemma SameQuotient(a: real, halfLife: real, x: real)
    requires halfLife > 0.0 && x * (86_400.0 * halfLife) == a
    ensures a / 86_400.0 / halfLife == x
  {
    assert a / 86_400.0 == x * halfLife;
  }

  // ----- moving the clock -----

  lemma {:induction false} InsertScales(s: seq<Hit>, h: Hit, factor: real)
    requires factor > 0.0
    ensures Insert(ScaledAll(s, factor), Scaled(h, factor)) == ScaledAll(Insert(s, h), factor)
  {
    if s != [] {
      ScalingKeepsOrder(s[0], h, factor);
      assert ScaledAll(s, factor)[1..] == ScaledAll(s[1..], factor);
      InsertScales(s[1..], h, factor);
    }
  }

  lemma ScalingKeepsOrder(a: Hit, b: Hit, factor: real)
    requires factor > 0.0
    ensures Key(Scaled(a, factor)) < Key(Scaled(b, factor)) <==> Key(a) < Key(b)
  {
    var x, y := Key(a), Key(b);
    assert Key(Scaled(a, factor)) == x * factor && Key(Scaled(b, factor)) == y * factor;
    assert y * factor - x * factor == (y - x) * factor;
    SignOfProduct(y - x, factor);
  }

  lemma SignOfProduct(x: real, factor: real)
    requires factor > 0.0
    ensures x * factor > 0.0 <==> x > 0.0
  {
    if x <= 0.0 {
      assert -x * factor >= 0.0;
    }
  }

  lemma SameScore(a: Option<real>, b: Option<real>)
    requires a.Some? && b.Some? && a.value == b.value
    ensures a == b
  {
  }

  lemma ScaledTwice(h: Hit, f: real, g: real, fg: real)
    requires fg == f * g
    ensures Scaled(Scaled(h, f), g) == Scaled(h, fg)
  {
    if h.rrf.Some? {
      assert h.rrf.value * fg == (h.rrf.value * f) * g;
      SameScore(Scaled(Scaled(h, f), g).rrf, Scaled(h, fg).rrf);
    }
  }

  lemma {:induction false} SortScales(s: seq<Hit>, factor: real)
    requires factor > 0.0
    ensures SortByScore(ScaledAll(s, factor)) == ScaledAll(SortByScore(s), factor)
  {
    if s != [] {
      var n := |s| - 1;
      assert ScaledAll(s, factor)[..n] == ScaledAll(s[..n], factor);
      SortScales(s[..n], factor);
      InsertScales(SortByScore(s[..n]), s[n], factor);
    }
  }

  /** Two capture instants age alike between two readings of the clock. */
  ghost predicate AgeAlike(c: int, d: int, now: int, later: int) {
    WholeSeconds(later - c) - WholeSeconds(now - c) == WholeSeconds(later - d) - WholeSeconds(now - d)
  }

  lemma PastAge(c: int, now: int, q: int, p: int)
    requires now >= c && c == q * NANOS_PER_SECOND + p
    ensures WholeSeconds(now - c) == (now - p) / NANOS_PER_SECOND - q
  {
  }

  /** Ages are cut to whole seconds, so two captures keep their age difference at every later reading
      exactly when they fall at the same fraction of a second. */
  lemma AgeAlikeIffSameFraction(c: int, d: int)
    ensures (forall now, later :: now >= c && now >= d && later >= c && later >= d ==> AgeAlike(c, d, now, later))
       <==> c % NANOS_PER_SECOND == d % NANOS_PER_SECOND
  {
    var n := NANOS_PER_SECOND;
    if c % n == d % n {
      forall now, later | now >= c && now >= d && later >= c && later >= d ensures AgeAlike(c, d, now, later) {
        SameFractionAgesAlike(c, d, now, later);
      }
    } else if c % n < d % n {
      OtherFractionDrifts(c, d);
    } else {
      OtherFractionDrifts(d, c);
      var m := if c / n > d / n then c / n + 2 else d / n + 2;
      assert !AgeAlike(c, d, m * n + d % n, m * n + c % n);
    }
  }

  lemma SameFractionAgesAlike(c: int, d: int, now: int, later: int)
    requires c % NANOS_PER_SECOND == d % NANOS_PER_SECOND
    requires now >= c && now >= d && later >= c && later >= d
    ensures AgeAlike(c, d, now, later)
  {
    var n := NANOS_PER_SECOND;
    PastAge(c, now, c / n, c % n);
    PastAge(d, now, d / n, d % n);
    PastAge(c, later, c / n, c % n);
    PastAge(d, later, d / n, d % n);
  }

  lemma OtherFractionDrifts(c: int, d: int)
    requires c % NANOS_PER_SECOND < d % NANOS_PER_SECOND
    ensures var n := NANOS_PER_SECOND;
            var m := if c / n > d / n then c / n + 2 else d / n + 2;
            var (now, later) := (m * n + c % n, m * n + d % n);
            now >= c && now >= d && later >= c && later >= d && !AgeAlike(c, d, now, later)
  {
  }

  /** Readings a whole number of seconds apart age every past capture alike. */
  lemma WholeSecondsAgeAlike(c: int, d: int, now: int, later: int)
    requires (later - now) % NANOS_PER_SECOND == 0
    requires now >= c && now >= d && later >= c && later >= d
    ensures AgeAlike(c, d, now, later)
  {
    var k := (later - now) / NANOS_PER_SECOND;
    assert later - now == k * NANOS_PER_SECOND;
    assert (later - c) / NANOS_PER_SECOND == (now - c) / NANOS_PER_SECOND + k;
    assert (later - d) / NANOS_PER_SECOND == (now - d) / NANOS_PER_SECOND + k;
  }

  function ClockFactor(s: seq<Hit>, halfLife: real, now: int, later: int, decay: real -> real): real
    requires halfLife > 0.0
  {
    decay(HalfLives(if s == [] then 0 else AgeSeconds(s[0], later) - AgeSeconds(s[0], now), halfLife))
  }

  /** Boosting at another instant rescales every boosted score by one positive factor and leaves the
      order as it was, ties included, when the captures age alike between the two. */
  lemma ClockRescales(s: seq<Hit>, halfLife: real, now: int, later: int, decay: real -> real)
    requires IsDecay(decay) && halfLife > 0.0
    requires forall g <- s, h <- s :: AgeAlike(g.thought.createdAt, h.thought.createdAt, now, later)
    ensures ClockFactor(s, halfLife, now, later, decay) > 0.0
    ensures Boosted(s, halfLife, later, decay)
         == ScaledAll(Boosted(s, halfLife, now, decay), ClockFactor(s, halfLife, now, later, decay))
  {
    hide SortByScore, Aged, Scaled, HalfLives;
    var factor := ClockFactor(s, halfLife, now, later, decay);
    var before, after := AgedAll(s, halfLife, now, decay), AgedAll(s, halfLife, later, decay);
    forall i | 0 <= i < |s| ensures after[i] == Scaled(before[i], factor) {
      assert AgeAlike(s[0].thought.createdAt, s[i].thought.createdAt, now, later);
      AgesFurther(s[i], halfLife, now, later, AgeSeconds(s[0], later) - AgeSeconds(s[0], now), decay);
    }
    assert after == ScaledAll(before, factor);
    SortScales(before, factor);
  }

  lemma AgesFurther(h: Hit, halfLife: real, now: int, later: int, seconds: int, decay: real -> real)
    requires IsDecay(decay) && halfLife > 0.0
    requires AgeSeconds(h, later) == AgeSeconds(h, now) + seconds
    ensures Aged(h, halfLife, later, decay)
         == Scaled(Aged(h, halfLife, now, decay), decay(HalfLives(seconds, halfLife)))
  {
    hide AgeSeconds;
    var a, b := HalfLives(AgeSeconds(h, now), halfLife), HalfLives(seconds, halfLife);
    DivisionDistributes(AgeSeconds(h, now) as real / SECONDS_PER_DAY, seconds as real / SECONDS_PER_DAY, halfLife);
    assert HalfLives(AgeSeconds(h, later), halfLife) == a + b;
    assert Multiplies(decay, a, b);
    ScaledTwice(h, decay(a), decay(b), decay(a + b));
  }

  lemma DivisionDistributes(a: real, b: real, c: real)
    requires c > 0.0
    ensures a / c + b / c == (a + b) / c
  {
  }

  lemma SortsSingly(h: Hit)
    ensures SortByScore([h]) == [h]
  {
    assert [h][..0] == [];
  }

  lemma SortsPair(a: Hit, b: Hit)
    ensures SortByScore([a, b]) == if Key(a) >= Key(b) then [a, b] else [b, a]
  {
    assert [a, b][..1] == [a];
    SortsSingly(a);
    assert SortByScore([a, b]) == Insert([a], b);
    assert [a][1..] == [] && Insert([], b) == [b];
  }

  /** Between the two instants of `OtherFractionDrifts` the capture at the later fraction ages by a
      second and the other one not at all. */
  lemma DriftAges(c: int, d: int) returns (now: int, later: int)
    requires c % NANOS_PER_SECOND < d % NANOS_PER_SECOND
    ensures now >= c && now >= d && later >= c && later >= d
    ensures WholeSeconds(later - c) == WholeSeconds(now - c) && WholeSeconds(later - d) == WholeSeconds(now - d) + 1
  {
    var n := NANOS_PER_SECOND;
    var m := if c / n > d / n then c / n + 2 else d / n + 2;
    now, later := m * n + c % n, m * n + d % n;
  }

  lemma Between(f: real, rate: real)
    requires f > 0.0 && 0.0 < rate < 1.0
    ensures f * rate < f * (1.0 + rate) / 2.0 < f
  {
    SignOfProduct(1.0 - rate, f);
    assert f * (1.0 - rate) == f - f * rate;
    assert f * (1.0 + rate) == f + f * rate;
  }

  lemma QuotientTimes(x: real, f: real)
    requires f > 0.0
    ensures x / f * f == x
  {
  }

  function Order(s: seq<Hit>): seq<Thought> {
    seq(|s|, i requires 0 <= i < |s| => s[i].thought)
  }

  lemma BoostPair(a: Hit, b: Hit, halfLife: real, now: int, decay: real -> real)
    requires halfLife > 0.0
    ensures Order(Boosted([a, b], halfLife, now, decay))
         == if Key(Aged(a, halfLife, now, decay)) >= Key(Aged(b, halfLife, now, decay)) then [a.thought, b.thought]
            else [b.thought, a.thought]
  {
    hide SortByScore, HalfLives, AgeSeconds, Key;
    var a', b' := Aged(a, halfLife, now, decay), Aged(b, halfLife, now, decay);
    assert AgedAll([a, b], halfLife, now, decay) == [a', b'];
    SortsPair(a', b');
  }

  lemma AgedKey(h: Hit, halfLife: real, now: int, decay: real -> real)
    requires halfLife > 0.0 && h.rrf.Some?
    ensures Key(Aged(h, halfLife, now, decay)) == h.rrf.value * decay(HalfLives(AgeSeconds(h, now), halfLife))
  {
    hide HalfLives, AgeSeconds;
  }

  lemma OneSecondMore(seconds: int, halfLife: real, decay: real -> real)
    requires IsDecay(decay) && halfLife > 0.0
    ensures decay(HalfLives(seconds + 1, halfLife))
         == decay(HalfLives(seconds, halfLife)) * decay(HalfLives(1, halfLife))
    ensures 0.0 < decay(HalfLives(1, halfLife)) < 1.0
  {
    var a, b := HalfLives(seconds, halfLife), HalfLives(1, halfLife);
    DivisionDistributes(seconds as real / SECONDS_PER_DAY, 1.0 / SECONDS_PER_DAY, halfLife);
    assert HalfLives(seconds + 1, halfLife) == a + b && b > 0.0;
    assert Multiplies(decay, a, b);
  }

  /** Captures at different fractions of a second trade places, at any half-life: some hits captured
      then are in one order at one instant and in the other at another. */
  lemma FractionsReorder(c: int, d: int, halfLife: real, decay: real -> real)
    returns (a: Hit, b: Hit, now: int, later: int)
    requires IsDecay(decay) && halfLife > 0.0 && c % NANOS_PER_SECOND < d % NANOS_PER_SECOND
    ensures a.thought == Thought(0, c) && b.thought == Thought(1, d)
    ensures now >= c && now >= d && later >= c && later >= d
    ensures Order(Boosted([a, b], halfLife, now, decay)) == [b.thought, a.thought]
    ensures Order(Boosted([a, b], halfLife, later, decay)) == [a.thought, b.thought]
  {
    hide HalfLives, WholeSeconds, Key, Aged, Order, Boosted;
    now, later := DriftAges(c, d);
    var (p, q) := (WholeSeconds(now - c), WholeSeconds(now - d));
    var f, g, rate := decay(HalfLives(p, halfLife)), decay(HalfLives(q, halfLife)), decay(HalfLives(1, halfLife));
    OneSecondMore(q, halfLife, decay);
    Between(g, rate);
    var middle := g * (1.0 + rate) / 2.0;
    QuotientTimes(middle, f);
    a := Hit(Thought(0, c), None, None, None, Some(middle / f), None, None);
    b := Hit(Thought(1, d), None, None, None, Some(1.0), None, None);
    AgedKey(a, halfLife, now, decay);
    AgedKey(a, halfLife, later, decay);
    AgedKey(b, halfLife, now, decay);
    AgedKey(b, halfLife, later, decay);
    hide IsDecay;
    assert Key(Aged(a, halfLife, now, decay)) == middle == Key(Aged(a, halfLife, later, decay));
    assert Key(Aged(b, halfLife, now, decay)) == g && Key(Aged(b, halfLife, later, decay)) == g * rate;
    BoostPair(a, b, halfLife, now, decay);
    BoostPair(a, b, halfLife, later, decay);
  }

  /** Some hits, all captured at instants of a set and before two readings of the clock, come out in
      the same order at both. */
  ghost predicate SameOrder(
      s: seq<Hit>, captures: set<int>, halfLife: real, now: int, later: int, decay: real -> real) {
    (forall h <- s :: h.thought.createdAt in captures && h.thought.createdAt <= now && h.thought.createdAt <= later)
    ==> Order(Boosted(s, halfLife, now, decay)) == Order(Boosted(s, halfLife, later, decay))
  }

  /** The order after a boost does not depend on the instant: for hits captured at instants of a set,
      however many and whatever their scores, this holds if and only if these instants all fall at the
      same fraction of a second. */
  lemma OrderIgnoresClockIff(captures: set<int>, halfLife: real, decay: real -> real)
    requires IsDecay(decay) && halfLife > 0.0
    ensures (forall s, now, later :: SameOrder(s, captures, halfLife, now, later, decay))
       <==> forall c <- captures, d <- captures :: c % NANOS_PER_SECOND == d % NANOS_PER_SECOND
  {
    hide SameOrder;
    if forall c <- captures, d <- captures :: c % NANOS_PER_SECOND == d % NANOS_PER_SECOND {
      forall s, now, later ensures SameOrder(s, captures, halfLife, now, later, decay) {
        SameFractionSameOrder(s, captures, halfLife, now, later, decay);
      }
    } else {
      var c, d :| c in captures && d in captures && c % NANOS_PER_SECOND != d % NANOS_PER_SECOND;
      if c % NANOS_PER_SECOND < d % NANOS_PER_SECOND {
        OrderChanges(c, d, captures, halfLife, decay);
      } else {
        OrderChanges(d, c, captures, halfLife, decay);
      }
    }
  }

  lemma OrderChanges(c: int, d: int, captures: set<int>, halfLife: real, decay: real -> real)
    requires IsDecay(decay) && halfLife > 0.0
    requires c in captures && d in captures && c % NANOS_PER_SECOND < d % NANOS_PER_SECOND
    ensures exists s, now, later :: !SameOrder(s, captures, halfLife, now, later, decay)
  {
    hide IsDecay, Boosted, Order;
    var a, b, now, later := FractionsReorder(c, d, halfLife, decay);
    assert [b.thought, a.thought][0] != [a.thought, b.thought][0];
    assert !SameOrder([a, b], captures, halfLife, now, later, decay);
  }

  lemma SameFractionSameOrder(
      s: seq<Hit>, captures: set<int>, halfLife: real, now: int, later: int, decay: real -> real)
    requires IsDecay(decay) && halfLife > 0.0
    requires forall c <- captures, d <- captures :: c % NANOS_PER_SECOND == d % NANOS_PER_SECOND
    ensures SameOrder(s, captures, halfLife, now, later, decay)
  {
    hide IsDecay, Boosted, WholeSeconds;
    if forall h <- s :: h.thought.createdAt in captures && h.thought.createdAt <= now && h.thought.createdAt <= later {
      forall g <- s, h <- s ensures AgeAlike(g.thought.createdAt, h.thought.createdAt, now, later) {
        SameFractionAgesAlike(g.thought.createdAt, h.thought.createdAt, now, later);
      }
      ClockRescales(s, halfLife, now, later, decay);
      assert Order(ScaledAll(Boosted(s, halfLife, now, decay), ClockFactor(s, halfLife, now, later, decay)))
          == Order(Boosted(s, halfLife, now, decay));
    }
  }

  // ----- two boosts -----

  lemma {:induction false} AgedAllPermutes(a: seq<Hit>, b: seq<Hit>, halfLife: real, now: int, decay: real -> real)
    requires halfLife > 0.0 && multiset(a) == multiset(b)
    ensures multiset(AgedAll(a, halfLife, now, decay)) == multiset(AgedAll(b, halfLife, now, decay))
    decreases |a|
  {
    assert AgedAll([], halfLife, now, decay) == [];
    hide Aged, AgedAll;
    if a == [] {
      assert |b| == |multiset(b)| == |multiset(a)| == 0;
      assert a == b;
    } else {
      var n := |a| - 1;
      var j := WithoutLast(a, b);
      var rest := b[..j] + b[j + 1..];
      AgedAllPermutes(a[..n], rest, halfLife, now, decay);
      AgedAllSplits(a, n, halfLife, now, decay);
      assert a[n + 1..] == [];
      AgedAllSplits(b, j, halfLife, now, decay);
      AgedAllJoins(b[..j], b[j + 1..], halfLife, now, decay);
    }
  }

  lemma AgedAllSplits(s: seq<Hit>, j: nat, halfLife: real, now: int, decay: real -> real)
    requires halfLife > 0.0 && j < |s|
    ensures AgedAll(s, halfLife, now, decay)
         == AgedAll(s[..j], halfLife, now, decay) + [Aged(s[j], halfLife, now, decay)]
          + AgedAll(s[j + 1..], halfLife, now, decay)
  {
    hide Aged;
  }

  lemma AgedAllJoins(a: seq<Hit>, b: seq<Hit>, halfLife: real, now: int, decay: real -> real)
    requires halfLife > 0.0
    ensures AgedAll(a + b, halfLife, now, decay) == AgedAll(a, halfLife, now, decay) + AgedAll(b, halfLife, now, decay)
  {
    hide Aged;
  }

  /** Descending arrangements of the same hits have the same scores, place by place. */
  lemma SameHitsSameScores(a: seq<Hit>, b: seq<Hit>, i: nat)
    requires multiset(a) == multiset(b) && Descending(a) && Descending(b) && i < |a|
    ensures i < |b| && Key(a[i]) <= Key(b[i])
  {
    hide Key;
    assert |a| == |multiset(a)| == |multiset(b)| == |b|;
    if Key(a[i]) > Key(b[i]) {
      var (A, B) := (multiset(a[..i + 1]), multiset(b[..i]));
      assert |A| == i + 1 && |B| == i;
      assert a == a[..i + 1] + a[i + 1..] && b == b[..i] + b[i..];
      forall h | h in A ensures A[h] <= B[h] {
        assert h in a[..i + 1];
        assert Key(h) >= Key(a[i]);
        assert h !in b[i..];
        assert multiset(b)[h] == B[h];
      }
      SubMultisetIsSmaller(A, B);
      assert false;
    }
  }

  lemma SubMultisetIsSmaller(a: multiset<Hit>, b: multiset<Hit>)
    requires a <= b
    ensures |a| <= |b|
  {
    assert b == a + (b - a);
  }

  lemma AgedTwice(h: Hit, first: real, second: real, both: real, now: int, decay: real -> real)
    requires IsDecay(decay) && first > 0.0 && second > 0.0 && both > 0.0 && 1.0 / both == 1.0 / first + 1.0 / second
    ensures Aged(Aged(h, first, now, decay), second, now, decay) == Aged(h, both, now, decay)
  {
    assert AgeSeconds(Aged(h, first, now, decay), now) == AgeSeconds(h, now);
    hide HalfLives, AgeSeconds;
    var a, b := HalfLives(AgeSeconds(h, now), first), HalfLives(AgeSeconds(h, now), second);
    RatesAdd(AgeSeconds(h, now), first, second, both);
    assert Multiplies(decay, a, b);
    ScaledTwice(h, decay(a), decay(b), decay(a + b));
  }

  lemma RatesAdd(seconds: int, first: real, second: real, both: real)
    requires first > 0.0 && second > 0.0 && both > 0.0 && 1.0 / both == 1.0 / first + 1.0 / second
    ensures HalfLives(seconds, both) == HalfLives(seconds, first) + HalfLives(seconds, second)
  {
    var days := seconds as real / SECONDS_PER_DAY;
    RateTimes(days, first);
    RateTimes(days, second);
    RateTimes(days, both);
    assert days * (1.0 / both) == days * (1.0 / first) + days * (1.0 / second);
  }

  lemma RateTimes(days: real, halfLife: real)
    requires halfLife > 0.0
    ensures days / halfLife == days * (1.0 / halfLife)
  {
  }

  /** Boosting with one half-life and then another gives the hits and scores of a single boost at the
      half-life whose rate is the sum of the two rates. */
  lemma BoostsCompose(s: seq<Hit>, first: real, second: real, both: real, now: int, decay: real -> real)
    requires IsDecay(decay) && first > 0.0 && second > 0.0 && both > 0.0 && 1.0 / both == 1.0 / first + 1.0 / second
    ensures var twice := Boosted(Boosted(s, first, now, decay), second, now, decay);
            var once := Boosted(s, both, now, decay);
            multiset(twice) == multiset(once) && |twice| == |once|
            && forall i :: 0 <= i < |twice| ==> Key(twice[i]) == Key(once[i])
  {
    hide SortByScore, Aged, Key, Descending;
    var aged := AgedAll(s, first, now, decay);
    var sorted := SortByScore(aged);
    SortIsSorted(aged);
    AgedAllPermutes(sorted, aged, second, now, decay);
    forall i | 0 <= i < |s| ensures AgedAll(aged, second, now, decay)[i] == AgedAll(s, both, now, decay)[i] {
      AgedTwice(s[i], first, second, both, now, decay);
    }
    assert AgedAll(aged, second, now, decay) == AgedAll(s, both, now, decay);
    SortIsSorted(AgedAll(sorted, second, now, decay));
    SortIsSorted(AgedAll(s, both, now, decay));
    var twice, once := Boosted(sorted, second, now, decay), Boosted(s, both, now, decay);
    assert |twice| == |multiset(twice)| == |multiset(once)| == |once|;
    forall i | 0 <= i < |twice| ensures Key(twice[i]) == Key(once[i]) {
      SameHitsSameScores(twice, once, i);
      SameHitsSameScores(once, twice, i);
    }
  }
}
