/** Ranking metrics: nDCG at k and reciprocal rank, over exact reals. The logarithm of the position
    is a parameter; only that it is positive and strictly increasing is used. */
module Metrics {

  type Id = nat

  /** `log2(i + 2)` for the 0-indexed position i, as far as nDCG cares. */
  ghost predicate IsLog(log: nat -> real) {
    (forall i: nat :: log(i) > 0.0) && forall i: nat, j: nat :: i < j ==> log(i) < log(j)
  }

  function Weight(graded: map<Id, real>, id: Id): real {
    if id in graded then graded[id] else 0.0
  }

  ghost predicate NonNegative(graded: map<Id, real>) {
    forall id <- graded :: graded[id] >= 0.0
  }

  ghost predicate Distinct(ids: seq<Id>) {
    forall i, j :: 0 <= i < j < |ids| ==> ids[i] != ids[j]
  }

  ghost predicate Descending(s: seq<real>) {
    forall i, j :: 0 <= i < j < |s| ==> s[i] >= s[j]
  }

  // ----- sums -----

  function Dcg(gains: seq<real>, log: nat -> real): real
    requires forall i: nat :: log(i) > 0.0
  {
    if gains == [] then 0.0
    else Dcg(gains[..|gains| - 1], log) + gains[|gains| - 1] / log(|gains| - 1)
  }

  ghost function Prefix(s: seq<real>, m: nat): real
    requires m <= |s|
  {
    if m == 0 then 0.0 else Prefix(s, m - 1) + s[m - 1]
  }

  /** Abel's argument: if every prefix of b outweighs the prefix of a, so does its DCG, by at least
      the difference of the whole sums at the last discount; and equal DCGs force equal prefixes. */
  lemma {:induction false} PrefixesDominate(a: seq<real>, b: seq<real>, log: nat -> real)
    requires IsLog(log) && 0 < |a| == |b|
    requires forall m: nat :: m <= |a| ==> Prefix(a, m) <= Prefix(b, m)
    ensures Dcg(b, log) - Dcg(a, log) >= (Prefix(b, |a|) - Prefix(a, |a|)) / log(|a| - 1) >= 0.0
    ensures Dcg(a, log) == Dcg(b, log) ==> forall m: nat :: m <= |a| ==> Prefix(a, m) == Prefix(b, m)
  {
    var n := |a| - 1;
    var (a', b') := (a[..n], b[..n]);
    forall m: nat | m <= n ensures Prefix(a', m) == Prefix(a, m) && Prefix(b', m) == Prefix(b, m) {
      PrefixOfTake(a, n, m);
      PrefixOfTake(b, n, m);
    }
    var gap, gap' := Prefix(b, n + 1) - Prefix(a, n + 1), Prefix(b, n) - Prefix(a, n);
    assert gap - gap' == b[n] - a[n];
    if n > 0 {
      PrefixesDominate(a', b', log);
      AbelStep(Dcg(b', log) - Dcg(a', log), gap', gap, log(n - 1), log(n));
      DivideDifference(b[n], a[n], log(n));
    } else {
      DivideDifference(b[n], a[n], log(n));
      NonNegativeQuotient(gap, log(n));
    }
  }

  lemma {:induction false} PrefixOfTake(s: seq<real>, n: nat, m: nat)
    requires m <= n <= |s|
    ensures Prefix(s[..n], m) == Prefix(s, m)
  {
    if m > 0 {
      PrefixOfTake(s, n, m - 1);
    }
  }

  lemma DivideDifference(x: real, y: real, l: real)
    requires l > 0.0
    ensures x / l - y / l == (x - y) / l
  {
  }

  lemma NonNegativeQuotient(x: real, l: real)
    requires l > 0.0 && x >= 0.0
    ensures x / l >= 0.0 && (x / l == 0.0 ==> x == 0.0)
  {
  }

  lemma AbelStep(d: real, p: real, q: real, l0: real, l1: real)
    requires 0.0 < l0 < l1 && p >= 0.0 && q >= 0.0 && d >= p / l0
    ensures d + (q - p) / l1 >= q / l1 >= 0.0
    ensures d + (q - p) / l1 == 0.0 ==> p == 0.0 && q == 0.0 && d == 0.0
  {
    assert (q - p) / l1 == q / l1 - p / l1;
    NonNegativeQuotient(q, l1);
    SmallerQuotient(p, l0, l1);
  }

  lemma SmallerQuotient(p: real, l0: real, l1: real)
    requires 0.0 < l0 < l1 && p >= 0.0
    ensures p / l1 <= p / l0 && (p > 0.0 ==> p / l1 < p / l0)
  {
    var x, y := p / l0, p / l1;
    assert x * l0 == p && y * l1 == p;
    if p > 0.0 {
      assert y > 0.0;
      assert y * l0 < y * l1;
      assert (x - y) * l0 > 0.0;
    }
  }

  lemma SamePrefixesSameSeq(a: seq<real>, b: seq<real>)
    requires |a| == |b| && forall m: nat :: m <= |a| ==> Prefix(a, m) == Prefix(b, m)
    ensures a == b
  {
    forall i: nat | i < |a| ensures a[i] == b[i] {
      assert Prefix(a, i + 1) == Prefix(b, i + 1) && Prefix(a, i) == Prefix(b, i);
    }
  }

  // ----- the ideal order -----

  /** Keeps a descending sequence descending. */
  function Insert(x: real, s: seq<real>): (r: seq<real>)
    ensures |r| == |s| + 1
    ensures Descending(s) ==> Descending(r)
    ensures forall i :: 0 <= i < |r| ==> r[i] == x || r[i] in s
  {
    if s == [] || x >= s[0] then [x] + s else [s[0]] + Insert(x, s[1..])
  }

  /** Inserts all of c, in order, into s. */
  function InsertAll(c: seq<real>, s: seq<real>): seq<real> {
    if c == [] then s else Insert(c[|c| - 1], InsertAll(c[..|c| - 1], s))
  }

  lemma {:induction false} InsertsCommute(x: real, y: real, s: seq<real>)
    requires Descending(s)
    ensures Insert(x, Insert(y, s)) == Insert(y, Insert(x, s))
  {
    if s != [] && x < s[0] && y < s[0] {
      InsertsCommute(x, y, s[1..]);
    } else if s != [] && x < s[0] {
      assert ([y] + s)[1..] == s;
    } else if s != [] && y < s[0] {
      assert ([x] + s)[1..] == s;
    } else {
      assert ([x] + s)[1..] == s && ([y] + s)[1..] == s;
    }
  }

  lemma {:induction false} InsertAllCommutes(x: real, c: seq<real>, s: seq<real>)
    requires Descending(s)
    ensures Descending(InsertAll(c, s))
    ensures InsertAll(c, Insert(x, s)) == Insert(x, InsertAll(c, s))
  {
    if c != [] {
      InsertAllCommutes(x, c[..|c| - 1], s);
      InsertsCommute(x, c[|c| - 1], InsertAll(c[..|c| - 1], s));
    }
  }

  /** The weights of a map, largest first. */
  ghost function SortedWeights(graded: map<Id, real>): (s: seq<real>)
    ensures Descending(s) && |s| == |graded|
    ensures NonNegative(graded) ==> forall i :: 0 <= i < |s| ==> s[i] >= 0.0
    decreases |graded|
  {
    if graded == map[] then []
    else
      var id :| id in graded;
      Insert(graded[id], SortedWeights(graded - {id}))
  }

  /** Any key may be taken out first. */
  lemma {:induction false} SortedWithout(graded: map<Id, real>, id: Id)
    requires id in graded
    ensures SortedWeights(graded) == Insert(graded[id], SortedWeights(graded - {id}))
    decreases |graded|
  {
    var pick :| pick in graded
                && SortedWeights(graded) == Insert(graded[pick], SortedWeights(graded - {pick}));
    if pick != id {
      assert graded - {pick} - {id} == graded - {id} - {pick};
      SortedWithout(graded - {pick}, id);
      SortedWithout(graded - {id}, pick);
      InsertsCommute(graded[id], graded[pick], SortedWeights(graded - {pick} - {id}));
    }
  }

  function Zeros(k: nat): (z: seq<real>)
    ensures |z| == k && forall i :: 0 <= i < k ==> z[i] == 0.0
  {
    seq(k, _ => 0.0)
  }

  /** Weights of the first k ranked ids, padded with zeros. */
  ghost function Gains(ranking: seq<Id>, graded: map<Id, real>, k: nat): (g: seq<real>)
    ensures |g| == k
    ensures forall i :: 0 <= i < k ==> g[i] == if i < |ranking| then Weight(graded, ranking[i]) else 0.0
  {
    seq(k, i requires 0 <= i < k => if i < |ranking| then Weight(graded, ranking[i]) else 0.0)
  }

  /** The k largest weights, descending, padded with zeros. */
  ghost function Ideal(graded: map<Id, real>, k: nat): (s: seq<real>)
    ensures |s| == k
  {
    (SortedWeights(graded) + Zeros(k))[..k]
  }

  ghost predicate DistinctTop(ranking: seq<Id>, k: nat) {
    Distinct(if k < |ranking| then ranking[..k] else ranking)
  }

  // ----- the ideal order outweighs every ranking without repeats -----

  /** t, m times. */
  ghost function Level(t: real, m: nat): real {
    if m == 0 then 0.0 else Level(t, m - 1) + t
  }

  ghost function Over(s: seq<real>, t: real): real {
    if s == [] then 0.0 else (if s[0] > t then s[0] - t else 0.0) + Over(s[1..], t)
  }

  lemma {:induction false} OverInsert(x: real, s: seq<real>, t: real)
    ensures Over(Insert(x, s), t) == (if x > t then x - t else 0.0) + Over(s, t)
  {
    if s == [] || x >= s[0] {
      assert ([x] + s)[1..] == s;
    } else {
      OverInsert(x, s[1..], t);
      assert Insert(x, s)[1..] == Insert(x, s[1..]);
    }
  }

  lemma {:induction false} OverNonNegative(s: seq<real>, t: real)
    ensures Over(s, t) >= 0.0
  {
    if s != [] {
      OverNonNegative(s[1..], t);
    }
  }

  /** What a ranking without repeats holds above a threshold is at most what all weights hold. */
  lemma {:induction false} DistinctHoldLess(ids: seq<Id>, graded: map<Id, real>, t: real)
    requires Distinct(ids) && t >= 0.0
    ensures Over(Gains(ids, graded, |ids|), t) <= Over(SortedWeights(graded), t)
    decreases |ids|
  {
    hide SortedWeights, Insert;
    if ids == [] {
      OverNonNegative(SortedWeights(graded), t);
    } else {
      var id, rest := ids[0], ids[1..];
      var g := Gains(ids, graded, |ids|);
      DistinctHoldLess(rest, graded - {id}, t);
      assert g[1..] == Gains(rest, graded - {id}, |rest|);
      assert g[0] == Weight(graded, id);
      if id in graded {
        SortedWithout(graded, id);
        OverInsert(graded[id], SortedWeights(graded - {id}), t);
      } else {
        assert graded - {id} == graded;
      }
    }
  }

  /** A threshold below the first m elements and above the others. */
  lemma {:induction false} OverSplits(s: seq<real>, m: nat, t: real)
    requires m <= |s| && (forall i :: 0 <= i < m ==> s[i] >= t) && (forall i :: m <= i < |s| ==> s[i] <= t)
    ensures Over(s, t) == Prefix(s, m) - Level(t, m)
    decreases |s|
  {
    if s != [] {
      var n := if m == 0 then 0 else m - 1;
      OverSplits(s[1..], n, t);
      if m > 0 {
        PrefixFromFront(s, m);
        assert Level(t, m) == Level(t, n) + t;
      }
    }
  }

  lemma {:induction false} PrefixFromFront(s: seq<real>, m: nat)
    requires 0 < m <= |s|
    ensures Prefix(s, m) == s[0] + Prefix(s[1..], m - 1)
  {
    if m > 1 {
      PrefixFromFront(s, m - 1);
    }
  }

  lemma {:induction false} PrefixBelowOver(s: seq<real>, t: real)
    ensures Prefix(s, |s|) <= Over(s, t) + Level(t, |s|)
  {
    if s != [] {
      PrefixBelowOver(s[1..], t);
      PrefixFromFront(s, |s|);
      assert Level(t, |s|) == Level(t, |s[1..]|) + t;
    }
  }

  lemma {:induction false} OverAppend(s: seq<real>, k: nat, t: real)
    requires t >= 0.0
    ensures Over(s + Zeros(k), t) == Over(s, t)
    decreases |s| + k
  {
    if s != [] {
      OverAppend(s[1..], k, t);
      assert (s + Zeros(k))[1..] == s[1..] + Zeros(k);
    } else if k > 0 {
      OverAppend(s, k - 1, t);
      assert (s + Zeros(k))[1..] == s + Zeros(k - 1);
    }
  }

  lemma GainsHoldLess(ranking: seq<Id>, graded: map<Id, real>, k: nat, m: nat, t: real)
    requires DistinctTop(ranking, k) && m <= k && t >= 0.0
    ensures Over(Gains(ranking, graded, k)[..m], t) <= Over(SortedWeights(graded), t)
  {
    var ids := if m < |ranking| then ranking[..m] else ranking;
    assert Distinct(ids);
    DistinctHoldLess(ids, graded, t);
    OverAppend(Gains(ids, graded, |ids|), m - |ids|, t);
    assert Gains(ranking, graded, k)[..m] == Gains(ids, graded, |ids|) + Zeros(m - |ids|);
  }

  lemma GainsBelowOver(gains: seq<real>, m: nat, t: real, held: real)
    requires m <= |gains| && Over(gains[..m], t) <= held
    ensures Prefix(gains, m) <= held + Level(t, m)
  {
    PrefixOfTake(gains, m, m);
    PrefixBelowOver(gains[..m], t);
  }

  lemma IdealMeetsOver(graded: map<Id, real>, k: nat, m: nat) returns (t: real)
    requires NonNegative(graded) && 0 < m <= k
    ensures t >= 0.0 && Prefix(Ideal(graded, k), m) == Over(SortedWeights(graded), t) + Level(t, m)
  {
    var sorted := SortedWeights(graded);
    var all := sorted + Zeros(k);
    t := all[m - 1];
    forall i, j | 0 <= i < j < |all| ensures all[i] >= all[j] {
    }
    OverAppend(sorted, k, t);
    OverSplits(all, m, t);
    PrefixOfTake(all, k, m);
  }

  /** The m largest weights sum to at least the first m gains of a ranking without repeats. */
  lemma TopSumIsLargest(ranking: seq<Id>, graded: map<Id, real>, k: nat, m: nat)
    requires NonNegative(graded) && DistinctTop(ranking, k) && m <= k
    ensures Prefix(Gains(ranking, graded, k), m) <= Prefix(Ideal(graded, k), m)
  {
    if m > 0 {
      var t := IdealMeetsOver(graded, k, m);
      GainsHoldLess(ranking, graded, k, m, t);
      GainsBelowOver(Gains(ranking, graded, k), m, t, Over(SortedWeights(graded), t));
    }
  }

  // ----- nDCG -----

  ghost function Ndcg(ranking: seq<Id>, graded: map<Id, real>, k: nat, log: nat -> real): real
    requires IsLog(log)
  {
    var ideal := Dcg(Ideal(graded, k), log);
    if ideal <= 0.0 then 0.0 else Dcg(Gains(ranking, graded, k), log) / ideal
  }

  lemma {:induction false} DcgNonNegative(s: seq<real>, log: nat -> real)
    requires IsLog(log) && forall i :: 0 <= i < |s| ==> s[i] >= 0.0
    ensures Dcg(s, log) >= 0.0
    ensures |s| > 0 && s[0] > 0.0 ==> Dcg(s, log) > 0.0
  {
    if s != [] {
      DcgNonNegative(s[..|s| - 1], log);
      NonNegativeQuotient(s[|s| - 1], log(|s| - 1));
    }
  }

  /** No ranking without repeats in its first k has a larger DCG than the ideal order. */
  lemma IdealIsBest(ranking: seq<Id>, graded: map<Id, real>, k: nat, log: nat -> real)
    requires IsLog(log) && NonNegative(graded) && DistinctTop(ranking, k)
    ensures 0.0 <= Dcg(Gains(ranking, graded, k), log) <= Dcg(Ideal(graded, k), log)
    ensures Dcg(Gains(ranking, graded, k), log) == Dcg(Ideal(graded, k), log)
            <==> Gains(ranking, graded, k) == Ideal(graded, k)
  {
    var g, best := Gains(ranking, graded, k), Ideal(graded, k);
    DcgNonNegative(g, log);
    if k > 0 {
      forall m: nat | m <= k ensures Prefix(g, m) <= Prefix(best, m) {
        TopSumIsLargest(ranking, graded, k, m);
      }
      PrefixesDominate(g, best, log);
      if Dcg(g, log) == Dcg(best, log) {
        SamePrefixesSameSeq(g, best);
      }
    }
  }

  /** And some ranking without repeats reaches it. */
  lemma {:induction false} IdealIsReached(graded: map<Id, real>) returns (ranking: seq<Id>)
    ensures Distinct(ranking) && (forall id <- ranking :: id in graded)
    ensures |ranking| == |graded| && Gains(ranking, graded, |graded|) == SortedWeights(graded)
    decreases |graded|
  {
    if graded == map[] {
      ranking := [];
    } else {
      var id :| id in graded;
      var rest := IdealIsReached(graded - {id});
      assert forall i :: 0 <= i < |rest| ==> Gains(rest, graded - {id}, |rest|)[i] == graded[rest[i]];
      SortedWithout(graded, id);
      ranking := RankAlso(graded, id, rest);
    }
  }

  lemma RankAlso(graded: map<Id, real>, id: Id, rest: seq<Id>) returns (ranking: seq<Id>)
    requires id in graded && Distinct(rest) && (forall x <- rest :: x in graded && x != id)
    requires var s := SortedWeights(graded - {id});
             |rest| == |s| && forall i :: 0 <= i < |s| ==> graded[rest[i]] == s[i]
    requires SortedWeights(graded) == Insert(graded[id], SortedWeights(graded - {id}))
    ensures Distinct(ranking) && (forall x <- ranking :: x in graded)
    ensures |ranking| == |graded| && Gains(ranking, graded, |graded|) == SortedWeights(graded)
  {
    var s := SortedWeights(graded - {id});
    var at := InsertedAt(graded[id], s);
    ranking := rest[..at] + [id] + rest[at..];
    forall i | 0 <= i < |ranking| ensures ranking[i] in graded && graded[ranking[i]] == SortedWeights(graded)[i] {
      if i < at {
        assert ranking[i] == rest[i] && SortedWeights(graded)[i] == s[i];
      } else if i > at {
        assert ranking[i] == rest[i - 1] && SortedWeights(graded)[i] == s[i - 1];
      }
    }
    DistinctInsert(rest, at, id);
  }

  lemma DistinctInsert(rest: seq<Id>, at: nat, id: Id)
    requires Distinct(rest) && id !in rest && at <= |rest|
    ensures Distinct(rest[..at] + [id] + rest[at..])
  {
  }

  lemma {:induction false} InsertedAt(x: real, s: seq<real>) returns (at: nat)
    ensures at <= |s| && Insert(x, s) == s[..at] + [x] + s[at..]
  {
    if s == [] || x >= s[0] {
      at := 0;
    } else {
      var at' := InsertedAt(x, s[1..]);
      at := at' + 1;
    }
  }

  /** nDCG lies in [0, 1] for a ranking without repeats in its first k. Given a positive weight, it is
      1 exactly when the gains of the first k positions are the ideal ones. */
  lemma NdcgInUnitRange(ranking: seq<Id>, graded: map<Id, real>, k: nat, log: nat -> real)
    requires IsLog(log) && NonNegative(graded) && DistinctTop(ranking, k)
    ensures 0.0 <= Ndcg(ranking, graded, k, log) <= 1.0
    ensures k > 0 && (exists id <- graded :: graded[id] > 0.0) ==>
              (Ndcg(ranking, graded, k, log) == 1.0 <==> Gains(ranking, graded, k) == Ideal(graded, k))
  {
    var d, best := Dcg(Gains(ranking, graded, k), log), Dcg(Ideal(graded, k), log);
    IdealIsBest(ranking, graded, k, log);
    if best > 0.0 {
      UnitQuotient(d, best);
    }
    if k > 0 && exists id <- graded :: graded[id] > 0.0 {
      var id :| id in graded && graded[id] > 0.0;
      TopSumIsLargest([id], graded, k, 1);
      assert Prefix(Gains([id], graded, k), 1) == graded[id];
      assert Prefix(Ideal(graded, k), 1) == Ideal(graded, k)[0];
      DcgNonNegative(Ideal(graded, k), log);
    }
  }

  lemma {:induction false} SomeGainCounts(s: seq<real>, i: nat, log: nat -> real)
    requires IsLog(log) && (forall j :: 0 <= j < |s| ==> s[j] >= 0.0) && i < |s| && s[i] > 0.0
    ensures Dcg(s, log) > 0.0
  {
    var n := |s| - 1;
    DcgNonNegative(s[..n], log);
    NonNegativeQuotient(s[n], log(n));
    if i < n {
      SomeGainCounts(s[..n], i, log);
    }
  }

  /** nDCG is 0 exactly when none of the first k ids has a positive weight; in particular it is 0 when no
      weight is positive. */
  lemma NdcgIsZeroIff(ranking: seq<Id>, graded: map<Id, real>, k: nat, log: nat -> real)
    requires IsLog(log) && NonNegative(graded) && DistinctTop(ranking, k)
    ensures Ndcg(ranking, graded, k, log) == 0.0
       <==> forall i :: 0 <= i < |ranking| && i < k && ranking[i] in graded ==> graded[ranking[i]] == 0.0
  {
    var (g, best) := (Gains(ranking, graded, k), Ideal(graded, k));
    IdealIsBest(ranking, graded, k, log);
    if i :| 0 <= i < |ranking| && i < k && ranking[i] in graded && graded[ranking[i]] > 0.0 {
      SomeGainCounts(g, i, log);
      UnitQuotient(Dcg(g, log), Dcg(best, log));
      NotZeroQuotient(Dcg(g, log), Dcg(best, log));
    } else {
      DcgZero(g, log);
      if Dcg(best, log) > 0.0 {
        ZeroQuotient(Dcg(best, log));
      }
    }
  }

  lemma NotZeroQuotient(d: real, best: real)
    requires d > 0.0 && best > 0.0
    ensures d / best != 0.0
  {
    assert (d / best) * best == d;
  }

  lemma UnitQuotient(d: real, best: real)
    requires 0.0 <= d <= best && best > 0.0
    ensures 0.0 <= d / best <= 1.0 && (d / best == 1.0 <==> d == best)
  {
    assert (d / best) * best == d;
  }

  // ----- repeats break the range -----

  lemma {:induction false} OnesSorted(graded: map<Id, real>, w: real)
    requires forall id <- graded :: graded[id] == w
    ensures forall i :: 0 <= i < |graded| ==> SortedWeights(graded)[i] == w
    decreases |graded|
  {
    if graded != map[] {
      var id :| id in graded;
      OnesSorted(graded - {id}, w);
      SortedWithout(graded, id);
    }
  }

  function IdSet(ids: seq<Id>): set<Id> {
    set id | id in ids
  }

  lemma {:induction false} RepeatsShrinkSet(ids: seq<Id>)
    ensures |IdSet(ids)| <= |ids|
    ensures !Distinct(ids) ==> |IdSet(ids)| < |ids|
  {
    if ids != [] {
      var n := |ids| - 1;
      var rest := ids[..n];
      RepeatsShrinkSet(rest);
      assert IdSet(ids) == IdSet(rest) + {ids[n]};
      if !Distinct(ids) && Distinct(rest) {
        assert ids[n] in IdSet(rest);
        assert IdSet(ids) == IdSet(rest);
      }
    }
  }

  lemma {:induction false} LargerGainsLargerDcg(a: seq<real>, b: seq<real>, log: nat -> real)
    requires IsLog(log) && |a| == |b| && forall i :: 0 <= i < |a| ==> a[i] <= b[i]
    ensures Dcg(a, log) <= Dcg(b, log)
    ensures (exists i :: 0 <= i < |a| && a[i] < b[i]) ==> Dcg(a, log) < Dcg(b, log)
  {
    if a != [] {
      var n := |a| - 1;
      LargerGainsLargerDcg(a[..n], b[..n], log);
      DivideDifference(b[n], a[n], log(n));
      NonNegativeQuotient(b[n] - a[n], log(n));
    }
  }

  /** A ranking that repeats an id in its first k scores above 1 when all its ids weigh the same. */
  lemma RepeatsExceedOne(ranking: seq<Id>, k: nat, log: nat -> real) returns (graded: map<Id, real>)
    requires IsLog(log) && !DistinctTop(ranking, k)
    ensures NonNegative(graded) && Ndcg(ranking, graded, k, log) > 1.0
  {
    var top := if k < |ranking| then ranking[..k] else ranking;
    graded := map id <- IdSet(top) :: 1.0;
    OnesBelowOnes(ranking, k, top, graded);
    var g, best := Gains(ranking, graded, k), Ideal(graded, k);
    LargerGainsLargerDcg(best, g, log);
    DcgNonNegative(best, log);
    ExceedsOne(Dcg(g, log), Dcg(best, log));
  }

  lemma OnesBelowOnes(ranking: seq<Id>, k: nat, top: seq<Id>, graded: map<Id, real>)
    requires top == if k < |ranking| then ranking[..k] else ranking
    requires !Distinct(top) && graded.Keys == IdSet(top) && forall id <- graded :: graded[id] == 1.0
    ensures var g, best := Gains(ranking, graded, k), Ideal(graded, k);
            && |graded| < k && best[0] == 1.0 && best[|graded|] < g[|graded|]
            && forall i :: 0 <= i < k ==> 0.0 <= best[i] <= g[i]
  {
    RepeatsShrinkSet(top);
    OnesSorted(graded, 1.0);
    assert |graded| == |graded.Keys|;
    assert top[0] in graded.Keys;
    var all := SortedWeights(graded) + Zeros(k);
    assert forall i :: 0 <= i < k ==> all[i] == if i < |graded| then 1.0 else 0.0;
    forall i | 0 <= i < |top| ensures Gains(ranking, graded, k)[i] == 1.0 {
      assert ranking[i] == top[i] && top[i] in graded.Keys;
    }
  }

  lemma ExceedsOne(d: real, best: real)
    requires 0.0 < best < d
    ensures d / best > 1.0
  {
    assert (d / best) * best == d;
  }

  /** The documented range holds for every grading exactly when the first k ids do not repeat. */
  lemma RangeIffDistinct(ranking: seq<Id>, k: nat, log: nat -> real)
    requires IsLog(log)
    ensures DistinctTop(ranking, k) <==>
            forall graded: map<Id, real> | NonNegative(graded) :: 0.0 <= Ndcg(ranking, graded, k, log) <= 1.0
  {
    if DistinctTop(ranking, k) {
      forall graded: map<Id, real> | NonNegative(graded) ensures 0.0 <= Ndcg(ranking, graded, k, log) <= 1.0 {
        NdcgInUnitRange(ranking, graded, k, log);
      }
    } else {
      var graded := RepeatsExceedOne(ranking, k, log);
    }
  }

  // ----- the code -----

  lemma {:induction false} DcgIgnoresZeros(s: seq<real>, k: nat, log: nat -> real)
    requires IsLog(log)
    ensures Dcg(s + Zeros(k), log) == Dcg(s, log)
  {
    var all := s + Zeros(k);
    if k == 0 {
      assert all == s;
    } else {
      DcgIgnoresZeros(s, k - 1, log);
      var n := |all| - 1;
      assert all[..n] == s + Zeros(k - 1) && all[n] == 0.0;
      ZeroQuotient(log(n));
    }
  }

  lemma ZeroQuotient(l: real)
    requires l > 0.0
    ensures 0.0 / l == 0.0
  {
  }

  lemma {:induction false} DcgZero(s: seq<real>, log: nat -> real)
    requires IsLog(log) && forall i :: 0 <= i < |s| ==> s[i] == 0.0
    ensures Dcg(s, log) == 0.0
  {
    if s != [] {
      DcgZero(s[..|s| - 1], log);
      ZeroQuotient(log(|s| - 1));
    }
  }

  /** The discounted sum of the first k weights. */
  method DiscountedSum(weights: seq<real>, k: nat, log: nat -> real) returns (sum: real)
    requires IsLog(log)
    ensures sum == Dcg((weights + Zeros(k))[..k], log)
  {
    var n := if k < |weights| then k else |weights|;
    sum := 0.0;
    for i := 0 to n
      invariant sum == Dcg(weights[..i], log)
    {
      assert weights[..i + 1][..i] == weights[..i];
      sum := sum + weights[i] / log(i);
    }
    DcgIgnoresZeros(weights[..n], k - n, log);
    assert (weights + Zeros(k))[..k] == weights[..n] + Zeros(k - n);
  }

  /** The values of a hash map, in no particular order. */
  method Values(graded: map<Id, real>) returns (weights: seq<real>)
    ensures InsertAll(weights, []) == SortedWeights(graded)
  {
    weights := [];
    var rest := graded;
    while rest != map[]
      invariant SortedWeights(graded) == InsertAll(weights, SortedWeights(rest))
      decreases |rest|
    {
      var id :| id in rest;
      SortedWithout(rest, id);
      InsertAllCommutes(rest[id], weights, SortedWeights(rest - {id}));
      assert (weights + [rest[id]])[..|weights|] == weights;
      weights := weights + [rest[id]];
      rest := rest - {id};
    }
  }

  lemma NothingToRank(ranking: seq<Id>, graded: map<Id, real>, k: nat, log: nat -> real)
    requires IsLog(log) && (k == 0 || ranking == [] || graded == map[])
    ensures Ndcg(ranking, graded, k, log) == 0.0
  {
    var best := Dcg(Ideal(graded, k), log);
    if k == 0 || ranking == [] {
      DcgZero(Gains(ranking, graded, k), log);
      if best > 0.0 {
        ZeroQuotient(best);
      }
    } else {
      DcgZero(Ideal(graded, k), log);
    }
  }

  method NdcgAtK(ranking: seq<Id>, graded: map<Id, real>, k: nat, log: nat -> real) returns (score: real)
    requires IsLog(log)
    ensures score == Ndcg(ranking, graded, k, log)
  {
    if k == 0 || ranking == [] || graded == map[] {
      NothingToRank(ranking, graded, k, log);
      return 0.0;
    }
    var rels := seq(|ranking|, i requires 0 <= i < |ranking| => Weight(graded, ranking[i]));
    var dcg := DiscountedSum(rels, k, log);
    assert (rels + Zeros(k))[..k] == Gains(ranking, graded, k);
    var weights := Values(graded);
    weights := InsertAll(weights, []);
    var idcg := DiscountedSum(weights, k, log);
    score := if idcg <= 0.0 then 0.0 else dcg / idcg;
  }

  function Reciprocal(i: nat): real {
    1.0 / (i as real + 1.0)
  }

  /** `reciprocal_rank`: one over the position of the first relevant id, 0 if there is none. */
  method ReciprocalRank(ranking: seq<Id>, relevant: set<Id>) returns (r: real)
    ensures (forall id <- ranking :: id !in relevant) ==> r == 0.0
    ensures forall i | 0 <= i < |ranking| && ranking[i] in relevant :: r >= Reciprocal(i)
    ensures r > 0.0 ==> exists i :: 0 <= i < |ranking| && ranking[i] in relevant && r == Reciprocal(i)
  {
    if relevant == {} {
      return 0.0;
    }
    for i := 0 to |ranking|
      invariant forall j :: 0 <= j < i ==> ranking[j] !in relevant
    {
      if ranking[i] in relevant {
        forall j | i <= j < |ranking| ensures Reciprocal(i) >= Reciprocal(j) {
          if i < j {
            SmallerQuotient(1.0, i as real + 1.0, j as real + 1.0);
          }
        }
        return Reciprocal(i);
      }
    }
    return 0.0;
  }
}
