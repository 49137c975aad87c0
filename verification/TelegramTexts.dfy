/** When a window that counts as published was sent with its own text. A source ref names a window by the
    first and the last message id, so windows can share one; the second of them is then taken for the
    first. */
module TelegramTexts {
  import opened TelegramWindows
  import opened TelegramProducer
  import opened TelegramSafety
  import opened TelegramWork
  import opened TelegramEndings
  import opened TelegramLiveness

  /** The text (by its hash) that belongs to each window. */
  type Texts = Window -> Hash

  ghost predicate WritesOne(b: Behaviour, h: Hash) {
    (b.summary.Text? ==> b.summary.hash == h) && (b.truncated.Text? ==> b.truncated.hash == h)
  }

  /** Whatever else happens, a window that gets a text gets its own. */
  ghost predicate Writes(world: World, text: Texts) {
    forall w: Window :: WritesOne(world(w), text(w))
  }

  /** Every final window that counts as published has a message with its own text. */
  ghost predicate OwnTextsSent(s: State, items: seq<Item>, world: World, text: Texts)
    requires NonEmpty(items)
  {
    var out := Work(s, items, world);
    forall l <- out.leaves :: l.window.rows != [] && l.ending.WasPublished? ==>
                                Message(RefOf(l.window), text(l.window)) in ApplyAll(s, out.effects).sent
  }

  // ----- windows that can be final -----

  /** The window and its parts down to what splitting can reach: a window whose source ref is on file is
      not split. */
  ghost function Pieces(i: Item, on: set<SourceRef>): set<Window>
    requires i.window.rows != []
    decreases |i.window.rows|
  {
    {i.window}
    + if MaySplit(i.window, i.depth) && RefOf(i.window) !in on then
        Pieces(Halves(i)[0], on) + Pieces(Halves(i)[1], on)
      else {}
  }

  ghost function Reachable(items: seq<Item>, on: set<SourceRef>): set<Window>
    requires NonEmpty(items)
  {
    if items == [] then {} else Pieces(items[0], on) + Reachable(items[1..], on)
  }

  /** A pass can end with window u and later with window v: u stands first and v can be reached in what
      follows, with the source ref of u on file by then; or so in what is left after a split; or in what
      follows. */
  ghost predicate Together(on: set<SourceRef>, items: seq<Item>, u: Window, v: Window)
    requires NonEmpty(items)
    decreases Measure(items)
  {
    items != []
    && var (w, rest) := (items[0].window, items[1..]);
    || (u == w && v in Reachable(rest, on + {RefOf(u)}))
    || (MaySplit(w, items[0].depth) && RefOf(w) !in on
        && (SplitShrinks(items); Together(on, Halves(items[0]) + rest, u, v)))
    || Together(on, rest, u, v)
  }

  /** What is on file for a window that can be final is its own text, or a quarantine. */
  ghost predicate FileAgrees(s: State, items: seq<Item>, text: Texts)
    requires NonEmpty(items)
  {
    forall v <- Reachable(items, s.seen.Keys) :: v.rows != [] ==> FileAgreesOn(s, v, text)
  }

  ghost predicate FileAgreesOn(s: State, v: Window, text: Texts)
    requires v.rows != []
  {
    RefOf(v) in s.seen && !s.seen[RefOf(v)].Quarantined? ==> s.seen[RefOf(v)].hash == text(v)
  }

  /** Windows that can be final together and share a source ref that is not on file have one text. */
  ghost predicate SharersAgree(s: State, items: seq<Item>, text: Texts)
    requires NonEmpty(items)
  {
    forall u, v | Together(s.seen.Keys, items, u, v) :: Sharing(s, u, v) ==> text(u) == text(v)
  }

  ghost predicate Sharing(s: State, u: Window, v: Window) {
    u.rows != [] && v.rows != [] && RefOf(u) == RefOf(v) && RefOf(u) !in s.seen
  }

  ghost predicate KeepsTexts(s: State, items: seq<Item>, text: Texts)
    requires NonEmpty(items)
  {
    FileAgrees(s, items, text) && SharersAgree(s, items, text)
  }

  // ----- pieces -----

  lemma PieceCases(i: Item, on: set<SourceRef>)
    requires i.window.rows != []
    ensures i.window in Pieces(i, on)
    ensures MaySplit(i.window, i.depth) && RefOf(i.window) !in on ==>
              Pieces(i, on) == {i.window} + Pieces(Halves(i)[0], on) + Pieces(Halves(i)[1], on)
    ensures !(MaySplit(i.window, i.depth) && RefOf(i.window) !in on) ==> Pieces(i, on) == {i.window}
  {
  }

  lemma ReachSplit(items: seq<Item>, on: set<SourceRef>)
    requires items != [] && NonEmpty(items)
    requires MaySplit(items[0].window, items[0].depth) && RefOf(items[0].window) !in on
    ensures NonEmpty(Halves(items[0]) + items[1..])
    ensures Reachable(items, on) == {items[0].window} + Reachable(Halves(items[0]) + items[1..], on)
  {
    hide Pieces;
    SplitShrinks(items);
    PieceCases(items[0], on);
    var (h, rest) := (Halves(items[0]), items[1..]);
    var all := h + rest;
    assert all[1..] == [h[1]] + rest && all[1..][1..] == rest;
    assert Reachable(all, on) == Pieces(h[0], on) + Reachable(all[1..], on);
    assert Reachable(all[1..], on) == Pieces(h[1], on) + Reachable(rest, on);
  }

  /** With more on file less can be reached. */
  lemma {:induction false} PiecesShrink(i: Item, on: set<SourceRef>, more: set<SourceRef>)
    requires i.window.rows != [] && on <= more
    ensures Pieces(i, more) <= Pieces(i, on)
    decreases |i.window.rows|
  {
    PieceCases(i, on);
    PieceCases(i, more);
    if MaySplit(i.window, i.depth) && RefOf(i.window) !in more {
      PiecesShrink(Halves(i)[0], on, more);
      PiecesShrink(Halves(i)[1], on, more);
    }
  }

  lemma {:induction false} ReachShrinks(items: seq<Item>, on: set<SourceRef>, more: set<SourceRef>)
    requires NonEmpty(items) && on <= more
    ensures Reachable(items, more) <= Reachable(items, on)
  {
    hide Pieces;
    if items != [] {
      PiecesShrink(items[0], on, more);
      ReachShrinks(items[1..], on, more);
    }
  }

  lemma TogetherCases(on: set<SourceRef>, items: seq<Item>, u: Window, v: Window)
    requires items != [] && NonEmpty(items)
    ensures var (w, rest) := (items[0].window, items[1..]);
            && (MaySplit(w, items[0].depth) ==> NonEmpty(Halves(items[0]) + rest)
                                                && Measure(Halves(items[0]) + rest) < Measure(items))
            && Measure(rest) < Measure(items)
            && (Together(on, items, u, v) <==>
                 || (u == w && v in Reachable(rest, on + {RefOf(w)}))
                 || (MaySplit(w, items[0].depth) && RefOf(w) !in on && Together(on, Halves(items[0]) + rest, u, v))
                 || Together(on, rest, u, v))
  {
    if MaySplit(items[0].window, items[0].depth) {
      SplitShrinks(items);
    }
  }

  lemma {:induction false} TogetherShrinks(
      on: set<SourceRef>, more: set<SourceRef>, items: seq<Item>, u: Window, v: Window)
    requires NonEmpty(items) && on <= more && Together(more, items, u, v)
    ensures Together(on, items, u, v)
    decreases Measure(items)
  {
    hide Reachable, Measure;
    TogetherCases(more, items, u, v);
    TogetherCases(on, items, u, v);
    hide Together;
    var (w, rest) := (items[0].window, items[1..]);
    if Together(more, rest, u, v) {
      TogetherShrinks(on, more, rest, u, v);
    } else if u == w && v in Reachable(rest, more + {RefOf(w)}) {
      ReachShrinks(rest, on + {RefOf(w)}, more + {RefOf(w)});
    } else {
      TogetherShrinks(on, more, Halves(items[0]) + rest, u, v);
    }
  }

  lemma {:induction false} TogetherAreReached(on: set<SourceRef>, items: seq<Item>, u: Window, v: Window)
    requires NonEmpty(items) && Together(on, items, u, v)
    ensures u in Reachable(items, {}) && v in Reachable(items, {})
    decreases Measure(items)
  {
    hide Measure, Pieces;
    TogetherCases(on, items, u, v);
    hide Together;
    var (w, rest) := (items[0].window, items[1..]);
    PieceCases(items[0], {});
    assert Reachable(items, {}) == Pieces(items[0], {}) + Reachable(rest, {});
    hide Reachable;
    if Together(on, rest, u, v) {
      TogetherAreReached(on, rest, u, v);
    } else if u == w && v in Reachable(rest, on + {RefOf(w)}) {
      ReachShrinks(rest, {}, on + {RefOf(w)});
    } else {
      TogetherAreReached(on, Halves(items[0]) + rest, u, v);
      ReachSplit(items, {});
    }
  }

  // ----- the condition is enough -----

  lemma SplitKeepsTexts(s: State, items: seq<Item>, text: Texts, key: AttemptKey)
    requires items != [] && NonEmpty(items) && KeepsTexts(s, items, text)
    requires MaySplit(items[0].window, items[0].depth) && RefOf(items[0].window) !in s.seen
    ensures NonEmpty(Halves(items[0]) + items[1..])
    ensures KeepsTexts(Apply(s, DropAttempts(key)), Halves(items[0]) + items[1..], text)
  {
    hide Reachable, Together, Pieces;
    ReachSplit(items, s.seen.Keys);
    var next := Halves(items[0]) + items[1..];
    forall u, v | Together(s.seen.Keys, next, u, v) ensures Together(s.seen.Keys, items, u, v) {
      TogetherCases(s.seen.Keys, items, u, v);
    }
  }

  lemma FirstIsReached(items: seq<Item>, on: set<SourceRef>)
    requires items != [] && NonEmpty(items)
    ensures items[0].window in Reachable(items, on) && Reachable(items[1..], on) <= Reachable(items, on)
  {
    hide Pieces;
    PieceCases(items[0], on);
  }

  /** What the first window left on file agrees with the texts of the rest. */
  lemma LeafKeepsTexts(s: State, s1: State, items: seq<Item>, text: Texts, b: Behaviour, ending: Ending)
    requires items != [] && NonEmpty(items) && KeepsTexts(s, items, text) && WritesOne(b, text(items[0].window))
    requires LeavesBehind(s, s1, items[0].window, b, ending)
    ensures KeepsTexts(s1, items[1..], text)
    ensures ending.WasPublished? ==> HashOf(s, items[0].window, b) == text(items[0].window)
  {
    hide Reachable, Together, Pieces;
    var (w, rest) := (items[0].window, items[1..]);
    FirstIsReached(items, s.seen.Keys);
    assert FileAgreesOn(s, w, text);
    ReachShrinks(rest, s.seen.Keys, s1.seen.Keys);
    forall v <- Reachable(rest, s1.seen.Keys) | v.rows != [] ensures FileAgreesOn(s1, v, text) {
      assert FileAgreesOn(s, v, text);
      if RefOf(v) == RefOf(w) && RefOf(w) !in s.seen && RefOf(w) in s1.seen {
        assert s1.seen.Keys == s.seen.Keys + {RefOf(w)};
        TogetherCases(s.seen.Keys, items, w, v);
        assert Sharing(s, w, v);
      }
    }
    forall u, v | Together(s1.seen.Keys, rest, u, v) ensures Sharing(s1, u, v) ==> text(u) == text(v) {
      TogetherShrinks(s.seen.Keys, s1.seen.Keys, rest, u, v);
      TogetherCases(s.seen.Keys, items, u, v);
      assert Sharing(s1, u, v) ==> Sharing(s, u, v);
    }
  }

  lemma LeafThrew(s: State, w: Window, b: Behaviour)
    requires w.rows != [] && ProcessLeaf(s, w, b).result.Threw?
    ensures ProcessLeaf(s, w, b).leaves == []
  {
    hide ApplyAll;
  }

  /** A published window has a message with the payload it goes out with. */
  lemma PublishedIsSent(s: State, s1: State, w: Window, b: Behaviour)
    requires w.rows != [] && Safe(s) && LeavesBehind(s, s1, w, b, WasPublished)
    ensures Message(RefOf(w), HashOf(s, w, b)) in s1.sent
  {
    var m := Message(RefOf(w), HashOf(s, w, b));
    if !(RefOf(w) in s.seen && s.seen[RefOf(w)].Published?) {
      assert s1.sent[|s.sent|] == m;
    }
  }

  lemma {:induction false} ConditionIsEnough(s: State, items: seq<Item>, world: World, text: Texts)
    requires NonEmpty(items) && Safe(s) && Writes(world, text) && KeepsTexts(s, items, text)
    ensures OwnTextsSent(s, items, world, text)
    decreases Measure(items)
  {
    hide Work, ApplyAll, ProcessLeaf, Measure, Safe, KeepsTexts;
    if items == [] {
      WorkOnNothing(s, world);
    } else {
      var (i, rest) := (items[0], items[1..]);
      WorkStep(s, items, world);
      if Splitting(s, i, world) {
        SplitShrinks(items);
        var drop := DropAttempts(KeyOf(i.window));
        DropKeepsSafe(s, KeyOf(i.window));
        SplitKeepsTexts(s, items, text, KeyOf(i.window));
        ConditionIsEnough(Apply(s, drop), Halves(i) + rest, world, text);
        ApplyCons(s, drop, Work(Apply(s, drop), Halves(i) + rest, world).effects);
      } else {
        var (w, b) := (i.window, world(i.window));
        var leaf := ProcessLeaf(s, w, b);
        assert WritesOne(b, text(w));
        if leaf.result.Threw? {
          LeafThrew(s, w, b);
        } else {
          var s1 := ApplyAll(s, leaf.effects);
          LeafDone(s, w, b);
          LeafKeepsSafe(s, w, b);
          RestShrinks(items);
          LeafKeepsTexts(s, s1, items, text, b, leaf.leaves[0].ending);
          ConditionIsEnough(s1, rest, world, text);
          var more := Work(s1, rest, world);
          ApplyAppend(s, leaf.effects, more.effects);
          SentGrows(s1, more.effects);
          if leaf.leaves[0].ending.WasPublished? {
            PublishedIsSent(s, s1, w, b);
          }
        }
      }
    }
  }

  // ----- the condition is necessary -----

  ghost predicate DistinctRowsOf(rows: seq<Row>) {
    forall i, j :: 0 <= i < j < |rows| ==> rows[i] != rows[j]
  }

  /** Windows of `long` are too long for the summarizer, those of `loud` get their text, and all others
      are noise; nothing fails. */
  function QuietOne(w: Window, long: set<Window>, loud: set<Window>, text: Texts): Behaviour {
    var summary := if w in long then TooLong else if w in loud then Text(text(w)) else Noise;
    Behaviour(true, summary, Broken, true, Acked)
  }

  function Quiet(long: set<Window>, loud: set<Window>, text: Texts): World {
    (w: Window) => QuietOne(w, long, loud, text)
  }

  lemma QuietWrites(long: set<Window>, loud: set<Window>, text: Texts)
    ensures Writes(Quiet(long, loud, text), text)
  {
  }

  /** A piece has rows of its item, and fewer unless it is the whole. */
  lemma {:induction false} PieceRows(i: Item, on: set<SourceRef>, v: Window)
    requires i.window.rows != [] && v in Pieces(i, on)
    ensures v.rows != [] && |v.rows| <= |i.window.rows| && (|v.rows| == |i.window.rows| ==> v == i.window)
    ensures forall x <- v.rows :: x in i.window.rows
    decreases |i.window.rows|
  {
    PieceCases(i, on);
    if v != i.window {
      HalvesConserve(i.window);
      if v in Pieces(Halves(i)[0], on) {
        PieceRows(Halves(i)[0], on, v);
      } else {
        PieceRows(Halves(i)[1], on, v);
      }
    }
  }

  lemma {:induction false} ReachRows(items: seq<Item>, on: set<SourceRef>, v: Window)
    requires NonEmpty(items) && v in Reachable(items, on)
    ensures v.rows != [] && forall x <- v.rows :: x in RowsOfItems(items)
  {
    hide Pieces;
    if v in Pieces(items[0], on) {
      PieceRows(items[0], on, v);
    } else {
      ReachRows(items[1..], on, v);
    }
  }

  lemma DistinctAppend(a: seq<Row>, b: seq<Row>)
    requires DistinctRowsOf(a + b)
    ensures DistinctRowsOf(b) && forall x <- a :: x !in b
  {
    var all := a + b;
    assert forall i :: 0 <= i < |a| ==> all[i] == a[i];
    assert forall i :: 0 <= i < |b| ==> all[|a| + i] == b[i];
  }

  /** No window of the work comes up again in what follows it or among its parts. */
  lemma FirstIsNew(items: seq<Item>)
    requires items != [] && NonEmpty(items) && DistinctRowsOf(RowsOfItems(items))
    ensures DistinctRowsOf(RowsOfItems(items[1..]))
    ensures forall v <- Pieces(items[0], {}) :: v !in Reachable(items[1..], {})
    ensures MaySplit(items[0].window, items[0].depth) ==>
              && NonEmpty(Halves(items[0]) + items[1..])
              && items[0].window !in Reachable(Halves(items[0]) + items[1..], {})
              && DistinctRowsOf(RowsOfItems(Halves(items[0]) + items[1..]))
  {
    hide Pieces, Reachable, RowsOfItems;
    var (i, rest) := (items[0], items[1..]);
    ItemsSplit(items);
    DistinctAppend(i.window.rows, RowsOfItems(rest));
    hide DistinctRowsOf;
    forall v <- Pieces(i, {}) ensures v !in Reachable(rest, {}) {
      PieceRows(i, {}, v);
      assert v.rows[0] in v.rows;
      if v in Reachable(rest, {}) {
        ReachRows(rest, {}, v);
      }
    }
    if MaySplit(i.window, i.depth) {
      SplitShrinks(items);
      HalvesKeepRows(items);
      PieceCases(i, {});
      assert i.window !in Reachable(rest, {});
      NotInHalves(i, rest);
    }
  }

  lemma NotInHalves(i: Item, rest: seq<Item>)
    requires NonEmpty(rest) && |i.window.rows| > 1 && i.window !in Reachable(rest, {})
    ensures i.window !in Reachable(Halves(i) + rest, {})
  {
    hide Pieces;
    var (h, all) := (Halves(i), Halves(i) + rest);
    HalvesConserve(i.window);
    assert all[1..] == [h[1]] + rest && all[1..][1..] == rest;
    assert Reachable(all, {}) == Pieces(h[0], {}) + Reachable(all[1..], {});
    assert Reachable(all[1..], {}) == Pieces(h[1], {}) + Reachable(rest, {});
    if i.window in Pieces(h[0], {}) {
      PieceRows(h[0], {}, i.window);
    }
    if i.window in Pieces(h[1], {}) {
      PieceRows(h[1], {}, i.window);
    }
  }

  /** A final window in a quiet world. */
  lemma QuietLeaf(s: State, w: Window, long: set<Window>, loud: set<Window>, text: Texts)
    requires w.rows != [] && w !in long
    ensures var (b, ref) := (QuietOne(w, long, loud, text), RefOf(w));
            var out := ProcessLeaf(s, w, b);
            && out.result.Done? && out.leaves == [Leaf(w, out.leaves[0].ending)]
            && LeavesBehind(s, ApplyAll(s, out.effects), w, b, out.leaves[0].ending)
            && out.leaves[0].ending
               == if ref in s.seen then if s.seen[ref].Quarantined? then WasQuarantined else WasPublished
                  else if w in loud then WasPublished else WasNoise
  {
    var b := QuietOne(w, long, loud, text);
    assert ProcessLeaf(s, w, b).result.Done?;
    LeafDone(s, w, b);
    hide ApplyAll;
  }

  /** A window is among the published ones of the work, sent with payload h. */
  ghost predicate Shows(
      s: State, items: seq<Item>, long: set<Window>, loud: set<Window>, text: Texts, v: Window, h: Hash)
    requires NonEmpty(items) && v.rows != []
  {
    var out := Work(s, items, Quiet(long, loud, text));
    Leaf(v, WasPublished) in out.leaves && Message(RefOf(v), h) in ApplyAll(s, out.effects).sent
  }

  lemma QuietStep(s: State, items: seq<Item>, long: set<Window>, loud: set<Window>, text: Texts)
    requires items != [] && NonEmpty(items) && items[0].window !in long
    ensures var (w, rest, world) := (items[0].window, items[1..], Quiet(long, loud, text));
            var leaf := ProcessLeaf(s, w, QuietOne(w, long, loud, text));
            var s1 := ApplyAll(s, leaf.effects);
            && leaf.result.Done?
            && Work(s, items, world).leaves == leaf.leaves + Work(s1, rest, world).leaves
            && ApplyAll(s, Work(s, items, world).effects) == ApplyAll(s1, Work(s1, rest, world).effects)
  {
    hide Work, ProcessLeaf, ApplyAll, QuietOne;
    var (w, rest, world) := (items[0].window, items[1..], Quiet(long, loud, text));
    QuietIs(w, long, loud, text);
    WorkStep(s, items, world);
    QuietDoesNotSplit(s, items[0], long, loud, text);
    QuietLeaf(s, w, long, loud, text);
    var leaf := ProcessLeaf(s, w, world(w));
    ApplyAppend(s, leaf.effects, Work(ApplyAll(s, leaf.effects), rest, world).effects);
  }

  lemma QuietIs(w: Window, long: set<Window>, loud: set<Window>, text: Texts)
    ensures Quiet(long, loud, text)(w) == QuietOne(w, long, loud, text)
  {
  }

  lemma QuietDoesNotSplit(s: State, i: Item, long: set<Window>, loud: set<Window>, text: Texts)
    requires i.window.rows != [] && i.window !in long
    ensures !Splitting(s, i, Quiet(long, loud, text))
  {
  }

  lemma FinalThenShows(
      s: State, items: seq<Item>, long: set<Window>, loud: set<Window>, text: Texts, v: Window, h: Hash)
    requires items != [] && NonEmpty(items) && items[0].window !in long && v.rows != []
    requires var leaf := ProcessLeaf(s, items[0].window, QuietOne(items[0].window, long, loud, text));
             Shows(ApplyAll(s, leaf.effects), items[1..], long, loud, text, v, h)
    ensures Shows(s, items, long, loud, text, v, h)
  {
    hide Work, ProcessLeaf, ApplyAll, QuietOne;
    QuietStep(s, items, long, loud, text);
  }

  lemma SplitThenShows(
      s: State, items: seq<Item>, long: set<Window>, loud: set<Window>, text: Texts, v: Window, h: Hash)
    requires items != [] && NonEmpty(items) && items[0].window in long && v.rows != []
    requires MaySplit(items[0].window, items[0].depth) && RefOf(items[0].window) !in s.seen
    requires NonEmpty(Halves(items[0]) + items[1..])
    requires Shows(Apply(s, DropAttempts(KeyOf(items[0].window))), Halves(items[0]) + items[1..],
                   long, loud, text, v, h)
    ensures Shows(s, items, long, loud, text, v, h)
  {
    var (i, drop, world) := (items[0], DropAttempts(KeyOf(items[0].window)), Quiet(long, loud, text));
    assert Splitting(s, i, world);
    hide Work, ApplyAll;
    WorkStep(s, items, world);
    ApplyCons(s, drop, Work(Apply(s, drop), Halves(i) + items[1..], world).effects);
  }

  lemma HereShows(s: State, items: seq<Item>, long: set<Window>, loud: set<Window>, text: Texts)
    requires items != [] && NonEmpty(items) && items[0].window !in long && Safe(s)
    requires RefOf(items[0].window) in s.seen && !s.seen[RefOf(items[0].window)].Quarantined?
    ensures Shows(s, items, long, loud, text, items[0].window, s.seen[RefOf(items[0].window)].hash)
  {
    hide Work, ProcessLeaf, ApplyAll, QuietOne, Safe;
    var (w, world) := (items[0].window, Quiet(long, loud, text));
    var b := QuietOne(w, long, loud, text);
    QuietStep(s, items, long, loud, text);
    QuietLeaf(s, w, long, loud, text);
    var s1 := ApplyAll(s, ProcessLeaf(s, w, b).effects);
    PublishedIsSent(s, s1, w, b);
    SentGrows(s1, Work(s1, items[1..], world).effects);
  }

  /** Sets of long windows that make no difference to some work. */
  lemma SameLong(l: set<Window>, long: set<Window>, all: set<Window>, part: set<Window>)
    requires l * all == long && part <= all && long <= part
    ensures l * part == long && forall w | w in all && w !in part :: w !in l
  {
    forall w ensures w in l * part <==> w in long {
      assert w in l * all <==> w in long;
    }
    forall w | w in all && w !in part ensures w !in l {
      assert w in l * all <==> w in long;
    }
  }

  lemma OneMoreLong(l: set<Window>, long: set<Window>, w: Window, part: set<Window>)
    requires l * ({w} + part) == {w} + long && long <= part && w !in part
    ensures l * part == long && w in l
  {
    forall x ensures x in l * part <==> x in long {
      assert x in l * ({w} + part) <==> x in {w} + long;
    }
    assert w in {w} + long;
  }

  /** In every quiet world in which the windows of `long`, and no others of the work, are too long. */
  ghost predicate AlwaysShows(
      s: State, items: seq<Item>, long: set<Window>, loud: set<Window>, text: Texts, v: Window, h: Hash)
    requires NonEmpty(items) && v.rows != []
  {
    && long <= Reachable(items, {})
    && forall l | l * Reachable(items, {}) == long :: Shows(s, items, l, loud, text, v, h)
  }

  lemma LaterAlways(
      s: State, items: seq<Item>, long: set<Window>, loud: set<Window>, text: Texts, v: Window, h: Hash)
    requires items != [] && NonEmpty(items) && DistinctRowsOf(RowsOfItems(items)) && v.rows != []
    requires var leaf := ProcessLeaf(s, items[0].window, QuietOne(items[0].window, {}, loud, text));
             AlwaysShows(ApplyAll(s, leaf.effects), items[1..], long, loud, text, v, h)
    ensures AlwaysShows(s, items, long, loud, text, v, h)
  {
    hide Shows, Reachable, Pieces, DistinctRowsOf, RowsOfItems, ApplyAll, ProcessLeaf, QuietOne;
    var (w, rest) := (items[0].window, items[1..]);
    FirstIsReached(items, {});
    FirstIsNew(items);
    PieceCases(items[0], {});
    forall l | l * Reachable(items, {}) == long ensures Shows(s, items, l, loud, text, v, h) {
      SameLong(l, long, Reachable(items, {}), Reachable(rest, {}));
      QuietAlike(w, l, loud, text);
      FinalThenShows(s, items, l, loud, text, v, h);
    }
  }

  lemma SplitAlways(
      s: State, items: seq<Item>, long: set<Window>, loud: set<Window>, text: Texts, v: Window, h: Hash)
    requires items != [] && NonEmpty(items) && DistinctRowsOf(RowsOfItems(items)) && v.rows != []
    requires MaySplit(items[0].window, items[0].depth) && RefOf(items[0].window) !in s.seen
    requires NonEmpty(Halves(items[0]) + items[1..])
    requires AlwaysShows(Apply(s, DropAttempts(KeyOf(items[0].window))), Halves(items[0]) + items[1..],
                         long, loud, text, v, h)
    ensures AlwaysShows(s, items, {items[0].window} + long, loud, text, v, h)
  {
    hide Shows, Reachable, Pieces, DistinctRowsOf, RowsOfItems, Apply;
    var (w, next) := (items[0].window, Halves(items[0]) + items[1..]);
    FirstIsNew(items);
    ReachSplit(items, {});
    forall l | l * Reachable(items, {}) == {w} + long ensures Shows(s, items, l, loud, text, v, h) {
      OneMoreLong(l, long, w, Reachable(next, {}));
      SplitThenShows(s, items, l, loud, text, v, h);
    }
  }

  lemma HereAlways(s: State, items: seq<Item>, loud: set<Window>, text: Texts)
    requires items != [] && NonEmpty(items) && Safe(s)
    requires RefOf(items[0].window) in s.seen && !s.seen[RefOf(items[0].window)].Quarantined?
    ensures AlwaysShows(s, items, {}, loud, text, items[0].window, s.seen[RefOf(items[0].window)].hash)
  {
    hide Shows, Reachable, Safe;
    FirstIsReached(items, {});
    var w := items[0].window;
    forall l | l * Reachable(items, {}) == {} ensures Shows(s, items, l, loud, text, w, s.seen[RefOf(w)].hash) {
      assert w !in l * Reachable(items, {});
      HereShows(s, items, l, loud, text);
    }
  }

  lemma QuietAlike(w: Window, long: set<Window>, loud: set<Window>, text: Texts)
    requires w !in long
    ensures QuietOne(w, long, loud, text) == QuietOne(w, {}, loud, text)
  {
  }

  /** A final window that gets no text leaves every payload on file as it was. */
  lemma QuietKeepsFile(s: State, s1: State, w: Window, v: Window, loud: set<Window>, text: Texts)
    requires w.rows != [] && v.rows != [] && w !in loud
    requires var out := ProcessLeaf(s, w, QuietOne(w, {}, loud, text)); s1 == ApplyAll(s, out.effects)
    ensures s1.seen.Keys == s.seen.Keys
    ensures RefOf(v) in s.seen && !s.seen[RefOf(v)].Quarantined? ==>
              !s1.seen[RefOf(v)].Quarantined? && s1.seen[RefOf(v)].hash == s.seen[RefOf(v)].hash
  {
    hide ApplyAll, ProcessLeaf;
    QuietLeaf(s, w, {}, loud, text);
  }

  lemma ReachCases(items: seq<Item>, on: set<SourceRef>)
    requires items != [] && NonEmpty(items)
    ensures Reachable(items, on) == Pieces(items[0], on) + Reachable(items[1..], on)
  {
  }

  /** A window that can be reached, and has a payload on file, can be made final: in some quiet worlds it
      counts as published, sent with that payload. */
  lemma {:induction false} CanBeFinal(s: State, items: seq<Item>, v: Window, loud: set<Window>, text: Texts)
    returns (long: set<Window>)
    requires NonEmpty(items) && DistinctRowsOf(RowsOfItems(items)) && Safe(s)
    requires v in Reachable(items, s.seen.Keys) && v.rows != [] && loud * Reachable(items, {}) <= {v}
    requires RefOf(v) in s.seen && !s.seen[RefOf(v)].Quarantined?
    ensures AlwaysShows(s, items, long, loud, text, v, s.seen[RefOf(v)].hash)
    decreases Measure(items)
  {
    NothingReached(s.seen.Keys);
    hide AlwaysShows, Reachable, Pieces, DistinctRowsOf, RowsOfItems, Safe, ApplyAll, ProcessLeaf, QuietOne, Measure;
    var (i, w, rest, keys) := (items[0], items[0].window, items[1..], s.seen.Keys);
    ReachCases(items, {});
    ReachCases(items, keys);
    FirstIsNew(items);
    RestShrinks(items);
    PieceCases(i, {});
    PieceCases(i, keys);
    ReachShrinks(rest, {}, keys);
    var h := s.seen[RefOf(v)].hash;
    if v in Reachable(rest, keys) {
      assert w !in loud * Reachable(items, {});
      var s1 := ApplyAll(s, ProcessLeaf(s, w, QuietOne(w, {}, loud, text)).effects);
      LeafKeepsSafe(s, w, QuietOne(w, {}, loud, text));
      QuietKeepsFile(s, s1, w, v, loud, text);
      FewerLoud(loud, Reachable(items, {}), Reachable(rest, {}), {v});
      long := CanBeFinal(s1, rest, v, loud, text);
      LaterAlways(s, items, long, loud, text, v, h);
    } else if v == w {
      long := {};
      HereAlways(s, items, loud, text);
    } else {
      DropKeepsSafe(s, KeyOf(w));
      SplitShrinks(items);
      ReachSplit(items, {});
      ReachSplit(items, keys);
      FewerLoud(loud, Reachable(items, {}), Reachable(Halves(i) + rest, {}), {v});
      var more := CanBeFinal(Apply(s, DropAttempts(KeyOf(w))), Halves(i) + rest, v, loud, text);
      SplitAlways(s, items, more, loud, text, v, h);
      long := {w} + more;
    }
  }

  lemma NothingReached(on: set<SourceRef>)
    ensures Reachable([], on) == {}
  {
  }

  lemma FewerLoud(loud: set<Window>, all: set<Window>, part: set<Window>, few: set<Window>)
    requires loud * all <= few && part <= all
    ensures loud * part <= few
  {
    forall w | w in loud * part ensures w in few {
      assert w in loud * all;
    }
  }

  // ----- two windows with one source ref -----

  /** The first of two sharers is sent with its text, which is on file for the second by then. */
  lemma LoudLeaf(s: State, w: Window, loud: set<Window>, text: Texts)
    requires w.rows != [] && w in loud && RefOf(w) !in s.seen
    ensures var s1 := ApplyAll(s, ProcessLeaf(s, w, QuietOne(w, {}, loud, text)).effects);
            s1.seen == s.seen[RefOf(w) := Published(text(w))]
  {
    hide ApplyAll, ProcessLeaf;
    QuietLeaf(s, w, {}, loud, text);
  }

  lemma {:induction false} SharersMeet(s: State, items: seq<Item>, u: Window, v: Window, text: Texts)
    returns (long: set<Window>)
    requires NonEmpty(items) && DistinctRowsOf(RowsOfItems(items)) && Safe(s)
    requires Together(s.seen.Keys, items, u, v) && Sharing(s, u, v)
    ensures AlwaysShows(s, items, long, {u, v}, text, v, text(u))
    decreases Measure(items)
  {
    NothingTogether(s.seen.Keys, u, v);
    hide AlwaysShows, Reachable, Pieces, DistinctRowsOf, RowsOfItems, Safe, ApplyAll, ProcessLeaf, QuietOne, Measure;
    var (i, w, rest, keys, loud) := (items[0], items[0].window, items[1..], s.seen.Keys, {u, v});
    TogetherCases(keys, items, u, v);
    hide Together;
    FirstIsNew(items);
    PieceCases(i, {});
    var s1 := ApplyAll(s, ProcessLeaf(s, w, QuietOne(w, {}, loud, text)).effects);
    LeafKeepsSafe(s, w, QuietOne(w, {}, loud, text));
    if Together(keys, rest, u, v) {
      TogetherAreReached(keys, rest, u, v);
      QuietKeepsFile(s, s1, w, v, loud, text);
      long := SharersMeet(s1, rest, u, v, text);
      LaterAlways(s, items, long, loud, text, v, text(u));
    } else if u == w && v in Reachable(rest, keys + {RefOf(w)}) {
      LoudLeaf(s, w, loud, text);
      assert s1.seen.Keys == keys + {RefOf(w)};
      assert loud * Reachable(rest, {}) <= {v};
      long := CanBeFinal(s1, rest, v, loud, text);
      LaterAlways(s, items, long, loud, text, v, text(u));
    } else {
      DropKeepsSafe(s, KeyOf(w));
      var more := SharersMeet(Apply(s, DropAttempts(KeyOf(w))), Halves(i) + rest, u, v, text);
      SplitAlways(s, items, more, loud, text, v, text(u));
      long := {w} + more;
    }
  }

  lemma NothingTogether(on: set<SourceRef>, u: Window, v: Window)
    ensures !Together(on, [], u, v)
  {
  }

  lemma {:induction false} WorkKeepsSafe(s: State, items: seq<Item>, world: World)
    requires NonEmpty(items) && Safe(s)
    ensures Safe(ApplyAll(s, Work(s, items, world).effects))
    decreases Measure(items)
  {
    hide Work, ApplyAll, ProcessLeaf, Measure, Safe;
    if items == [] {
      WorkOnNothing(s, world);
    } else {
      var (i, rest) := (items[0], items[1..]);
      WorkStep(s, items, world);
      if Splitting(s, i, world) {
        SplitShrinks(items);
        var s0 := Apply(s, DropAttempts(KeyOf(i.window)));
        DropKeepsSafe(s, KeyOf(i.window));
        WorkKeepsSafe(s0, Halves(i) + rest, world);
        ApplyCons(s, DropAttempts(KeyOf(i.window)), Work(s0, Halves(i) + rest, world).effects);
      } else {
        var leaf := ProcessLeaf(s, i.window, world(i.window));
        LeafKeepsSafe(s, i.window, world(i.window));
        if leaf.result.Done? {
          var s1 := ApplyAll(s, leaf.effects);
          RestShrinks(items);
          WorkKeepsSafe(s1, rest, world);
          ApplyAppend(s, leaf.effects, Work(s1, rest, world).effects);
        }
      }
    }
  }

  /** One message per source ref: a window shown with payload h, and sent with its own text, has text h. */
  lemma ShownTextIsOwn(
      s: State, items: seq<Item>, long: set<Window>, loud: set<Window>, text: Texts, v: Window, h: Hash)
    requires NonEmpty(items) && v.rows != [] && Safe(s) && AlwaysShows(s, items, long, loud, text, v, h)
    requires OwnTextsSent(s, items, Quiet(long, loud, text), text)
    ensures text(v) == h
  {
    hide Work, ApplyAll, Reachable;
    WorkKeepsSafe(s, items, Quiet(long, loud, text));
    assert long * Reachable(items, {}) == long;
    assert Shows(s, items, long, loud, text, v, h);
  }

  lemma ConditionIsNecessary(s: State, items: seq<Item>, text: Texts)
    requires NonEmpty(items) && DistinctRowsOf(RowsOfItems(items)) && Safe(s)
    requires forall world | Writes(world, text) :: OwnTextsSent(s, items, world, text)
    ensures KeepsTexts(s, items, text)
  {
    hide AlwaysShows, Reachable, Pieces, DistinctRowsOf, RowsOfItems, Safe, OwnTextsSent, Quiet, Together, Writes;
    forall v <- Reachable(items, s.seen.Keys) | v.rows != [] ensures FileAgreesOn(s, v, text) {
      if RefOf(v) in s.seen && !s.seen[RefOf(v)].Quarantined? {
        var long := CanBeFinal(s, items, v, {}, text);
        QuietWrites(long, {}, text);
        ShownTextIsOwn(s, items, long, {}, text, v, s.seen[RefOf(v)].hash);
      }
    }
    forall u, v | Together(s.seen.Keys, items, u, v) ensures Sharing(s, u, v) ==> text(u) == text(v) {
      if Sharing(s, u, v) {
        var long := SharersMeet(s, items, u, v, text);
        QuietWrites(long, {u, v}, text);
        ShownTextIsOwn(s, items, long, {u, v}, text, v, text(u));
      }
    }
  }

  // ----- a batch -----

  ghost predicate PassSendsOwnTexts(s: State, ws: seq<Window>, world: World, text: Texts)
    requires forall w <- ws :: w.rows != []
  {
    var out := ProcessAll(s, ws, world);
    forall l <- out.leaves :: l.window.rows != [] && l.ending.WasPublished? ==>
                                Message(RefOf(l.window), text(l.window)) in ApplyAll(s, out.effects).sent
  }

  lemma BatchIsWork(s: State, ws: seq<Window>, world: World, text: Texts)
    requires forall w <- ws :: w.rows != []
    ensures NonEmpty(ItemsOf(ws)) && PassSendsOwnTexts(s, ws, world, text) == OwnTextsSent(s, ItemsOf(ws), world, text)
  {
    hide Work, ProcessAll, ApplyAll;
    WorkIsProcessAll(s, ws, world);
  }

  /** For any batch of windows with rows of their own, any state the producer can be in and any texts:
      every final window that counts as published is sent with its own text, in every world that writes
      these texts, if and only if windows that can be final together and share a source ref have one
      text, and what is on file for a window that can be final is its own text or a quarantine. */
  lemma OwnTextsSentIff(s: State, ws: seq<Window>, text: Texts)
    requires (forall w <- ws :: w.rows != []) && Safe(s)
    requires DistinctRowsOf(RowsOfItems(ItemsOf(ws)))
    ensures NonEmpty(ItemsOf(ws))
    ensures (forall world | Writes(world, text) :: PassSendsOwnTexts(s, ws, world, text))
       <==> KeepsTexts(s, ItemsOf(ws), text)
  {
    hide Writes, PassSendsOwnTexts, OwnTextsSent, KeepsTexts, DistinctRowsOf, RowsOfItems, Safe;
    forall world
      ensures NonEmpty(ItemsOf(ws))
              && PassSendsOwnTexts(s, ws, world, text) == OwnTextsSent(s, ItemsOf(ws), world, text)
    {
      BatchIsWork(s, ws, world, text);
    }
    if KeepsTexts(s, ItemsOf(ws), text) {
      forall world | Writes(world, text) ensures PassSendsOwnTexts(s, ws, world, text) {
        ConditionIsEnough(s, ItemsOf(ws), world, text);
      }
    }
    if forall world | Writes(world, text) :: PassSendsOwnTexts(s, ws, world, text) {
      ConditionIsNecessary(s, ItemsOf(ws), text);
    }
  }

  /** Nothing but a quarantine is on file for a window that can be final, and no two windows that can be
      final together share a source ref. */
  ghost predicate NothingShared(s: State, items: seq<Item>)
    requires NonEmpty(items)
  {
    && (forall v <- Reachable(items, s.seen.Keys) ::
          v.rows != [] && RefOf(v) in s.seen ==> s.seen[RefOf(v)].Quarantined?)
    && forall u, v | Together(s.seen.Keys, items, u, v) :: Sharing(s, u, v) ==> u == v
  }

  /** So whatever the texts are: the condition is that nothing is shared. */
  lemma AllTextsSentIffNothingShared(s: State, ws: seq<Window>)
    requires (forall w <- ws :: w.rows != []) && Safe(s)
    requires DistinctRowsOf(RowsOfItems(ItemsOf(ws)))
    ensures NonEmpty(ItemsOf(ws))
    ensures (forall text, world | Writes(world, text) :: PassSendsOwnTexts(s, ws, world, text))
       <==> NothingShared(s, ItemsOf(ws))
  {
    hide Writes, PassSendsOwnTexts, KeepsTexts, NothingShared, DistinctRowsOf, RowsOfItems, Safe;
    if NothingShared(s, ItemsOf(ws)) {
      forall text, world | Writes(world, text) ensures PassSendsOwnTexts(s, ws, world, text) {
        OwnTextsSentIff(s, ws, text);
        NothingSharedKeeps(s, ItemsOf(ws), text);
      }
    }
    if forall text, world | Writes(world, text) :: PassSendsOwnTexts(s, ws, world, text) {
      forall text: Texts ensures KeepsTexts(s, ItemsOf(ws), text) {
        assert forall world | Writes(world, text) :: PassSendsOwnTexts(s, ws, world, text);
        OwnTextsSentIff(s, ws, text);
      }
      KeepingAllShares(s, ItemsOf(ws));
    }
  }

  lemma NothingSharedKeeps(s: State, items: seq<Item>, text: Texts)
    requires NonEmpty(items) && NothingShared(s, items)
    ensures KeepsTexts(s, items, text)
  {
    hide Together, Reachable;
  }

  lemma KeepingAllShares(s: State, items: seq<Item>)
    requires NonEmpty(items) && forall text: Texts :: KeepsTexts(s, items, text)
    ensures NothingShared(s, items)
  {
    hide Together, Reachable;
    forall v <- Reachable(items, s.seen.Keys) | v.rows != [] && RefOf(v) in s.seen
      ensures s.seen[RefOf(v)].Quarantined?
    {
      var h := if s.seen[RefOf(v)].Quarantined? then 0 else s.seen[RefOf(v)].hash;
      var other := (w: Window) => h + 1;
      assert KeepsTexts(s, items, other);
      assert FileAgreesOn(s, v, other) && other(v) == h + 1;
    }
    forall u, v | Together(s.seen.Keys, items, u, v) ensures Sharing(s, u, v) ==> u == v {
      var one := (w: Window) => if w == u then 1 else 0;
      assert KeepsTexts(s, items, one);
    }
  }

  // ----- message ids that do not repeat -----

  lemma {:induction false} PiecesAreParts(i: Item, on: set<SourceRef>, v: Window)
    requires OfOneChat(i.window) && v in Pieces(i, on)
    ensures PartOf(v, i.window)
    decreases |i.window.rows|
  {
    hide OfOneChat, PartOf;
    WholeIsPart(i.window);
    ChatsHaveRows(i.window);
    PieceCases(i, on);
    if v != i.window {
      HalvesAreParts(i);
      var (a, b) := (Halves(i)[0], Halves(i)[1]);
      PartIsOfOneChat(a.window, i.window);
      PartIsOfOneChat(b.window, i.window);
      if v in Pieces(a, on) {
        PiecesAreParts(a, on, v);
        PartsCompose(v, a.window, i.window);
      } else {
        PiecesAreParts(b, on, v);
        PartsCompose(v, b.window, i.window);
      }
    }
  }

  lemma {:induction false} ReachableAreParts(items: seq<Item>, on: set<SourceRef>, v: Window)
    requires NonEmpty(items) && OneChatEach(items) && v in Reachable(items, on)
    ensures exists k <- items :: PartOf(v, k.window)
  {
    hide Pieces, PartOf, OfOneChat;
    assert items[0] in items;
    if v in Pieces(items[0], on) {
      PiecesAreParts(items[0], on, v);
    } else {
      ReachableAreParts(items[1..], on, v);
    }
  }

  /** If no message id repeats within a chat, no two windows that can be final together share a source
      ref: what is left of the condition is about the state file. */
  lemma {:induction false} DistinctIdsShareNothing(on: set<SourceRef>, items: seq<Item>, u: Window, v: Window)
    requires NonEmpty(items) && OneChatEach(items) && DistinctIds(RowsOfItems(items)) && Together(on, items, u, v)
    ensures u.rows != [] && v.rows != [] && RefOf(u) != RefOf(v)
    decreases Measure(items)
  {
    hide Measure, Reachable, DistinctIds, RowsOfItems, PartOf, OfOneChat, RefOf;
    TogetherCases(on, items, u, v);
    hide Together;
    var (i, w, rest) := (items[0], items[0].window, items[1..]);
    assert i in items;
    ItemsSplit(items);
    if u == w && v in Reachable(rest, on + {RefOf(w)}) {
      ReachableAreParts(rest, on + {RefOf(w)}, v);
      var k :| k in rest && PartOf(v, k.window);
      PartIsOfOneChat(v, k.window);
      RestHasOtherRef(w, rest, k, v);
      ChatsHaveRows(v);
    } else if Together(on, rest, u, v) {
      DistinctParts(w.rows, RowsOfItems(rest));
      DistinctIdsShareNothing(on, rest, u, v);
    } else {
      HalvesAreParts(i);
      PartIsOfOneChat(FirstHalf(w), w);
      PartIsOfOneChat(SecondHalf(w), w);
      HalvesKeepRows(items);
      DistinctIdsShareNothing(on, Halves(i) + rest, u, v);
    }
  }

  lemma ChatsHaveRows(w: Window)
    requires OfOneChat(w)
    ensures w.rows != []
  {
  }
}
