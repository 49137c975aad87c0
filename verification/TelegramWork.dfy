/** A pass over a batch as one list of windows still to be handled: splitting a window puts its halves in
    its place. This is the same as the recursive descent, and easier to reason about. */
module TelegramWork {
  import opened TelegramWindows
  import opened TelegramProducer

  /** A window still to be handled, and how often it was split from a window of the batch. */
  datatype Item = Item(window: Window, depth: nat)

  ghost predicate NonEmpty(items: seq<Item>) {
    forall i <- items :: i.window.rows != []
  }

  ghost function Measure(items: seq<Item>): nat
    requires NonEmpty(items)
  {
    if items == [] then 0 else 2 * |items[0].window.rows| - 1 + Measure(items[1..])
  }

  ghost function Halves(i: Item): (halves: seq<Item>)
    requires |i.window.rows| > 1
    ensures NonEmpty(halves)
  {
    [Item(FirstHalf(i.window), i.depth + 1), Item(SecondHalf(i.window), i.depth + 1)]
  }

  lemma SplitShrinks(items: seq<Item>)
    requires items != [] && NonEmpty(items) && |items[0].window.rows| > 1
    ensures NonEmpty(Halves(items[0]) + items[1..])
    ensures Measure(Halves(items[0]) + items[1..]) == Measure(items) - 1
  {
    var (halves, rest) := (Halves(items[0]), items[1..]);
    var all := halves + rest;
    assert all[1..] == [halves[1]] + rest && all[1..][1..] == rest;
    HalvesConserve(items[0].window);
  }

  ghost predicate Splitting(s: State, i: Item, world: World)
    requires i.window.rows != []
  {
    IsSplit(s, i.window, i.depth, world(i.window))
  }

  ghost function Work(s: State, items: seq<Item>, world: World): Outcome
    requires NonEmpty(items)
    decreases Measure(items)
  {
    if items == [] then Outcome([], Done(0, 0, 0), [])
    else
      var i := items[0];
      if Splitting(s, i, world) then
        SplitShrinks(items);
        var drop := DropAttempts(KeyOf(i.window));
        Dropped(drop, Work(Apply(s, drop), Halves(i) + items[1..], world))
      else
        var leaf := ProcessLeaf(s, i.window, world(i.window));
        if leaf.result.Threw? then leaf else Both(leaf, Work(ApplyAll(s, leaf.effects), items[1..], world))
  }

  ghost function Dropped(drop: Effect, out: Outcome): Outcome {
    out.(effects := [drop] + out.effects)
  }

  /** First one part of the work, then the rest unless the first part threw. */
  ghost function Then(s: State, out: Outcome, rest: seq<Item>, world: World): Outcome
    requires NonEmpty(rest)
  {
    if out.result.Threw? then out else Both(out, Work(ApplyAll(s, out.effects), rest, world))
  }

  lemma WorkStep(s: State, items: seq<Item>, world: World)
    requires items != [] && NonEmpty(items)
    ensures var (i, rest) := (items[0], items[1..]);
            if Splitting(s, i, world) then
              var drop := DropAttempts(KeyOf(i.window));
              |i.window.rows| > 1 && NonEmpty(Halves(i) + rest)
              && Work(s, items, world) == Dropped(drop, Work(Apply(s, drop), Halves(i) + rest, world))
            else Work(s, items, world) == Then(s, ProcessLeaf(s, i.window, world(i.window)), rest, world)
  {
    hide ProcessLeaf, Both;
  }

  /** The outcome of a split window, whatever comes after it. */
  lemma SplitThen(s: State, drop: Effect, first: Outcome, second: Outcome, rest: seq<Item>, world: World)
    requires NonEmpty(rest)
    ensures first.result.Threw? ==> Dropped(drop, first) == Then(s, Dropped(drop, first), rest, world)
    ensures var s0 := Apply(s, drop);
            first.result.Done? ==>
              Dropped(drop, Both(first, Then(ApplyAll(s0, first.effects), second, rest, world)))
              == Then(s, Dropped(drop, Both(first, second)), rest, world)
  {
    hide Work, ApplyAll;
    var s0 := Apply(s, drop);
    if first.result.Done? && second.result.Done? {
      ApplyCons(s, drop, first.effects + second.effects);
      ApplyAppend(s0, first.effects, second.effects);
      var s2 := ApplyAll(ApplyAll(s0, first.effects), second.effects);
      var last := Work(s2, rest, world);
      BothAssociates(first, second, last);
      assert [drop] + ((first.effects + second.effects) + last.effects)
          == ([drop] + (first.effects + second.effects)) + last.effects;
    }
  }

  lemma {:induction false} WorkFront(s: State, i: Item, rest: seq<Item>, world: World)
    requires i.window.rows != [] && NonEmpty(rest)
    ensures Work(s, [i] + rest, world) == Then(s, Process(s, i.window, i.depth, world), rest, world)
    decreases |i.window.rows|
  {
    hide Work, ProcessLeaf, Both, ApplyAll, Then, Dropped;
    assert ([i] + rest)[1..] == rest;
    WorkStep(s, [i] + rest, world);
    if Splitting(s, i, world) {
      var drop := DropAttempts(KeyOf(i.window));
      var s0 := Apply(s, drop);
      var (a, b) := (Halves(i)[0], Halves(i)[1]);
      assert Halves(i) + rest == [a] + ([b] + rest);
      var first := Process(s0, a.window, a.depth, world);
      WorkFront(s0, a, [b] + rest, world);
      SplitCases(s, i.window, i.depth, world);
      if first.result.Threw? {
        SplitThen(s, drop, first, first, rest, world);
        ThenCases(s0, first, [b] + rest, world);
      } else {
        var s1 := ApplyAll(s0, first.effects);
        var second := Process(s1, b.window, b.depth, world);
        WorkFront(s1, b, rest, world);
        SplitThen(s, drop, first, second, rest, world);
        ThenCases(s0, first, [b] + rest, world);
      }
    }
  }

  lemma ThenCases(s: State, out: Outcome, rest: seq<Item>, world: World)
    requires NonEmpty(rest)
    ensures Then(s, out, rest, world)
         == if out.result.Threw? then out else Both(out, Work(ApplyAll(s, out.effects), rest, world))
  {
    hide Work, Both;
  }

  lemma SplitCases(s: State, w: Window, depth: nat, world: World)
    requires w.rows != [] && IsSplit(s, w, depth, world(w))
    ensures var drop := DropAttempts(KeyOf(w));
            var s0 := Apply(s, drop);
            var first := Process(s0, FirstHalf(w), depth + 1, world);
            Process(s, w, depth, world)
            == Dropped(drop, if first.result.Threw? then first
                             else Both(first, Process(ApplyAll(s0, first.effects), SecondHalf(w), depth + 1, world)))
  {
    hide ApplyAll;
  }

  function ItemsOf(ws: seq<Window>): seq<Item> {
    seq(|ws|, k requires 0 <= k < |ws| => Item(ws[k], 0))
  }

  /** A pass over a batch is the work on its windows. */
  lemma {:induction false} WorkIsProcessAll(s: State, ws: seq<Window>, world: World)
    requires forall w <- ws :: w.rows != []
    ensures NonEmpty(ItemsOf(ws)) && Work(s, ItemsOf(ws), world) == ProcessAll(s, ws, world)
    decreases |ws|
  {
    hide Process, ApplyAll, Both;
    if ws != [] {
      var first := Process(s, ws[0], 0, world);
      assert ItemsOf(ws) == [Item(ws[0], 0)] + ItemsOf(ws[1..]);
      WorkFront(s, Item(ws[0], 0), ItemsOf(ws[1..]), world);
      if first.result.Done? {
        WorkIsProcessAll(ApplyAll(s, first.effects), ws[1..], world);
      }
    }
  }

  // ----- rows -----

  ghost function RowsOfItems(items: seq<Item>): seq<Row> {
    if items == [] then [] else items[0].window.rows + RowsOfItems(items[1..])
  }

  lemma ItemsSplit(items: seq<Item>)
    requires items != []
    ensures RowsOfItems(items) == items[0].window.rows + RowsOfItems(items[1..])
  {
  }

  lemma HalvesKeepRows(items: seq<Item>)
    requires items != [] && |items[0].window.rows| > 1
    ensures RowsOfItems(Halves(items[0]) + items[1..]) == RowsOfItems(items)
  {
    hide RowsOfItems;
    var (h, rest) := (Halves(items[0]), items[1..]);
    ItemsSplit(items);
    ItemsSplit(h + rest);
    assert (h + rest)[1..] == [h[1]] + rest && ([h[1]] + rest)[1..] == rest;
    ItemsSplit([h[1]] + rest);
    HalvesConserve(items[0].window);
    var (a, b, r) := (h[0].window.rows, h[1].window.rows, RowsOfItems(rest));
    assert a + (b + r) == (a + b) + r;
  }

  lemma {:induction false} InRowsOfItems(items: seq<Item>, i: Item, x: Row)
    requires i in items && x in i.window.rows
    ensures x in RowsOfItems(items)
  {
    if i != items[0] {
      InRowsOfItems(items[1..], i, x);
    }
  }

  lemma {:induction false} RowsOfBatch(ws: seq<Window>)
    ensures RowsOfItems(ItemsOf(ws)) == RowsOf(ws)
  {
    hide RowsOf, RowsOfItems;
    if ws == [] {
      RowsOfNothing();
      NoItemsNoRows();
    } else {
      assert ItemsOf(ws)[0] == Item(ws[0], 0) && ItemsOf(ws)[1..] == ItemsOf(ws[1..]);
      ItemsSplit(ItemsOf(ws));
      RowsOfBatch(ws[1..]);
      RowsOfFront(ws);
    }
  }

  lemma NoItemsNoRows()
    ensures ItemsOf([]) == [] && RowsOfItems([]) == []
  {
  }
}
