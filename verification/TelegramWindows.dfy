/** Capture rows of the Telegram producer, the windows they are grouped into, how a window that is
    too long for the summarizer is split, and the keys under which failures are counted. */
module TelegramWindows {
  import opened Common
  import opened LineReader

  const MAX_CONTEXT_SPLIT_DEPTH := 4

  datatype SortTime = NoTime | Time(ms: int)

  /** A normalised capture row with a numeric message id. `ref` is its dedupe key, `time` its source
      time where that is usable. */
  datatype Row = Row(agent: string, chat: string, id: nat, ref: string, time: SortTime, line: Line)

  datatype Window = Window(agent: string, chat: string, rows: seq<Row>)

  /** `telegram:agent:chat:batch:first-last`. */
  datatype SourceRef = Batch(agent: string, chat: string, first: nat, last: nat)

  type AttemptKey = seq<string>

  function RefOf(w: Window): SourceRef
    requires w.rows != []
  {
    Batch(w.agent, w.chat, w.rows[0].id, w.rows[|w.rows| - 1].id)
  }

  function Refs(rows: seq<Row>): (r: seq<string>)
    ensures |r| == |rows| && forall i :: 0 <= i < |r| ==> r[i] == rows[i].ref
  {
    seq(|rows|, i requires 0 <= i < |rows| => rows[i].ref)
  }

  /** `windowAttemptKey`: a hash of the joined dedupe keys, here the keys themselves. */
  function KeyOf(w: Window): AttemptKey {
    Refs(w.rows)
  }

  /** What windows are told apart by: the source ref by agent, chat, first and last message id, the attempt key by
      the dedupe keys in their order. */
  lemma WindowIdentity(v: Window, w: Window)
    requires v.rows != [] && w.rows != []
    ensures RefOf(v) == RefOf(w)
       <==> v.agent == w.agent && v.chat == w.chat && v.rows[0].id == w.rows[0].id
            && v.rows[|v.rows| - 1].id == w.rows[|w.rows| - 1].id
    ensures KeyOf(v) == KeyOf(w)
       <==> |v.rows| == |w.rows| && forall i :: 0 <= i < |v.rows| ==> v.rows[i].ref == w.rows[i].ref
  {
    assert KeyOf(v) == KeyOf(w) ==> forall i :: 0 <= i < |v.rows| ==> KeyOf(v)[i] == KeyOf(w)[i];
  }

  // ----- buildWindows -----

  /** The comparator of the group sort: usable times first, in order, then message ids. */
  predicate Before(a: Row, b: Row) {
    if a.time.NoTime? && b.time.NoTime? then a.id < b.id
    else if a.time.NoTime? then false
    else if b.time.NoTime? then true
    else if a.time.ms != b.time.ms then a.time.ms < b.time.ms
    else a.id < b.id
  }

  ghost predicate Sorted(rows: seq<Row>) {
    forall i, j :: 0 <= i < j < |rows| ==> !Before(rows[j], rows[i])
  }

  /** Inserts after the rows it does not come before, which keeps the sort stable. */
  function InsertRow(x: Row, rows: seq<Row>): (r: seq<Row>)
    ensures multiset(r) == multiset(rows) + multiset{x}
  {
    if rows == [] then [x]
    else if Before(x, rows[0]) then [x] + rows
    else
      assert rows == [rows[0]] + rows[1..];
      [rows[0]] + InsertRow(x, rows[1..])
  }

  function SortRows(rows: seq<Row>): (r: seq<Row>)
    ensures multiset(r) == multiset(rows)
  {
    if rows == [] then []
    else
      assert rows == rows[..|rows| - 1] + [rows[|rows| - 1]];
      InsertRow(rows[|rows| - 1], SortRows(rows[..|rows| - 1]))
  }

  lemma {:induction false} InsertRowSorted(x: Row, rows: seq<Row>)
    requires Sorted(rows)
    ensures Sorted(InsertRow(x, rows))
  {
    if rows != [] && !Before(x, rows[0]) {
      InsertRowSorted(x, rows[1..]);
      var r := InsertRow(x, rows[1..]);
      forall j | 0 <= j < |r| ensures !Before(r[j], rows[0]) {
        assert r[j] in multiset(r);
        assert r[j] == x || r[j] in rows[1..];
      }
    }
  }

  lemma {:induction false} SortRowsSorted(rows: seq<Row>)
    ensures Sorted(SortRows(rows))
  {
    if rows != [] {
      SortRowsSorted(rows[..|rows| - 1]);
      InsertRowSorted(rows[|rows| - 1], SortRows(rows[..|rows| - 1]));
    }
  }

  /** A group of the insertion-ordered map from (agent, chat) to its rows. */
  datatype Group = Group(agent: string, chat: string, rows: seq<Row>)

  predicate Owns(agent: string, chat: string, rows: seq<Row>) {
    forall r <- rows :: r.agent == agent && r.chat == chat
  }

  function AddToGroups(groups: seq<Group>, r: Row): seq<Group> {
    if groups == [] then [Group(r.agent, r.chat, [r])]
    else if groups[0].agent == r.agent && groups[0].chat == r.chat then
      [groups[0].(rows := groups[0].rows + [r])] + groups[1..]
    else [groups[0]] + AddToGroups(groups[1..], r)
  }

  function GroupRows(rows: seq<Row>): seq<Group> {
    if rows == [] then [] else AddToGroups(GroupRows(rows[..|rows| - 1]), rows[|rows| - 1])
  }

  function Cut(agent: string, chat: string, rows: seq<Row>, n: nat): (ws: seq<Window>)
    requires n > 0
  {
    if rows == [] then []
    else if |rows| <= n then [Window(agent, chat, rows)]
    else [Window(agent, chat, rows[..n])] + Cut(agent, chat, rows[n..], n)
  }

  function CutGroups(groups: seq<Group>, n: nat): seq<Window>
    requires n > 0
  {
    if groups == [] then []
    else
      var g := groups[|groups| - 1];
      CutGroups(groups[..|groups| - 1], n) + Cut(g.agent, g.chat, SortRows(g.rows), n)
  }

  function BuildWindows(rows: seq<Row>, n: nat): seq<Window>
    requires n > 0
  {
    CutGroups(GroupRows(rows), n)
  }

  /** The loops of `buildWindows`. */
  method BuildWindowsLoop(rows: seq<Row>, maxRecordsPerWindow: nat) returns (windows: seq<Window>)
    requires maxRecordsPerWindow > 0
    ensures windows == BuildWindows(rows, maxRecordsPerWindow)
  {
    hide AddToGroups, SortRows, Cut;
    var groups: seq<Group> := [];
    for i := 0 to |rows|
      invariant groups == GroupRows(rows[..i])
    {
      assert rows[..i + 1][..i] == rows[..i];
      groups := AddToGroups(groups, rows[i]);
    }
    assert rows[..|rows|] == rows;
    windows := [];
    for g := 0 to |groups|
      invariant windows == CutGroups(groups[..g], maxRecordsPerWindow)
    {
      assert groups[..g + 1][..g] == groups[..g];
      var group := SortRows(groups[g].rows);
      var chunks := CutLoop(groups[g].agent, groups[g].chat, group, maxRecordsPerWindow);
      windows := windows + chunks;
    }
    assert groups[..|groups|] == groups;
  }

  /** The inner loop, over one sorted group. */
  method CutLoop(agent: string, chat: string, group: seq<Row>, n: nat) returns (windows: seq<Window>)
    requires n > 0
    ensures windows == Cut(agent, chat, group, n)
  {
    hide Cut;
    windows := [];
    var i := 0;
    while i < |group|
      invariant i <= |group|
      invariant windows + Cut(agent, chat, group[i..], n) == Cut(agent, chat, group, n)
    {
      var end := Min(i + n, |group|);
      CutFirst(agent, chat, group, i, n);
      windows := windows + [Window(agent, chat, group[i..end])];
      i := end;
    }
    CutNothing(agent, chat, n);
    assert group[i..] == [];
  }

  lemma CutFirst(agent: string, chat: string, group: seq<Row>, i: nat, n: nat)
    requires n > 0 && i < |group|
    ensures var end := Min(i + n, |group|);
            Cut(agent, chat, group[i..], n) == [Window(agent, chat, group[i..end])] + Cut(agent, chat, group[end..], n)
  {
    var rest := group[i..];
    if |rest| > n {
      assert rest[..n] == group[i..i + n] && rest[n..] == group[i + n..];
    } else {
      assert group[i..|group|] == rest && group[|group|..] == [];
    }
  }

  lemma CutNothing(agent: string, chat: string, n: nat)
    requires n > 0
    ensures Cut(agent, chat, [], n) == []
  {
  }

  function RowsOf(windows: seq<Window>): seq<Row> {
    if windows == [] then [] else RowsOf(windows[..|windows| - 1]) + windows[|windows| - 1].rows
  }

  lemma RowsOfSnoc(ws: seq<Window>, w: Window)
    ensures RowsOf(ws + [w]) == RowsOf(ws) + w.rows
  {
    assert (ws + [w])[..|ws|] == ws;
  }

  lemma RowsOfNothing()
    ensures RowsOf([]) == []
  {
  }

  lemma {:induction false} RowsOfAppend(a: seq<Window>, b: seq<Window>)
    ensures RowsOf(a + b) == RowsOf(a) + RowsOf(b)
  {
    hide RowsOf;
    if b == [] {
      RowsOfNothing();
      assert a + b == a;
    } else {
      var (init, w) := (b[..|b| - 1], b[|b| - 1]);
      assert a + b == (a + init) + [w] && b == init + [w];
      calc {
        RowsOf(a + b);
        { RowsOfSnoc(a + init, w); }
        RowsOf(a + init) + w.rows;
        { RowsOfAppend(a, init); }
        RowsOf(a) + RowsOf(init) + w.rows;
        RowsOf(a) + (RowsOf(init) + w.rows);
        { RowsOfSnoc(init, w); }
        RowsOf(a) + RowsOf(b);
      }
    }
  }

  lemma RowsOfOne(w: Window)
    ensures RowsOf([w]) == w.rows
  {
    RowsOfSnoc([], w);
    assert [] + [w] == [w];
  }

  lemma {:induction false} CutKeepsRows(agent: string, chat: string, rows: seq<Row>, n: nat)
    requires n > 0
    ensures RowsOf(Cut(agent, chat, rows, n)) == rows
  {
    hide RowsOf;
    RowsOfNothing();
    if 0 < |rows| <= n {
      RowsOfOne(Window(agent, chat, rows));
    } else if rows != [] {
      CutKeepsRows(agent, chat, rows[n..], n);
      RowsOfAppend([Window(agent, chat, rows[..n])], Cut(agent, chat, rows[n..], n));
      RowsOfOne(Window(agent, chat, rows[..n]));
      assert rows == rows[..n] + rows[n..];
    }
  }

  ghost function GroupedRows(groups: seq<Group>): multiset<Row> {
    if groups == [] then multiset{} else multiset(groups[0].rows) + GroupedRows(groups[1..])
  }

  lemma {:induction false} AddKeepsRows(groups: seq<Group>, r: Row)
    requires forall g <- groups :: Owns(g.agent, g.chat, g.rows)
    ensures forall g <- AddToGroups(groups, r) :: Owns(g.agent, g.chat, g.rows)
    ensures GroupedRows(AddToGroups(groups, r)) == GroupedRows(groups) + multiset{r}
  {
    if groups != [] && !(groups[0].agent == r.agent && groups[0].chat == r.chat) {
      AddKeepsRows(groups[1..], r);
      assert AddToGroups(groups, r)[1..] == AddToGroups(groups[1..], r);
    }
  }

  lemma {:induction false} GroupsKeepRows(rows: seq<Row>)
    ensures forall g <- GroupRows(rows) :: Owns(g.agent, g.chat, g.rows)
    ensures GroupedRows(GroupRows(rows)) == multiset(rows)
  {
    if rows != [] {
      GroupsKeepRows(rows[..|rows| - 1]);
      AddKeepsRows(GroupRows(rows[..|rows| - 1]), rows[|rows| - 1]);
      assert rows == rows[..|rows| - 1] + [rows[|rows| - 1]];
    }
  }

  lemma {:induction false} GroupedSnoc(groups: seq<Group>, g: Group)
    ensures GroupedRows(groups + [g]) == GroupedRows(groups) + multiset(g.rows)
  {
    if groups != [] {
      GroupedSnoc(groups[1..], g);
      assert (groups + [g])[1..] == groups[1..] + [g];
    } else {
      assert ([] + [g])[1..] == [];
    }
  }

  lemma {:induction false} CutGroupsKeepRows(groups: seq<Group>, n: nat)
    requires n > 0
    ensures multiset(RowsOf(CutGroups(groups, n))) == GroupedRows(groups)
  {
    if groups != [] {
      var (init, g) := (groups[..|groups| - 1], groups[|groups| - 1]);
      CutGroupsKeepRows(init, n);
      GroupedSnoc(init, g);
      assert groups == init + [g];
      RowsOfAppend(CutGroups(init, n), Cut(g.agent, g.chat, SortRows(g.rows), n));
      CutKeepsRows(g.agent, g.chat, SortRows(g.rows), n);
    }
  }

  /** A well-formed window: rows of one agent and chat, at least one and at most n, in order. */
  ghost predicate GoodWindow(w: Window, n: nat) {
    0 < |w.rows| <= n && Owns(w.agent, w.chat, w.rows) && Sorted(w.rows)
  }

  lemma {:induction false} CutGood(agent: string, chat: string, rows: seq<Row>, n: nat)
    requires n > 0 && Owns(agent, chat, rows) && Sorted(rows)
    ensures forall w <- Cut(agent, chat, rows, n) :: GoodWindow(w, n)
  {
    if |rows| > n {
      CutGood(agent, chat, rows[n..], n);
      assert forall r <- rows[..n] :: r in rows;
    }
  }

  lemma {:induction false} CutGroupsGood(groups: seq<Group>, n: nat)
    requires n > 0 && forall g <- groups :: Owns(g.agent, g.chat, g.rows)
    ensures forall w <- CutGroups(groups, n) :: GoodWindow(w, n)
  {
    if groups != [] {
      var (init, g) := (groups[..|groups| - 1], groups[|groups| - 1]);
      CutGroupsGood(init, n);
      SortRowsSorted(g.rows);
      forall r <- SortRows(g.rows) ensures r.agent == g.agent && r.chat == g.chat {
        assert r in multiset(SortRows(g.rows));
        assert g in groups;
      }
      CutGood(g.agent, g.chat, SortRows(g.rows), n);
    }
  }

  /** Windowing conserves rows: each is in exactly one window, and every window holds at most n rows
      of one agent and chat, in sort order. */
  lemma WindowsConserveRows(rows: seq<Row>, n: nat)
    requires n > 0
    ensures multiset(RowsOf(BuildWindows(rows, n))) == multiset(rows)
    ensures forall w <- BuildWindows(rows, n) :: GoodWindow(w, n)
  {
    GroupsKeepRows(rows);
    CutGroupsKeepRows(GroupRows(rows), n);
    CutGroupsGood(GroupRows(rows), n);
  }

  // ----- splitting -----

  /** The two halves of `splitWindow`; the first gets the odd row. */
  function FirstHalf(w: Window): (c: Window)
    requires |w.rows| > 1
    ensures 0 < |c.rows| < |w.rows|
  {
    w.(rows := w.rows[..(|w.rows| + 1) / 2])
  }

  function SecondHalf(w: Window): (c: Window)
    requires |w.rows| > 1
    ensures 0 < |c.rows| < |w.rows|
  {
    w.(rows := w.rows[(|w.rows| + 1) / 2..])
  }

  lemma HalvesConserve(w: Window)
    requires |w.rows| > 1
    ensures FirstHalf(w).rows + SecondHalf(w).rows == w.rows
    ensures 0 < |FirstHalf(w).rows| < |w.rows| && 0 < |SecondHalf(w).rows| < |w.rows|
    ensures |FirstHalf(w).rows| - |SecondHalf(w).rows| == |w.rows| % 2
  {
  }

  predicate MaySplit(w: Window, depth: nat) {
    |w.rows| > 1 && depth < MAX_CONTEXT_SPLIT_DEPTH
  }

  /** Keys of the windows that processing w may ever count a failure for. */
  function PendingKeys(w: Window, depth: nat): set<AttemptKey>
    decreases |w.rows|
  {
    {KeyOf(w)} + if MaySplit(w, depth) then PendingKeys(FirstHalf(w), depth + 1) + PendingKeys(SecondHalf(w), depth + 1)
                 else {}
  }

  /** `addPendingAttemptKeysForWindow`. */
  method AddPendingKeys(w: Window, pending: set<AttemptKey>, depth: nat) returns (r: set<AttemptKey>)
    ensures r == pending + PendingKeys(w, depth)
    decreases |w.rows|
  {
    r := pending + {KeyOf(w)};
    if |w.rows| <= 1 || depth >= MAX_CONTEXT_SPLIT_DEPTH {
      return;
    }
    r := AddPendingKeys(FirstHalf(w), r, depth + 1);
    r := AddPendingKeys(SecondHalf(w), r, depth + 1);
  }

  function AllPendingKeys(ws: seq<Window>): set<AttemptKey> {
    if ws == [] then {} else AllPendingKeys(ws[..|ws| - 1]) + PendingKeys(ws[|ws| - 1], 0)
  }

  /** The part of `collectPendingAttemptKeys` for one file. */
  method CollectPendingKeys(ws: seq<Window>) returns (pending: set<AttemptKey>)
    ensures pending == AllPendingKeys(ws)
  {
    pending := {};
    for i := 0 to |ws|
      invariant pending == AllPendingKeys(ws[..i])
    {
      assert ws[..i + 1][..i] == ws[..i];
      pending := AddPendingKeys(ws[i], pending, 0);
    }
    assert ws[..|ws|] == ws;
  }

  lemma {:induction false} PendingOfWindow(ws: seq<Window>, i: nat)
    requires i < |ws|
    ensures PendingKeys(ws[i], 0) <= AllPendingKeys(ws)
  {
    if i < |ws| - 1 {
      PendingOfWindow(ws[..|ws| - 1], i);
    }
  }
}
