/** The order of the windows of a batch: chats as they were first read, rows by time and message id, every
    window but the last of a chat full. */
module TelegramOrder {
  import opened TelegramWindows

  predicate OfChat(r: Row, agent: string, chat: string) {
    r.agent == agent && r.chat == chat
  }

  /** Row x may stand before row y: rows with a usable time come first, in the order of their times, those
      of one time and those without by message id. */
  ghost predicate InOrder(x: Row, y: Row) {
    && (y.time.Time? ==> x.time.Time?)
    && (x.time.Time? && y.time.Time? ==> x.time.ms < y.time.ms || (x.time.ms == y.time.ms && x.id <= y.id))
    && (x.time.NoTime? && y.time.NoTime? ==> x.id <= y.id)
  }

  ghost predicate AllInOrder(rows: seq<Row>) {
    forall i, j :: 0 <= i < j < |rows| ==> InOrder(rows[i], rows[j])
  }

  /** The rows of one chat, in the order they were read. */
  function RowsOfChat(rows: seq<Row>, agent: string, chat: string): seq<Row> {
    if rows == [] then []
    else
      var r := rows[|rows| - 1];
      RowsOfChat(rows[..|rows| - 1], agent, chat) + if OfChat(r, agent, chat) then [r] else []
  }

  /** A row of the first chat was read before any row of the second. */
  ghost predicate ReadFirst(rows: seq<Row>, a: Group, b: Group) {
    exists p :: 0 <= p < |rows| && OfChat(rows[p], a.agent, a.chat)
                && forall q :: 0 <= q <= p ==> !OfChat(rows[q], b.agent, b.chat)
  }

  // ----- the groups -----

  ghost predicate SameChat(a: Group, b: Group) {
    a.agent == b.agent && a.chat == b.chat
  }

  /** One group for each chat, with its rows, chats in the order in which they were first read. */
  ghost predicate Grouped(rows: seq<Row>, groups: seq<Group>) {
    && (forall g <- groups :: g.rows != [] && g.rows == RowsOfChat(rows, g.agent, g.chat))
    && (forall r <- rows :: exists g <- groups :: OfChat(r, g.agent, g.chat))
    && forall i, j :: 0 <= i < j < |groups| ==> !SameChat(groups[i], groups[j]) && ReadFirst(rows, groups[i], groups[j])
  }

  lemma {:induction false} JoinsGroup(groups: seq<Group>, r: Row, k: nat)
    requires k < |groups| && OfChat(r, groups[k].agent, groups[k].chat)
    requires forall i :: 0 <= i < k ==> !OfChat(r, groups[i].agent, groups[i].chat)
    ensures AddToGroups(groups, r) == groups[k := groups[k].(rows := groups[k].rows + [r])]
    decreases k
  {
    if k > 0 {
      JoinsGroup(groups[1..], r, k - 1);
    }
  }

  lemma {:induction false} OpensGroup(groups: seq<Group>, r: Row)
    requires forall g <- groups :: !OfChat(r, g.agent, g.chat)
    ensures AddToGroups(groups, r) == groups + [Group(r.agent, r.chat, [r])]
    decreases |groups|
  {
    if groups != [] {
      OpensGroup(groups[1..], r);
    }
  }

  lemma ReadFirstStays(rows: seq<Row>, r: Row, a: Group, b: Group)
    requires ReadFirst(rows, a, b)
    ensures ReadFirst(rows + [r], a, b)
  {
    var p :| 0 <= p < |rows| && OfChat(rows[p], a.agent, a.chat)
             && forall q :: 0 <= q <= p ==> !OfChat(rows[q], b.agent, b.chat);
    assert (rows + [r])[p] == rows[p];
  }

  lemma {:induction false} RowsOfChatAre(rows: seq<Row>, agent: string, chat: string)
    ensures forall r :: r in RowsOfChat(rows, agent, chat) <==> r in rows && OfChat(r, agent, chat)
  {
    if rows != [] {
      RowsOfChatAre(rows[..|rows| - 1], agent, chat);
      assert rows == rows[..|rows| - 1] + [rows[|rows| - 1]];
    }
  }

  lemma {:induction false} NoneOfChat(rows: seq<Row>, agent: string, chat: string)
    requires forall r <- rows :: !OfChat(r, agent, chat)
    ensures RowsOfChat(rows, agent, chat) == []
  {
    if rows != [] {
      NoneOfChat(rows[..|rows| - 1], agent, chat);
    }
  }

  lemma RowsOfChatSnoc(rows: seq<Row>, r: Row, agent: string, chat: string)
    ensures RowsOfChat(rows + [r], agent, chat)
         == RowsOfChat(rows, agent, chat) + if OfChat(r, agent, chat) then [r] else []
  {
    assert (rows + [r])[..|rows|] == rows;
  }

  lemma JoinKeepsGrouped(rows: seq<Row>, r: Row, groups: seq<Group>, k: nat)
    requires Grouped(rows, groups) && k < |groups| && OfChat(r, groups[k].agent, groups[k].chat)
    ensures Grouped(rows + [r], groups[k := groups[k].(rows := groups[k].rows + [r])])
  {
    hide RowsOfChat, ReadFirst;
    var next := groups[k := groups[k].(rows := groups[k].rows + [r])];
    forall i | 0 <= i < |next|
      ensures next[i].rows != [] && next[i].rows == RowsOfChat(rows + [r], next[i].agent, next[i].chat)
    {
      assert groups[i] in groups;
      assert i != k ==> !SameChat(groups[i], groups[k]);
      RowsOfChatSnoc(rows, r, next[i].agent, next[i].chat);
    }
    forall x <- rows + [r] ensures exists g <- next :: OfChat(x, g.agent, g.chat) {
      var i :| 0 <= i < |groups| && OfChat(x, groups[i].agent, groups[i].chat);
      assert next[i] in next && OfChat(x, next[i].agent, next[i].chat);
    }
    forall i, j | 0 <= i < j < |next|
      ensures !SameChat(next[i], next[j]) && ReadFirst(rows + [r], next[i], next[j])
    {
      ReadFirstStays(rows, r, groups[i], groups[j]);
      ReadFirstSame(rows + [r], groups[i], groups[j], next[i], next[j]);
    }
  }

  lemma ReadFirstSame(rows: seq<Row>, a: Group, b: Group, a': Group, b': Group)
    requires ReadFirst(rows, a, b) && SameChat(a, a') && SameChat(b, b')
    ensures ReadFirst(rows, a', b')
  {
  }

  lemma OpenKeepsGrouped(rows: seq<Row>, r: Row, groups: seq<Group>)
    requires Grouped(rows, groups) && forall g <- groups :: !OfChat(r, g.agent, g.chat)
    ensures Grouped(rows + [r], groups + [Group(r.agent, r.chat, [r])])
  {
    hide RowsOfChat, ReadFirst;
    var g := Group(r.agent, r.chat, [r]);
    var next := groups + [g];
    forall x <- rows ensures !OfChat(x, r.agent, r.chat) {
      var h :| h in groups && OfChat(x, h.agent, h.chat);
      assert !OfChat(r, h.agent, h.chat);
    }
    NoneOfChat(rows, r.agent, r.chat);
    forall h <- next ensures h.rows != [] && h.rows == RowsOfChat(rows + [r], h.agent, h.chat) {
      RowsOfChatSnoc(rows, r, h.agent, h.chat);
      assert h in groups || h == g;
    }
    forall x <- rows + [r] ensures exists h <- next :: OfChat(x, h.agent, h.chat) {
      if x in rows {
        var h :| h in groups && OfChat(x, h.agent, h.chat);
        assert h in next;
      } else {
        assert g in next && OfChat(x, g.agent, g.chat);
      }
    }
    forall i, j | 0 <= i < j < |next|
      ensures !SameChat(next[i], next[j]) && ReadFirst(rows + [r], next[i], next[j])
    {
      if j < |groups| {
        ReadFirstStays(rows, r, groups[i], groups[j]);
      } else {
        NewIsReadLast(rows, r, groups[i]);
      }
    }
  }

  lemma NewIsReadLast(rows: seq<Row>, r: Row, a: Group)
    requires a.rows != [] && a.rows == RowsOfChat(rows, a.agent, a.chat)
    requires (forall x <- rows :: !OfChat(x, r.agent, r.chat)) && !OfChat(r, a.agent, a.chat)
    ensures !SameChat(a, Group(r.agent, r.chat, [r])) && ReadFirst(rows + [r], a, Group(r.agent, r.chat, [r]))
  {
    RowsOfChatAre(rows, a.agent, a.chat);
    assert a.rows[0] in rows;
    var p :| 0 <= p < |rows| && rows[p] == a.rows[0];
    assert (rows + [r])[p] == rows[p];
  }

  lemma {:induction false} GroupRowsGroups(rows: seq<Row>)
    ensures Grouped(rows, GroupRows(rows))
  {
    hide AddToGroups;
    if rows != [] {
      var (init, r) := (rows[..|rows| - 1], rows[|rows| - 1]);
      var groups := GroupRows(init);
      GroupRowsGroups(init);
      assert rows == init + [r];
      if k :| 0 <= k < |groups| && OfChat(r, groups[k].agent, groups[k].chat) {
        forall i | 0 <= i < k ensures !OfChat(r, groups[i].agent, groups[i].chat) {
          assert !SameChat(groups[i], groups[k]);
        }
        JoinsGroup(groups, r, k);
        JoinKeepsGrouped(init, r, groups, k);
      } else {
        OpensGroup(groups, r);
        OpenKeepsGrouped(init, r, groups);
      }
    }
  }

  // ----- the windows of one group -----

  /** The windows of one chat, from sorted rows: all but the last are full, none reaches back behind another. */
  ghost predicate InTurn(u: Window, v: Window, n: nat) {
    |u.rows| == n && forall x <- u.rows, y <- v.rows :: InOrder(x, y)
  }

  ghost predicate AllInTurn(ws: seq<Window>, n: nat) {
    forall i, j :: 0 <= i < j < |ws| ==> InTurn(ws[i], ws[j], n)
  }

  lemma SortedIsInOrder(rows: seq<Row>)
    ensures AllInOrder(SortRows(rows))
  {
    hide SortRows;
    SortRowsSorted(rows);
  }

  lemma {:induction false} CutInTurn(agent: string, chat: string, rows: seq<Row>, n: nat)
    requires n > 0 && AllInOrder(rows)
    ensures var ws := Cut(agent, chat, rows, n);
            && (forall w <- ws :: w.agent == agent && w.chat == chat && AllInOrder(w.rows))
            && (forall w <- ws, x <- w.rows :: x in rows)
            && AllInTurn(ws, n)
  {
    hide InOrder, InTurn;
    if |rows| > n {
      var rest := Cut(agent, chat, rows[n..], n);
      CutInTurn(agent, chat, rows[n..], n);
      var first := Window(agent, chat, rows[..n]);
      assert forall x <- rows[..n] :: x in rows;
      assert forall x <- rows[n..] :: x in rows;
      forall w <- Cut(agent, chat, rows, n), x <- w.rows ensures x in rows {
        assert w == first || w in rest;
      }
      forall v <- rest ensures InTurn(first, v, n) {
        FirstInTurn(agent, chat, rows, n, v);
      }
      TurnsCons(first, rest, n);
      assert Cut(agent, chat, rows, n) == [first] + rest;
    }
  }

  lemma FirstInTurn(agent: string, chat: string, rows: seq<Row>, n: nat, v: Window)
    requires n < |rows| && AllInOrder(rows) && forall x <- v.rows :: x in rows[n..]
    ensures InTurn(Window(agent, chat, rows[..n]), v, n)
  {
    hide InOrder;
    forall x <- rows[..n], y <- v.rows ensures InOrder(x, y) {
      var i :| 0 <= i < n && rows[i] == x;
      assert y in rows[n..];
      var j :| n <= j < |rows| && rows[j] == y;
    }
  }

  lemma TurnsCons(first: Window, rest: seq<Window>, n: nat)
    requires forall v <- rest :: InTurn(first, v, n)
    requires AllInTurn(rest, n)
    ensures AllInTurn([first] + rest, n)
  {
    hide InTurn;
    var ws := [first] + rest;
    forall i, j | 0 <= i < j < |ws| ensures InTurn(ws[i], ws[j], n) {
      assert ws[j] == rest[j - 1] && rest[j - 1] in rest;
      if i > 0 {
        var (p, q) := (i - 1, j - 1);
        assert InTurn(rest[p], rest[q], n) && ws[i] == rest[p];
      }
    }
  }

  // ----- all windows -----

  function ChatOf(w: Window): Group {
    Group(w.agent, w.chat, [])
  }

  /** Window u may stand before window v. */
  ghost predicate Placed(rows: seq<Row>, u: Window, v: Window, n: nat) {
    if u.agent == v.agent && u.chat == v.chat then InTurn(u, v, n) else ReadFirst(rows, ChatOf(u), ChatOf(v))
  }

  ghost predicate FromGroups(ws: seq<Window>, groups: seq<Group>) {
    forall w <- ws :: AllInOrder(w.rows) && exists g <- groups :: SameChat(g, ChatOf(w))
  }

  lemma {:induction false} CutGroupsPlaced(rows: seq<Row>, groups: seq<Group>, n: nat)
    requires n > 0
    requires forall i, j :: 0 <= i < j < |groups| ==>
                              !SameChat(groups[i], groups[j]) && ReadFirst(rows, groups[i], groups[j])
    ensures var ws := CutGroups(groups, n);
            FromGroups(ws, groups) && forall i, j :: 0 <= i < j < |ws| ==> Placed(rows, ws[i], ws[j], n)
  {
    hide InTurn, ReadFirst, SortRows, Cut, AllInOrder;
    if groups != [] {
      var (init, g) := (groups[..|groups| - 1], groups[|groups| - 1]);
      var (before, mine) := (CutGroups(init, n), Cut(g.agent, g.chat, SortRows(g.rows), n));
      CutGroupsPlaced(rows, init, n);
      SortedIsInOrder(g.rows);
      CutInTurn(g.agent, g.chat, SortRows(g.rows), n);
      LaterGroupLater(rows, groups, before, mine, n);
      forall i, j | 0 <= i < j < |before + mine| ensures Placed(rows, (before + mine)[i], (before + mine)[j], n) {
        if i < |before| <= j {
          assert before[i] in before && mine[j - |before|] in mine;
        } else if i >= |before| {
          var (p, q) := (i - |before|, j - |before|);
          assert 0 <= p < q < |mine| && mine[p] in mine && mine[q] in mine;
          assert InTurn(mine[p], mine[q], n);
        }
      }
      FromMoreGroups(before, mine, groups);
    }
  }

  lemma LaterGroupLater(rows: seq<Row>, groups: seq<Group>, before: seq<Window>, mine: seq<Window>, n: nat)
    requires groups != [] && FromGroups(before, groups[..|groups| - 1])
    requires var g := groups[|groups| - 1]; forall v <- mine :: v.agent == g.agent && v.chat == g.chat
    requires forall i, j :: 0 <= i < j < |groups| ==>
                              !SameChat(groups[i], groups[j]) && ReadFirst(rows, groups[i], groups[j])
    ensures forall u <- before, v <- mine :: Placed(rows, u, v, n)
  {
    hide InTurn, ReadFirst, AllInOrder;
    var (init, g) := (groups[..|groups| - 1], groups[|groups| - 1]);
    forall u: Window, v: Window | u in before && v in mine ensures Placed(rows, u, v, n) {
      var k :| 0 <= k < |init| && SameChat(init[k], ChatOf(u));
      assert groups[k] == init[k];
      ReadFirstSame(rows, init[k], g, ChatOf(u), ChatOf(v));
    }
  }

  lemma FromMoreGroups(before: seq<Window>, mine: seq<Window>, groups: seq<Group>)
    requires groups != [] && FromGroups(before, groups[..|groups| - 1])
    requires var g := groups[|groups| - 1];
             forall v <- mine :: v.agent == g.agent && v.chat == g.chat && AllInOrder(v.rows)
    ensures FromGroups(before + mine, groups)
  {
    hide AllInOrder;
    var (init, g) := (groups[..|groups| - 1], groups[|groups| - 1]);
    assert groups == init + [g];
    forall w: Window | w in before + mine ensures AllInOrder(w.rows) && exists h <- groups :: SameChat(h, ChatOf(w)) {
      if w in before {
        var h :| h in init && SameChat(h, ChatOf(w));
        assert h in groups;
      } else {
        assert g in groups && SameChat(g, ChatOf(w));
      }
    }
  }

  /** The windows of a batch stand in the order in which their chats were first read; of one chat all but the
      last are full, and neither within a window nor from one to the next does a row come before one that
      has an earlier time, or the same time and a smaller message id. */
  lemma WindowsInOrder(rows: seq<Row>, n: nat)
    requires n > 0
    ensures var ws := BuildWindows(rows, n);
            && (forall w <- ws :: AllInOrder(w.rows))
            && forall i, j :: 0 <= i < j < |ws| ==> Placed(rows, ws[i], ws[j], n)
  {
    hide Placed, AllInOrder;
    GroupRowsGroups(rows);
    CutGroupsPlaced(rows, GroupRows(rows), n);
  }

  // ----- rows that compare equal -----

  /** Two rows of one chat that the order does not tell apart. */
  predicate Alike(x: Row, y: Row) {
    x.agent == y.agent && x.chat == y.chat && x.time == y.time && x.id == y.id
  }

  function RowsAlike(rows: seq<Row>, x: Row): seq<Row> {
    if rows == [] then [] else (if Alike(rows[0], x) then [rows[0]] else []) + RowsAlike(rows[1..], x)
  }

  lemma RowsAlikeFront(r: Row, rest: seq<Row>, x: Row)
    ensures RowsAlike([r] + rest, x) == (if Alike(r, x) then [r] else []) + RowsAlike(rest, x)
    ensures RowsAlike([], x) == []
  {
    assert ([r] + rest)[1..] == rest;
  }

  lemma {:induction false} RowsAlikeAppend(a: seq<Row>, b: seq<Row>, x: Row)
    ensures RowsAlike(a + b, x) == RowsAlike(a, x) + RowsAlike(b, x)
  {
    if a == [] {
      assert a + b == b;
    } else {
      assert (a + b)[1..] == a[1..] + b;
      RowsAlikeAppend(a[1..], b, x);
    }
  }

  lemma {:induction false} NoneAlike(rows: seq<Row>, x: Row)
    requires forall r <- rows :: !Alike(r, x)
    ensures RowsAlike(rows, x) == []
  {
    if rows != [] {
      NoneAlike(rows[1..], x);
    }
  }

  lemma NotAlike(r: Row, y: Row, z: Row, x: Row)
    requires Alike(r, x) && Before(r, z) && !Before(y, z)
    ensures !Alike(y, x)
  {
  }

  lemma BeforeIsStrict(y: Row)
    ensures !Before(y, y)
  {
  }

  lemma NoneAlikeBehind(r: Row, rows: seq<Row>, x: Row)
    requires Sorted(rows) && Alike(r, x) && (rows == [] || Before(r, rows[0]))
    ensures forall y <- rows :: !Alike(y, x)
  {
    hide Before, Alike;
    forall j | 0 <= j < |rows| ensures !Alike(rows[j], x) {
      BeforeIsStrict(rows[0]);
      NotAlike(r, rows[j], rows[0], x);
    }
  }

  lemma InsertStep(r: Row, rows: seq<Row>)
    requires rows != []
    ensures InsertRow(r, rows) == if Before(r, rows[0]) then [r] + rows else [rows[0]] + InsertRow(r, rows[1..])
    ensures Sorted(rows) ==> Sorted(rows[1..])
  {
    hide Before;
  }

  lemma InsertFirst(r: Row, rows: seq<Row>, x: Row)
    requires Sorted(rows) && (rows == [] || Before(r, rows[0]))
    ensures RowsAlike([r] + rows, x) == RowsAlike(rows, x) + if Alike(r, x) then [r] else []
  {
    hide RowsAlike, Before, Alike, Sorted;
    RowsAlikeFront(r, rows, x);
    if Alike(r, x) {
      NoneAlikeBehind(r, rows, x);
      NoneAlike(rows, x);
    }
  }

  lemma {:induction false} InsertIsStable(r: Row, rows: seq<Row>, x: Row)
    requires Sorted(rows)
    ensures RowsAlike(InsertRow(r, rows), x) == RowsAlike(rows, x) + if Alike(r, x) then [r] else []
  {
    assert InsertRow(r, []) == [r] == [r] + [];
    hide InsertRow, RowsAlike, Before, Alike, Sorted;
    if rows == [] {
      InsertFirst(r, [], x);
    } else {
      InsertStep(r, rows);
      var (first, rest) := (rows[0], rows[1..]);
      assert rows == [first] + rest;
      if Before(r, first) {
        InsertFirst(r, rows, x);
      } else {
        InsertIsStable(r, rest, x);
        RowsAlikeFront(first, InsertRow(r, rest), x);
        RowsAlikeFront(first, rest, x);
      }
    }
  }

  lemma {:induction false} SortIsStable(rows: seq<Row>, x: Row)
    ensures RowsAlike(SortRows(rows), x) == RowsAlike(rows, x)
  {
    hide Sorted, InsertRow, RowsAlike;
    if rows != [] {
      var (init, r) := (rows[..|rows| - 1], rows[|rows| - 1]);
      SortIsStable(init, x);
      SortRowsSorted(init);
      InsertIsStable(r, SortRows(init), x);
      RowsAlikeAppend(init, [r], x);
      RowsAlikeFront(r, [], x);
      assert [r] + [] == [r] && rows == init + [r];
    }
  }

  lemma {:induction false} ChatHoldsAlike(rows: seq<Row>, agent: string, chat: string, x: Row)
    ensures RowsAlike(RowsOfChat(rows, agent, chat), x) == if OfChat(x, agent, chat) then RowsAlike(rows, x) else []
  {
    hide RowsAlike;
    RowsAlikeFront(x, [], x);
    if rows != [] {
      var (init, r) := (rows[..|rows| - 1], rows[|rows| - 1]);
      ChatHoldsAlike(init, agent, chat, x);
      RowsAlikeAppend(init, [r], x);
      var mine := if OfChat(r, agent, chat) then [r] else [];
      RowsAlikeAppend(RowsOfChat(init, agent, chat), mine, x);
      RowsAlikeFront(r, [], x);
      assert [r] + [] == [r] && rows == init + [r];
      assert RowsOfChat(rows, agent, chat) == RowsOfChat(init, agent, chat) + mine;
    }
  }

  /** Of the groups up to some one, exactly that of the chat, if it is among them, adds the rows alike. */
  lemma {:induction false} GroupsHoldAlike(rows: seq<Row>, groups: seq<Group>, n: nat, x: Row)
    requires n > 0 && (forall g <- groups :: g.rows == RowsOfChat(rows, g.agent, g.chat))
    requires forall i, j :: 0 <= i < j < |groups| ==> !SameChat(groups[i], groups[j])
    ensures RowsAlike(RowsOf(CutGroups(groups, n)), x)
         == if exists g <- groups :: OfChat(x, g.agent, g.chat) then RowsAlike(rows, x) else []
  {
    hide RowsAlike, RowsOf, RowsOfChat, SortRows, Cut;
    RowsAlikeFront(x, [], x);
    if groups == [] {
      RowsOfNothing();
    } else {
      var (init, g) := (groups[..|groups| - 1], groups[|groups| - 1]);
      var mine := Cut(g.agent, g.chat, SortRows(g.rows), n);
      GroupsHoldAlike(rows, init, n, x);
      RowsOfAppend(CutGroups(init, n), mine);
      RowsAlikeAppend(RowsOf(CutGroups(init, n)), RowsOf(mine), x);
      CutKeepsRows(g.agent, g.chat, SortRows(g.rows), n);
      SortIsStable(g.rows, x);
      ChatHoldsAlike(rows, g.agent, g.chat, x);
      assert groups == init + [g];
      OneGroupOfChat(groups, x);
    }
  }

  lemma OneGroupOfChat(groups: seq<Group>, x: Row)
    requires groups != [] && forall i, j :: 0 <= i < j < |groups| ==> !SameChat(groups[i], groups[j])
    ensures var g := groups[|groups| - 1];
            OfChat(x, g.agent, g.chat) ==> !exists h <- groups[..|groups| - 1] :: OfChat(x, h.agent, h.chat)
  {
    var g := groups[|groups| - 1];
    if OfChat(x, g.agent, g.chat) {
      forall i | 0 <= i < |groups| - 1 ensures !OfChat(x, groups[i].agent, groups[i].chat) {
        assert !SameChat(groups[i], groups[|groups| - 1]);
      }
    }
  }

  /** Rows the order does not tell apart keep the order in which they were read. */
  lemma WindowsAreStable(rows: seq<Row>, n: nat, x: Row)
    requires n > 0
    ensures RowsAlike(RowsOf(BuildWindows(rows, n)), x) == RowsAlike(rows, x)
  {
    hide RowsAlike, RowsOf, RowsOfChat, CutGroups;
    RowsAlikeFront(x, [], x);
    GroupRowsGroups(rows);
    GroupsHoldAlike(rows, GroupRows(rows), n, x);
    if !exists g <- GroupRows(rows) :: OfChat(x, g.agent, g.chat) {
      forall r <- rows ensures !Alike(r, x) {
        var g :| g in GroupRows(rows) && OfChat(r, g.agent, g.chat);
        assert !OfChat(x, g.agent, g.chat);
      }
      NoneAlike(rows, x);
    }
  }
}
