// The dashboard's queue: a listing ordered the other way round, cut at 200 rows and sorted in
// place, against the order in which claims hand the tasks out.

module Dashboard {
  import opened Tasks
  import opened Machine

  datatype Item = Item(id: TaskId, row: Task)

  predicate ComesBefore(a: Item, b: Item) {
    Before(a.row, b.row)
  }

  /** Highest priority first, and within a priority oldest first. */
  ghost predicate InOrder(s: seq<Item>) {
    forall i, j :: 0 <= i < j < |s| ==>
      || s[i].row.priority > s[j].row.priority
      || (s[i].row.priority == s[j].row.priority && s[i].row.createdAt <= s[j].row.createdAt)
  }

  // ---- insertion sort ----

  /** x goes behind the last item it does not come before. */
  function Insert(s: seq<Item>, x: Item): (r: seq<Item>)
    ensures |r| == |s| + 1
  {
    if s == [] || !ComesBefore(x, s[|s| - 1]) then s + [x]
    else Insert(s[..|s| - 1], x) + [s[|s| - 1]]
  }

  function Sorted(s: seq<Item>): (r: seq<Item>)
    ensures |r| == |s|
  {
    if s == [] then [] else Insert(Sorted(s[..|s| - 1]), s[|s| - 1])
  }

  /** The inner loop: item i swaps down past every neighbour it comes before. */
  method SinkInto(ts: array<Item>, i: nat)
    requires i < ts.Length
    modifies ts
    ensures ts[..i + 1] == Insert(old(ts[..i]), old(ts[i]))
    ensures ts[i + 1..] == old(ts[i + 1..])
  {
    ghost var done, x, rest := ts[..i], ts[i], ts[i + 1..];
    var j := i;
    while j > 0 && ComesBefore(ts[j], ts[j - 1])
      invariant 0 <= j <= i
      invariant ts[j] == x
      invariant forall k :: 0 <= k < j ==> ts[k] == done[k]
      invariant forall k :: j < k <= i ==> ts[k] == done[k - 1]
      invariant ts[i + 1..] == rest
      invariant forall k :: j <= k < i ==> ComesBefore(x, done[k])
    {
      ts[j], ts[j - 1] := ts[j - 1], ts[j];
      j := j - 1;
    }
    InsertIsSplit(done, x, j);
    assert ts[..i + 1] == done[..j] + [x] + done[j..];
  }

  /** Insertion puts x behind the last item it does not come before, wherever that is. */
  lemma {:induction false} InsertIsSplit(done: seq<Item>, x: Item, j: nat)
    requires j <= |done| && forall k :: j <= k < |done| ==> ComesBefore(x, done[k])
    requires j > 0 ==> !ComesBefore(x, done[j - 1])
    ensures Insert(done, x) == done[..j] + [x] + done[j..]
  {
    if j < |done| {
      var init, last := done[..|done| - 1], done[|done| - 1];
      InsertIsSplit(init, x, j);
      assert init[..j] == done[..j] && done[j..] == init[j..] + [last];
    }
  }

  /** sortQueueForDashboard, in place. */
  method SortQueue(ts: array<Item>)
    modifies ts
    ensures ts[..] == Sorted(old(ts[..]))
  {
    ghost var input := ts[..];
    if ts.Length == 0 {
      return;
    }
    var i := 1;
    assert input[..1][..0] == [] && ts[..1] == Sorted(input[..1]);
    while i < ts.Length
      invariant 1 <= i <= ts.Length
      invariant ts[..i] == Sorted(input[..i])
      invariant ts[i..] == input[i..]
    {
      assert ts[i] == ts[i..][0] == input[i] && input[..i + 1][..i] == input[..i];
      assert ts[i + 1..] == ts[i..][1..];
      SinkInto(ts, i);
      i := i + 1;
    }
    assert ts[..i] == ts[..] && input[..i] == input;
  }

  lemma {:induction false} InsertAdds(s: seq<Item>, x: Item)
    ensures multiset(Insert(s, x)) == multiset(s) + multiset{x}
  {
    if s != [] && ComesBefore(x, s[|s| - 1]) {
      InsertAdds(s[..|s| - 1], x);
      assert s == s[..|s| - 1] + [s[|s| - 1]];
    }
  }

  lemma InsertHas(s: seq<Item>, x: Item, y: Item)
    requires y in Insert(s, x)
    ensures y == x || y in s
  {
    InsertAdds(s, x);
    assert y in multiset(Insert(s, x));
  }

  lemma {:induction false} InsertKeepsOrder(s: seq<Item>, x: Item)
    requires InOrder(s)
    ensures InOrder(Insert(s, x))
  {
    if s != [] && ComesBefore(x, s[|s| - 1]) {
      var init, last := s[..|s| - 1], s[|s| - 1];
      InsertKeepsOrder(init, x);
      forall i | 0 <= i < |Insert(init, x)|
        ensures !ComesBefore(last, Insert(init, x)[i])
      {
        InsertHas(init, x, Insert(init, x)[i]);
      }
    }
  }

  predicate SameKey(a: Item, b: Item) {
    a.row.priority == b.row.priority && a.row.createdAt == b.row.createdAt
  }

  function OfKey(s: seq<Item>, k: Item): seq<Item> {
    if s == [] then []
    else OfKey(s[..|s| - 1], k) + (if SameKey(s[|s| - 1], k) then [s[|s| - 1]] else [])
  }

  lemma {:induction false} InsertIsStable(s: seq<Item>, x: Item, k: Item)
    requires InOrder(s)
    ensures OfKey(Insert(s, x), k) == OfKey(s + [x], k)
  {
    assert (s + [x])[..|s|] == s;
    if s != [] && ComesBefore(x, s[|s| - 1]) {
      var init, last := s[..|s| - 1], s[|s| - 1];
      InsertIsStable(init, x, k);
      assert (init + [x])[..|init|] == init;
      assert Insert(s, x)[..|s|] == Insert(init, x);
      assert !(SameKey(x, k) && SameKey(last, k));
    }
  }

  /** The sort is a sorted, stable permutation: the items of any one (priority, created_at) come
      out in the order they went in. */
  lemma {:induction false} SortedIsStablePermutation(s: seq<Item>, k: Item)
    ensures InOrder(Sorted(s))
    ensures multiset(Sorted(s)) == multiset(s)
    ensures OfKey(Sorted(s), k) == OfKey(s, k)
  {
    if s != [] {
      var init, last := s[..|s| - 1], s[|s| - 1];
      assert s == init + [last];
      SortedIsStablePermutation(init, k);
      InsertKeepsOrder(Sorted(init), last);
      InsertAdds(Sorted(init), last);
      InsertIsStable(Sorted(init), last, k);
      assert (Sorted(init) + [last])[..|Sorted(init)|] == Sorted(init);
    }
  }

  // ---- the listing ----

  predicate Matches(r: Task, status: Option<Status>) {
    status.None? || r.status == status.value
  }

  /** SELECT ... [WHERE status = ...] ORDER BY created_at DESC, before LIMIT and OFFSET. */
  ghost predicate Listing(rows: map<TaskId, Task>, status: Option<Status>, all: seq<Item>) {
    && (forall i :: 0 <= i < |all| ==>
          all[i].id in rows && rows[all[i].id] == all[i].row && Matches(all[i].row, status))
    && (forall t :: t in rows && Matches(rows[t], status) ==> Item(t, rows[t]) in all)
    && (forall i, j :: 0 <= i < j < |all| ==> all[i].id != all[j].id && all[i].row.createdAt >= all[j].row.createdAt)
  }

  function Page(all: seq<Item>, limit: int, offset: nat): seq<Item> {
    var n := if limit <= 0 || limit > 500 then 50 else limit;
    var rest := if offset <= |all| then all[offset..] else [];
    if |rest| <= n then rest else rest[..n]
  }

  /** A page, item by item: it starts `offset` rows down the listing and is as long as the limit
      allows, where a limit that is not positive, or is over 500, counts as 50. */
  lemma PageOnIndices(all: seq<Item>, limit: int, offset: nat, i: nat)
    ensures var n := if 0 < limit <= 500 then limit else 50;
            var left := if offset <= |all| then |all| - offset else 0;
            && |Page(all, limit, offset)| == (if n <= left then n else left)
            && (i < |Page(all, limit, offset)| ==> Page(all, limit, offset)[i] == all[offset + i])
  {
  }

  lemma {:induction false} SomeNewest(rows: map<TaskId, Task>, ids: set<TaskId>)
    requires ids != {} && ids <= rows.Keys
    ensures exists t :: t in ids && forall u :: u in ids ==> rows[u].createdAt <= rows[t].createdAt
    decreases |ids|
  {
    var t :| t in ids;
    if ids == {t} {
      assert forall u :: u in ids ==> u == t;
    } else {
      SomeNewest(rows, ids - {t});
      var n :| n in ids - {t} && forall u :: u in ids - {t} ==> rows[u].createdAt <= rows[n].createdAt;
      assert forall u :: u in ids ==> u == t || u in ids - {t};
      if rows[n].createdAt < rows[t].createdAt {
        assert forall u :: u in ids ==> rows[u].createdAt <= rows[t].createdAt;
      }
    }
  }

  function Ids(s: seq<Item>): set<TaskId> {
    set x | x in s :: x.id
  }

  lemma {:induction false} IdsCount(s: seq<Item>)
    requires forall i, j :: 0 <= i < j < |s| ==> s[i].id != s[j].id
    ensures |Ids(s)| == |s|
  {
    if s != [] {
      var init, last := s[..|s| - 1], s[|s| - 1];
      IdsCount(init);
      assert s == init + [last];
      assert Ids(s) == Ids(init) + {last.id};
      assert last.id !in Ids(init);
    }
  }

  function Matching(rows: map<TaskId, Task>, status: Option<Status>): set<TaskId> {
    set t | t in rows && Matches(rows[t], status)
  }

  /** The listing as far as it has been read, with the rows `todo` to come. */
  ghost predicate ListedSoFar(rows: map<TaskId, Task>, status: Option<Status>, todo: set<TaskId>, all: seq<Item>) {
    && todo <= Matching(rows, status)
    && Listing(rows - todo, status, all)
    && forall i, t :: 0 <= i < |all| && t in todo ==> all[i].row.createdAt >= rows[t].createdAt
  }

  lemma NothingMissing(rows: map<TaskId, Task>, status: Option<Status>, todo: set<TaskId>, all: seq<Item>, t: TaskId,
      u: TaskId)
    requires ListedSoFar(rows, status, todo, all) && t in todo
    requires u in rows && u !in todo - {t} && Matches(rows[u], status)
    ensures Item(u, rows[u]) in all + [Item(t, rows[t])]
  {
    if u != t {
      assert u in rows - todo && (rows - todo)[u] == rows[u];
    }
  }

  lemma ListNext(rows: map<TaskId, Task>, status: Option<Status>, todo: set<TaskId>, all: seq<Item>, t: TaskId)
    requires ListedSoFar(rows, status, todo, all)
    requires t in todo && forall u :: u in todo ==> rows[u].createdAt <= rows[t].createdAt
    ensures ListedSoFar(rows, status, todo - {t}, all + [Item(t, rows[t])])
  {
    var all', left := all + [Item(t, rows[t])], rows - (todo - {t});
    forall u | u in left && Matches(left[u], status)
      ensures Item(u, left[u]) in all'
    {
      NothingMissing(rows, status, todo, all, t, u);
    }
    forall i | 0 <= i < |all'|
      ensures all'[i].id in left && left[all'[i].id] == all'[i].row && Matches(all'[i].row, status)
    {
      if i < |all| {
        assert all[i].id in rows - todo;
      }
    }
  }

  /** What the query may yield; rows created at the same time come in any order. */
  method Query(rows: map<TaskId, Task>, status: Option<Status>) returns (all: seq<Item>)
    ensures Listing(rows, status, all)
  {
    all := [];
    var todo := Matching(rows, status);
    while todo != {}
      invariant ListedSoFar(rows, status, todo, all)
    {
      SomeNewest(rows, todo);
      var t :| t in todo && forall u :: u in todo ==> rows[u].createdAt <= rows[t].createdAt;
      ListNext(rows, status, todo, all, t);
      all := all + [Item(t, rows[t])];
      todo := todo - {t};
    }
    assert rows - {} == rows;
  }

  lemma ListingCounts(rows: map<TaskId, Task>, status: Option<Status>, all: seq<Item>)
    requires Listing(rows, status, all)
    ensures |all| == |Matching(rows, status)|
  {
    IdsCount(all);
    forall t | t in Matching(rows, status)
      ensures t in Ids(all)
    {
      assert Item(t, rows[t]) in all;
    }
    assert Ids(all) == Matching(rows, status);
  }

  /** The rows LIMIT and OFFSET leave of the query, read one by one. */
  method ReadPage(all: seq<Item>, limit: int, offset: nat) returns (items: seq<Item>)
    ensures items == Page(all, limit, offset)
  {
    var n := limit;
    if n <= 0 || n > 500 {
      n := 50;
    }
    items := [];
    var k := offset;
    while k < |all| && |items| < n
      invariant |items| <= n
      invariant offset <= k && (k <= |all| || k == offset)
      invariant items == if offset <= |all| then all[offset..k] else []
    {
      items := items + [all[k]];
      k := k + 1;
    }
  }

  /** ListTasks: one query for the page, and one for the total, which ignores limit and offset. */
  method ListTasks(rows: map<TaskId, Task>, status: Option<Status>, limit: int, offset: nat)
    returns (items: seq<Item>, total: nat)
    ensures exists all :: Listing(rows, status, all) && items == Page(all, limit, offset) && total == |all|
  {
    var all := Query(rows, status);
    items := ReadPage(all, limit, offset);
    total := |Matching(rows, status)|;
    ListingCounts(rows, status, all);
  }

  /** The queue part of GetDashboard: a copy of the page, sorted in place. */
  method DashboardQueue(rows: map<TaskId, Task>) returns (queue: array<Item>)
    ensures fresh(queue)
    ensures exists all :: Listing(rows, Some(Pending), all) && queue[..] == Sorted(Page(all, 200, 0))
  {
    var items, _ := ListTasks(rows, Some(Pending), 200, 0);
    queue := new Item[|items|](i requires 0 <= i < |items| => items[i]);
    assert queue[..] == items;
    SortQueue(queue);
  }

  // ---- claims at a standstill ----

  /** Workers `ws` claim the tasks `order` one after the other with nothing else going on, and
      then nothing is left to claim. */
  ghost predicate Drains(s: Db, ws: seq<WorkerId>, order: seq<TaskId>)
    requires |ws| == |order|
    decreases |order|
  {
    if order == [] then forall t :: t in s.rows ==> !Eligible(s.rows[t], s.now)
    else Accepts(s, Claim(ws[0], order[0])) && Drains(Apply(s, Claim(ws[0], order[0])), ws[1..], order[1..])
  }

  lemma {:induction false} DrainsBestFirst(s: Db, ws: seq<WorkerId>, order: seq<TaskId>)
    requires |ws| == |order| && Drains(s, ws, order)
    ensures forall t :: t in order <==> t in s.rows && Eligible(s.rows[t], s.now)
    ensures forall i, j :: 0 <= i < j < |order| ==>
              order[i] != order[j] && !Before(s.rows[order[j]], s.rows[order[i]])
    decreases |order|
  {
    if order != [] {
      var t, e := order[0], Claim(ws[0], order[0]);
      var s' := Apply(s, e);
      DrainsBestFirst(s', ws[1..], order[1..]);
      forall u | u in s.rows
        ensures s'.rows[u] == if u == t then Taken(s.rows[t], ws[0], s.now) else s.rows[u]
      {
        RowAfter(s, e, s', u);
      }
      assert s'.rows.Keys == s.rows.Keys;
      forall u
        ensures u in order <==> u in s.rows && Eligible(s.rows[u], s.now)
      {
        assert u in order <==> u == t || u in order[1..];
      }
      forall i, j | 0 <= i < j < |order|
        ensures order[i] != order[j] && !Before(s.rows[order[j]], s.rows[order[i]])
      {
        assert order[j] == order[1..][j - 1];
        if i > 0 {
          assert order[i] == order[1..][i - 1];
        }
      }
    }
  }

  /** Draining hands out exactly the eligible rows, once each, highest priority first and oldest first
      within a priority. */
  lemma DrainsInOrder(s: Db, ws: seq<WorkerId>, order: seq<TaskId>)
    requires |ws| == |order| && Drains(s, ws, order)
    ensures forall t :: t in order <==> t in s.rows && Eligible(s.rows[t], s.now)
    ensures forall i, j :: 0 <= i < j < |order| ==>
              && order[i] != order[j] && order[i] in s.rows && order[j] in s.rows
              && var r, r' := s.rows[order[i]], s.rows[order[j]];
                 r.priority > r'.priority || (r.priority == r'.priority && r.createdAt <= r'.createdAt)
  {
    DrainsBestFirst(s, ws, order);
    assert forall i :: 0 <= i < |order| ==> order[i] in order;
  }

  // ---- the board shows the claim order ----

  ghost predicate DistinctItems(s: seq<Item>) {
    forall i, j :: 0 <= i < j < |s| ==> s[i] != s[j]
  }

  ghost predicate TotallyOrdered(s: seq<Item>) {
    forall a, b :: a in s && b in s && a != b ==> ComesBefore(a, b) || ComesBefore(b, a)
  }

  lemma FirstIsLeast(a: seq<Item>, x: Item)
    requires InOrder(a) && x in a && x != a[0]
    ensures !ComesBefore(x, a[0])
  {
    var i :| 0 <= i < |a| && a[i] == x;
  }

  lemma WithoutFirst(a: seq<Item>, x: Item)
    requires DistinctItems(a) && a != []
    ensures x in a[1..] <==> x in a && x != a[0]
  {
    assert a == [a[0]] + a[1..];
  }

  /** There is only one way to put such items in order. */
  lemma {:induction false} OrderIsUnique(a: seq<Item>, b: seq<Item>)
    requires InOrder(a) && InOrder(b) && DistinctItems(a) && DistinctItems(b) && TotallyOrdered(a)
    requires forall x :: x in a <==> x in b
    ensures a == b
    decreases |a|
  {
    assert b == [] || b[0] in b;
    if a != [] {
      assert a[0] in b && b[0] in a;
      if a[0] != b[0] {
        FirstIsLeast(a, b[0]);
        FirstIsLeast(b, a[0]);
      }
      forall x
        ensures x in a[1..] <==> x in b[1..]
      {
        WithoutFirst(a, x);
        WithoutFirst(b, x);
      }
      OrderIsUnique(a[1..], b[1..]);
      assert a == [a[0]] + a[1..] && b == [b[0]] + b[1..];
    }
  }

  function Claimable(s: seq<Item>, now: Time): seq<Item> {
    if s == [] then []
    else Claimable(s[..|s| - 1], now) + (if Eligible(s[|s| - 1].row, now) then [s[|s| - 1]] else [])
  }

  lemma {:induction false} ClaimableHas(s: seq<Item>, now: Time, x: Item)
    ensures x in Claimable(s, now) <==> x in s && Eligible(x.row, now)
  {
    if s != [] {
      ClaimableHas(s[..|s| - 1], now, x);
      assert s == s[..|s| - 1] + [s[|s| - 1]];
    }
  }

  lemma {:induction false} ClaimableKeepsOrder(s: seq<Item>, now: Time)
    requires InOrder(s)
    ensures InOrder(Claimable(s, now))
  {
    if s != [] {
      var init, c := s[..|s| - 1], Claimable(s[..|s| - 1], now);
      ClaimableKeepsOrder(init, now);
      forall i | 0 <= i < |c|
        ensures !ComesBefore(s[|s| - 1], c[i])
      {
        ClaimableHas(init, now, c[i]);
      }
    }
  }

  lemma {:induction false} ClaimableKeepsDistinct(s: seq<Item>, now: Time)
    requires DistinctItems(s)
    ensures DistinctItems(Claimable(s, now))
  {
    if s != [] {
      var init, last := s[..|s| - 1], s[|s| - 1];
      ClaimableKeepsDistinct(init, now);
      ClaimableHas(init, now, last);
      assert last !in init;
    }
  }

  lemma DistinctBecauseMultiset(a: seq<Item>, b: seq<Item>)
    requires multiset(a) == multiset(b) && DistinctItems(b)
    ensures DistinctItems(a)
  {
    forall i, j | 0 <= i < j < |a|
      ensures a[i] != a[j]
    {
      if a[i] == a[j] {
        var x := a[i];
        assert a == a[..j] + [x] + a[j + 1..];
        assert x in a[..j] by {
          assert a[..j][i] == x;
        }
        assert multiset(a)[x] >= 2;
        OnceAtMost(b, x);
      }
    }
  }

  lemma {:induction false} OnceAtMost(b: seq<Item>, x: Item)
    requires DistinctItems(b)
    ensures multiset(b)[x] <= 1
  {
    if b != [] {
      var init, last := b[..|b| - 1], b[|b| - 1];
      assert b == init + [last];
      OnceAtMost(init, x);
      assert last !in init;
    }
  }

  lemma SortedHasTheSame(s: seq<Item>, x: Item)
    ensures x in Sorted(s) <==> x in s
  {
    SortedIsStablePermutation(s, x);
    assert x in Sorted(s) <==> x in multiset(Sorted(s));
    assert x in s <==> x in multiset(s);
  }

  function Handed(s: Db, order: seq<TaskId>): seq<Item>
    requires forall t :: t in order ==> t in s.rows
  {
    if order == [] then [] else [Item(order[0], s.rows[order[0]])] + Handed(s, order[1..])
  }

  lemma {:induction false} HandedAt(s: Db, order: seq<TaskId>)
    requires forall t :: t in order ==> t in s.rows
    ensures |Handed(s, order)| == |order|
    ensures forall i :: 0 <= i < |order| ==> Handed(s, order)[i] == Item(order[i], s.rows[order[i]])
  {
    if order != [] {
      HandedAt(s, order[1..]);
    }
  }

  /** What claims hand out, as a list of items: the same three things. */
  lemma HandedOut(s: Db, ws: seq<WorkerId>, order: seq<TaskId>)
    requires |ws| == |order| && Drains(s, ws, order)
    ensures forall t :: t in order ==> t in s.rows
    ensures var handed := Handed(s, order);
            && InOrder(handed) && DistinctItems(handed)
            && forall x :: x in handed <==> x.id in s.rows && x.row == s.rows[x.id] && Eligible(x.row, s.now)
  {
    DrainsInOrder(s, ws, order);
    HandedAt(s, order);
    var handed := Handed(s, order);
    forall x: Item | x.id in s.rows && x.row == s.rows[x.id] && Eligible(x.row, s.now)
      ensures x in handed
    {
      assert x.id in order;
      var i :| 0 <= i < |order| && order[i] == x.id;
      assert handed[i] == x;
    }
    assert forall i :: 0 <= i < |order| ==> order[i] in order;
  }

  /** The board, cut down to the claimable tasks: in order, without repeats, and nothing missing. */
  lemma ClaimableBoard(s: Db, all: seq<Item>)
    requires Listing(s.rows, Some(Pending), all)
    ensures var shown := Claimable(Sorted(all), s.now);
            && InOrder(shown) && DistinctItems(shown)
            && forall x :: x in shown <==> x.id in s.rows && x.row == s.rows[x.id] && Eligible(x.row, s.now)
  {
    var board := Sorted(all);
    if all != [] {
      SortedIsStablePermutation(all, all[0]);
    }
    DistinctBecauseMultiset(board, all);
    ClaimableKeepsOrder(board, s.now);
    ClaimableKeepsDistinct(board, s.now);
    forall x
      ensures x in Claimable(board, s.now) <==> x in board && Eligible(x.row, s.now)
      ensures x in board <==> x.id in s.rows && x.row == s.rows[x.id] && x.row.status.Pending?
    {
      ClaimableHas(board, s.now, x);
      SortedHasTheSame(all, x);
      if x.id in s.rows && s.rows[x.id].status.Pending? {
        assert Item(x.id, s.rows[x.id]) in all;
      }
    }
  }

  /** No two claimable tasks of one priority were created at the same time. */
  ghost predicate Untied(s: Db) {
    forall t, u | t in s.rows && u in s.rows && t != u && Eligible(s.rows[t], s.now) && Eligible(s.rows[u], s.now) ::
      s.rows[t].priority == s.rows[u].priority ==> s.rows[t].createdAt != s.rows[u].createdAt
  }

  /** With at most 200 pending tasks, and no two claimable ones of one priority created at the same
      time, the claimable tasks on the sorted board stand in exactly the order in which claims at
      this moment hand them out. */
  lemma BoardShowsClaimOrder(s: Db, all: seq<Item>, ws: seq<WorkerId>, order: seq<TaskId>)
    requires Listing(s.rows, Some(Pending), all) && |all| <= 200
    requires Untied(s)
    requires |ws| == |order| && Drains(s, ws, order)
    ensures forall t :: t in order ==> t in s.rows
    ensures Claimable(Sorted(Page(all, 200, 0)), s.now) == Handed(s, order)
  {
    HandedOut(s, ws, order);
    ClaimableBoard(s, all);
    assert Page(all, 200, 0) == all;
    OrderIsUnique(Claimable(Sorted(all), s.now), Handed(s, order));
  }

  // ---- past 200 ----

  function NewerPending(rows: map<TaskId, Task>, t: TaskId): set<TaskId>
    requires t in rows
  {
    set u | u in rows && rows[u].status.Pending? && rows[u].createdAt > rows[t].createdAt
  }

  /** In the listing, the place of a task is the number of newer pending ones. */
  lemma PlaceIsNewerCount(rows: map<TaskId, Task>, all: seq<Item>, n: nat)
    requires Listing(rows, Some(Pending), all) && n < |all|
    requires forall u :: u in rows && rows[u].status.Pending? && u != all[n].id ==>
                           rows[u].createdAt != all[n].row.createdAt
    ensures |NewerPending(rows, all[n].id)| == n
  {
    var t := all[n].id;
    forall u | u in NewerPending(rows, t)
      ensures u in Ids(all[..n])
    {
      assert Item(u, rows[u]) in all;
      var m :| 0 <= m < |all| && all[m] == Item(u, rows[u]);
      assert all[..n][m] == all[m];
    }
    forall u | u in Ids(all[..n])
      ensures u in NewerPending(rows, t)
    {
      var m :| 0 <= m < n && all[..n][m].id == u;
      assert all[m].id != all[n].id && all[m].row.createdAt >= all[n].row.createdAt;
    }
    assert Ids(all[..n]) == NewerPending(rows, t);
    IdsCount(all[..n]);
  }

  /** A pending task is missing from the board if and only if at least 200 pending tasks are newer,
      however urgent it is and even if it is the next one to be claimed. */
  lemma MissingFromBoardIff(s: Db, all: seq<Item>, t: TaskId)
    requires Listing(s.rows, Some(Pending), all) && t in s.rows && s.rows[t].status.Pending?
    requires forall u :: u in s.rows && s.rows[u].status.Pending? && u != t ==>
                           s.rows[u].createdAt != s.rows[t].createdAt
    ensures Item(t, s.rows[t]) !in Sorted(Page(all, 200, 0)) <==>
            |NewerPending(s.rows, t)| >= 200
  {
    var x, page := Item(t, s.rows[t]), Page(all, 200, 0);
    SortedHasTheSame(page, x);
    assert x in all;
    var n :| 0 <= n < |all| && all[n] == x;
    PlaceIsNewerCount(s.rows, all, n);
    if n < 200 {
      assert page[n] == x;
    }
  }
}
