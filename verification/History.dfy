/** The history endpoint: clamping, offsets, page counts, and the pages as parts of one list. */
module History {
  import opened Common
  import opened Uuids
  import opened Ledger

  const DEFAULT_PAGE := 1
  const DEFAULT_PER_PAGE := 20
  const MAX_PER_PAGE := 100

  /** A row of the transactions table with its creation time. */
  datatype Row = Row(transaction: Transaction, createdAt: int)

  datatype Direction = Sent | Received

  datatype Item = Item(row: Row, direction: Direction)

  datatype Page = Page(items: seq<Item>, total: nat, page: int, perPage: int, totalPages: int)

  predicate Involves(row: Row, account: Uuid) {
    row.transaction.from == account || row.transaction.to == account
  }

  function Matching(rows: seq<Row>, account: Uuid): seq<Row> {
    if rows == [] then []
    else
      var r := rows[|rows| - 1];
      Matching(rows[..|rows| - 1], account) + if Involves(r, account) then [r] else []
  }

  /** Insert a row into a list ordered newest first. */
  function InsertByDate(r: Row, sorted: seq<Row>): seq<Row> {
    if sorted == [] then [r]
    else if r.createdAt >= sorted[0].createdAt then [r] + sorted
    else [sorted[0]] + InsertByDate(r, sorted[1..])
  }

  /** ORDER BY created_at DESC. */
  function NewestFirst(rows: seq<Row>): seq<Row> {
    if rows == [] then [] else InsertByDate(rows[|rows| - 1], NewestFirst(rows[..|rows| - 1]))
  }

  function ToItem(row: Row, account: Uuid): Item {
    Item(row, if row.transaction.from == account then Sent else Received)
  }

  /** The whole history of an account, newest first. */
  function FullHistory(rows: seq<Row>, account: Uuid): (items: seq<Item>)
    ensures |items| == |NewestFirst(Matching(rows, account))|
  {
    var ordered := NewestFirst(Matching(rows, account));
    seq(|ordered|, i requires 0 <= i < |ordered| => ToItem(ordered[i], account))
  }

  /** LIMIT limit OFFSET offset. */
  function Window<T>(items: seq<T>, limit: nat, offset: nat): seq<T> {
    if offset >= |items| then []
    else if offset + limit >= |items| then items[offset..]
    else items[offset..offset + limit]
  }

  /** GetTransactionHistory: the count of all matching rows, then one page. The two queries run outside
      a transaction, so the table may have grown from `counted` to `listed` in between. */
  function GetTransactionHistory(counted: seq<Row>, listed: seq<Row>, account: Uuid, limit: nat, offset: nat): (seq<Item>, nat) {
    (Window(FullHistory(listed, account), limit, offset), |Matching(counted, account)|)
  }

  function Ceil(x: real): int {
    -((-x).Floor)
  }

  // ---------------------------------------------------------------- the list

  predicate Descending(rows: seq<Row>) {
    forall i, j :: 0 <= i < j < |rows| ==> rows[i].createdAt >= rows[j].createdAt
  }

  /** Creation times are all different. */
  predicate DistinctTimes(rows: seq<Row>) {
    forall i, j :: 0 <= i < j < |rows| ==> rows[i].createdAt != rows[j].createdAt
  }

  lemma {:induction false} MatchingRows(rows: seq<Row>, account: Uuid, r: Row)
    ensures multiset(Matching(rows, account))[r] == if Involves(r, account) then multiset(rows)[r] else 0
  {
    if rows != [] {
      MatchingRows(rows[..|rows| - 1], account, r);
      assert rows == rows[..|rows| - 1] + [rows[|rows| - 1]];
    }
  }

  lemma {:induction false} InsertAddsOne(r: Row, sorted: seq<Row>)
    ensures multiset(InsertByDate(r, sorted)) == multiset(sorted) + multiset{r}
  {
    if sorted != [] {
      assert sorted == [sorted[0]] + sorted[1..];
      if r.createdAt < sorted[0].createdAt {
        InsertAddsOne(r, sorted[1..]);
      }
    }
  }

  lemma PrependKeepsOrder(r: Row, sorted: seq<Row>)
    requires Descending(sorted) && forall s <- sorted :: s.createdAt <= r.createdAt
    ensures Descending([r] + sorted)
  {
  }

  lemma HeadIsNewest(sorted: seq<Row>, s: Row)
    requires Descending(sorted) && s in sorted
    ensures s.createdAt <= sorted[0].createdAt
  {
    var i :| 0 <= i < |sorted| && sorted[i] == s;
  }

  lemma {:induction false} InsertKeepsOrder(r: Row, sorted: seq<Row>)
    requires Descending(sorted)
    ensures Descending(InsertByDate(r, sorted))
  {
    if sorted == [] {
    } else if r.createdAt >= sorted[0].createdAt {
      forall s | s in sorted
        ensures s.createdAt <= r.createdAt
      {
        HeadIsNewest(sorted, s);
      }
      PrependKeepsOrder(r, sorted);
    } else {
      var rest := InsertByDate(r, sorted[1..]);
      InsertKeepsOrder(r, sorted[1..]);
      InsertAddsOne(r, sorted[1..]);
      forall s | s in rest
        ensures s.createdAt <= sorted[0].createdAt
      {
        assert s in multiset(rest);
        if s in sorted[1..] {
          HeadIsNewest(sorted, s);
        }
      }
      PrependKeepsOrder(sorted[0], rest);
    }
  }

  lemma {:induction false} NewestFirstSorts(rows: seq<Row>)
    ensures Descending(NewestFirst(rows))
    ensures multiset(NewestFirst(rows)) == multiset(rows)
  {
    if rows != [] {
      var init, r := rows[..|rows| - 1], rows[|rows| - 1];
      NewestFirstSorts(init);
      assert rows == init + [r];
      InsertKeepsOrder(r, NewestFirst(init));
      InsertAddsOne(r, NewestFirst(init));
    }
  }

  /** Two rows at different places of a list count twice, or are two different members. */
  lemma TwoPlaces(rows: seq<Row>, i: nat, j: nat)
    requires i < j < |rows|
    ensures multiset{rows[i], rows[j]} <= multiset(rows)
  {
    var before, after := rows[..i], rows[i + 1..j];
    assert rows == before + [rows[i]] + after + [rows[j]] + rows[j + 1..];
  }

  lemma {:induction false} PlacesOf(rows: seq<Row>, a: Row, b: Row)
    requires multiset{a, b} <= multiset(rows)
    ensures exists i, j :: 0 <= i < j < |rows| && ((rows[i] == a && rows[j] == b) || (rows[i] == b && rows[j] == a))
  {
    var init, last := rows[..|rows| - 1], rows[|rows| - 1];
    assert rows == init + [last];
    if last == a || last == b {
      var other := if last == a then b else a;
      assert multiset{a, b} == multiset{last, other};
      assert multiset(rows)[other] >= if other == last then 2 else 1;
      assert other in multiset(init);
      var i :| 0 <= i < |init| && init[i] == other;
      assert rows[i] == other;
    } else {
      assert multiset(init)[a] == multiset(rows)[a] && multiset(init)[b] == multiset(rows)[b];
      PlacesOf(init, a, b);
      var i, j :| 0 <= i < j < |init| && ((init[i] == a && init[j] == b) || (init[i] == b && init[j] == a));
      assert rows[i] == init[i] && rows[j] == init[j];
    }
  }

  /** If the creation times differ they strictly fall along the list. */
  lemma NewestFirstIsStrict(rows: seq<Row>, i: nat, j: nat)
    requires DistinctTimes(rows) && i < j < |NewestFirst(rows)|
    ensures NewestFirst(rows)[i].createdAt > NewestFirst(rows)[j].createdAt
  {
    NewestFirstSorts(rows);
    var sorted := NewestFirst(rows);
    TwoPlaces(sorted, i, j);
    PlacesOf(rows, sorted[i], sorted[j]);
  }

  lemma {:induction false} InsertLength(r: Row, sorted: seq<Row>)
    ensures |InsertByDate(r, sorted)| == |sorted| + 1
  {
    if sorted != [] && r.createdAt < sorted[0].createdAt {
      InsertLength(r, sorted[1..]);
    }
  }

  lemma {:induction false} NewestFirstLength(rows: seq<Row>)
    ensures |NewestFirst(rows)| == |rows|
  {
    if rows != [] {
      NewestFirstLength(rows[..|rows| - 1]);
      InsertLength(rows[|rows| - 1], NewestFirst(rows[..|rows| - 1]));
    }
  }

  function Rows(items: seq<Item>): seq<Row> {
    seq(|items|, i requires 0 <= i < |items| => items[i].row)
  }

  lemma RowsOfHistory(rows: seq<Row>, account: Uuid)
    ensures Rows(FullHistory(rows, account)) == NewestFirst(Matching(rows, account))
  {
  }

  lemma HistoryOrder(rows: seq<Row>, account: Uuid)
    ensures var items := FullHistory(rows, account);
            && (forall i, j :: 0 <= i < j < |items| ==> items[i].row.createdAt >= items[j].row.createdAt)
            && (DistinctTimes(Matching(rows, account)) ==>
                  forall i, j :: 0 <= i < j < |items| ==> items[i].row.createdAt > items[j].row.createdAt)
            && (forall i :: 0 <= i < |items| ==> (items[i].direction.Sent? <==> items[i].row.transaction.from == account))
  {
    var m := Matching(rows, account);
    NewestFirstSorts(m);
    hide NewestFirst, Matching;
    var items := FullHistory(rows, account);
    if DistinctTimes(m) {
      forall i, j | 0 <= i < j < |items|
        ensures items[i].row.createdAt > items[j].row.createdAt
      {
        NewestFirstIsStrict(m, i, j);
      }
    }
  }

  /** The full history is the account's transactions, each once, newest first, labelled by side;
      rows with the same creation time are neighbours, in some order. */
  lemma HistoryIsComplete(rows: seq<Row>, account: Uuid, r: Row)
    ensures var items := FullHistory(rows, account);
            && |items| == |Matching(rows, account)|
            && (forall i, j :: 0 <= i < j < |items| ==> items[i].row.createdAt >= items[j].row.createdAt)
            && (DistinctTimes(Matching(rows, account)) ==>
                  forall i, j :: 0 <= i < j < |items| ==> items[i].row.createdAt > items[j].row.createdAt)
            && (forall i :: 0 <= i < |items| ==> (items[i].direction.Sent? <==> items[i].row.transaction.from == account))
            && multiset(Rows(items))[r] ==
               if r.transaction.from == account || r.transaction.to == account then multiset(rows)[r] else 0
  {
    hide *;
    MatchesColumns(r, account);
    HistoryOrder(rows, account);
    HistoryLength(rows, account);
    RowsOfHistory(rows, account);
    NewestFirstSorts(Matching(rows, account));
    MatchingRows(rows, account, r);
  }

  lemma MatchesColumns(r: Row, account: Uuid)
    ensures Involves(r, account) <==> r.transaction.from == account || r.transaction.to == account
  {
  }

  /** The places of the rows whose sender or receiver is the account. */
  function PlacesOfAccount(rows: seq<Row>, account: Uuid): set<nat> {
    set i: nat | i < |rows| && (rows[i].transaction.from == account || rows[i].transaction.to == account)
  }

  lemma {:induction false} MatchingCounts(rows: seq<Row>, account: Uuid)
    ensures |Matching(rows, account)| == |PlacesOfAccount(rows, account)|
  {
    if rows != [] {
      var n := |rows| - 1;
      MatchingCounts(rows[..n], account);
      var before := PlacesOfAccount(rows[..n], account);
      assert PlacesOfAccount(rows, account) == if Involves(rows[n], account) then before + {n} else before;
    }
  }

  lemma HistoryLength(rows: seq<Row>, account: Uuid)
    ensures |FullHistory(rows, account)| == |Matching(rows, account)|
  {
    NewestFirstLength(Matching(rows, account));
  }

  // ---------------------------------------------------------------- the pages

  function TotalPages(total: nat, perPage: nat): int
    requires perPage > 0
  {
    Ceil(total as real / perPage as real)
  }

  lemma Multiply(a: int, b: int, k: nat)
    requires a <= b
    ensures a * k <= b * k
  {
  }

  lemma QuotientBelow(total: nat, perPage: nat, n: int)
    requires perPage > 0 && total as real / perPage as real <= n as real
    ensures total <= n * perPage
  {
    var x, k := total as real / perPage as real, perPage as real;
    assert x * k == total as real;
    ScaleReal(x, n as real, k);
    assert (n * perPage) as real == n as real * k;
  }

  lemma QuotientAbove(total: nat, perPage: nat, n: int)
    requires perPage > 0 && n as real < total as real / perPage as real
    ensures n * perPage < total
  {
    var x, k := total as real / perPage as real, perPage as real;
    assert x * k == total as real;
    ScaleRealStrictly(n as real, x, k);
    assert (n * perPage) as real == n as real * k;
  }

  lemma ScaleReal(a: real, b: real, k: real)
    requires a <= b && k > 0.0
    ensures a * k <= b * k
  {
  }

  lemma ScaleRealStrictly(a: real, b: real, k: real)
    requires a < b && k > 0.0
    ensures a * k < b * k
  {
  }

  /** The page count is the exact integer ceiling. */
  lemma PageCountIsExact(total: nat, perPage: nat)
    requires perPage > 0
    ensures TotalPages(total, perPage) >= 0
    ensures (TotalPages(total, perPage) - 1) * perPage < total <= TotalPages(total, perPage) * perPage
  {
    var x, n := total as real / perPage as real, TotalPages(total, perPage);
    assert (n - 1) as real < x <= n as real;
    QuotientBelow(total, perPage, n);
    QuotientAbove(total, perPage, n - 1);
    if n < 0 {
      Multiply(n, -1, perPage);
    }
  }

  /** How many items precede a page. */
  function Offset(page: int, perPage: nat): nat
    requires page > 0
  {
    Multiply(0, page - 1, perPage);
    (page - 1) * perPage
  }

  /** The p-th page, counted from 1. */
  function PageOf<T>(items: seq<T>, perPage: nat, p: nat): seq<T>
    requires p > 0
  {
    Window(items, perPage, Offset(p, perPage))
  }

  /** Pages 1 to n, one after the other. */
  function FirstPages<T>(items: seq<T>, perPage: nat, n: nat): seq<T> {
    if n == 0 then [] else FirstPages(items, perPage, n - 1) + PageOf(items, perPage, n)
  }

  function Take<T>(items: seq<T>, n: nat): seq<T> {
    if n <= |items| then items[..n] else items
  }

  lemma TakeThenWindow<T>(items: seq<T>, limit: nat, offset: nat)
    ensures Take(items, offset) + Window(items, limit, offset) == Take(items, offset + limit)
  {
  }

  lemma {:induction false} FirstPagesArePrefix<T>(items: seq<T>, perPage: nat, n: nat)
    requires perPage > 0
    ensures 0 <= n * perPage && FirstPages(items, perPage, n) == Take(items, n * perPage)
  {
    if n > 0 {
      FirstPagesArePrefix(items, perPage, n - 1);
      hide Take, Window;
      TakeThenWindow(items, perPage, (n - 1) * perPage);
      assert n * perPage == (n - 1) * perPage + perPage;
    }
  }

  /** Every page before the last is full, the last is not empty, and later pages are empty. */
  lemma PageSizes<T>(items: seq<T>, perPage: nat, p: nat)
    requires perPage > 0 && p > 0
    ensures var pages, size := TotalPages(|items|, perPage), |PageOf(items, perPage, p)|;
            && (p < pages ==> size == perPage)
            && (p == pages ==> 0 < size <= perPage)
            && (p > pages ==> size == 0)
  {
    var pages := TotalPages(|items|, perPage);
    PageCountIsExact(|items|, perPage);
    var offset := (p - 1) * perPage;
    if p < pages {
      Multiply(p, pages - 1, perPage);
      assert offset + perPage == p * perPage;
    } else if p > pages {
      Multiply(pages, p - 1, perPage);
    }
  }

  /** Pages 1 to TotalPages, put together, are the list itself: no gap and no repeat. */
  lemma PagesPartitionTheList<T>(items: seq<T>, perPage: nat)
    requires perPage > 0
    ensures TotalPages(|items|, perPage) >= 0
    ensures FirstPages(items, perPage, TotalPages(|items|, perPage)) == items
  {
    PageCountIsExact(|items|, perPage);
    FirstPagesArePrefix(items, perPage, TotalPages(|items|, perPage));
    var n := TotalPages(|items|, perPage) * perPage;
    if n == |items| {
      assert items[..n] == items;
    }
  }

  // ---------------------------------------------------------------- pages of a growing table

  /** The item is at or behind the offset. */
  ghost predicate Ahead(items: seq<Item>, item: Item, offset: int) {
    exists k :: 0 <= k < |items| && offset <= k && items[k] == item
  }

  lemma {:induction false} InsertedSomewhere(r: Row, sorted: seq<Row>) returns (k: nat)
    ensures k <= |sorted| && InsertByDate(r, sorted) == sorted[..k] + [r] + sorted[k..]
  {
    if sorted == [] || r.createdAt >= sorted[0].createdAt {
      k := 0;
    } else {
      k := InsertedSomewhere(r, sorted[1..]);
      k := k + 1;
    }
  }

  /** One more row of the table moves no item of the history towards its head. */
  lemma RowsMoveBack(rows: seq<Row>, r: Row, account: Uuid, item: Item, offset: int)
    requires Ahead(FullHistory(rows, account), item, offset)
    ensures Ahead(FullHistory(rows + [r], account), item, offset)
  {
    var items, items' := FullHistory(rows, account), FullHistory(rows + [r], account);
    var k :| 0 <= k < |items| && offset <= k && items[k] == item;
    assert (rows + [r])[..|rows|] == rows;
    var m := Matching(rows, account);
    if Involves(r, account) {
      assert (m + [r])[..|m|] == m;
      var at := InsertedSomewhere(r, NewestFirst(m));
      assert items'[if k < at then k else k + 1] == item;
    } else {
      assert m + [] == m;
      assert items'[k] == item;
    }
  }

  lemma {:induction false} GrowthMovesBack(rows: seq<Row>, grown: seq<Row>, account: Uuid, item: Item, offset: int)
    requires rows <= grown && Ahead(FullHistory(rows, account), item, offset)
    ensures Ahead(FullHistory(grown, account), item, offset)
  {
    if rows != grown {
      var init := grown[..|grown| - 1];
      GrowthMovesBack(rows, init, account, item, offset);
      RowsMoveBack(init, grown[|grown| - 1], account, item, offset);
      assert init + [grown[|grown| - 1]] == grown;
    }
  }

  lemma PageOrAhead(items: seq<Item>, item: Item, perPage: nat, p: nat)
    requires perPage > 0 && p > 0 && Ahead(items, item, (p - 1) * perPage)
    ensures item in PageOf(items, perPage, p) || Ahead(items, item, p * perPage)
  {
    var offset := (p - 1) * perPage;
    assert p * perPage == offset + perPage;
    Multiply(0, p - 1, perPage);
    var k :| 0 <= k < |items| && offset <= k && items[k] == item;
    if k < offset + perPage {
      assert Window(items, perPage, offset)[k - offset] == item;
    }
  }

  /** The tables from which page after page is read: rows are only added. */
  predicate Growing(tables: seq<seq<Row>>) {
    forall j :: 0 < j < |tables| ==> tables[j - 1] <= tables[j]
  }

  /** The item is on page j + 1, read from the j-th of these tables. */
  ghost predicate OnPage(tables: seq<seq<Row>>, j: nat, account: Uuid, perPage: nat, item: Item) {
    j < |tables| && item in PageOf(FullHistory(tables[j], account), perPage, j + 1)
  }

  /** A reader who fetches pages 1, 2, ..., n while transactions arrive may see rows twice but skips
      none: every item there was at the start has been on one of the pages or is still to come. */
  lemma {:induction false} GrowthSkipsNothing(tables: seq<seq<Row>>, account: Uuid, perPage: nat, item: Item)
    requires perPage > 0 && tables != [] && Growing(tables) && item in FullHistory(tables[0], account)
    ensures || (exists j :: OnPage(tables, j, account, perPage, item))
            || Ahead(FullHistory(tables[|tables| - 1], account), item, |tables| * perPage)
  {
    hide FullHistory, PageOf, Ahead;
    var n := |tables|;
    if n == 1 {
      assert Ahead(FullHistory(tables[0], account), item, 0) by { StartsAhead(FullHistory(tables[0], account), item); }
    } else {
      var init := tables[..n - 1];
      GrowthSkipsNothing(init, account, perPage, item);
      if j :| OnPage(init, j, account, perPage, item) {
        assert OnPage(tables, j, account, perPage, item);
        return;
      }
      GrowthMovesBack(tables[n - 2], tables[n - 1], account, item, (n - 1) * perPage);
    }
    PageOrAhead(FullHistory(tables[n - 1], account), item, perPage, n);
    assert item in PageOf(FullHistory(tables[n - 1], account), perPage, n) ==> OnPage(tables, n - 1, account, perPage, item);
  }

  lemma StartsAhead(items: seq<Item>, item: Item)
    requires item in items
    ensures Ahead(items, item, 0)
  {
  }

  lemma MoreRowsMorePages(few: nat, many: nat, perPage: nat)
    requires perPage > 0 && few <= many
    ensures TotalPages(few, perPage) <= TotalPages(many, perPage)
  {
    PageCountIsExact(few, perPage);
    PageCountIsExact(many, perPage);
    if TotalPages(many, perPage) < TotalPages(few, perPage) {
      Multiply(TotalPages(many, perPage), TotalPages(few, perPage) - 1, perPage);
    }
  }

  lemma {:induction false} MatchingGrows(rows: seq<Row>, grown: seq<Row>, account: Uuid)
    requires rows <= grown
    ensures |Matching(rows, account)| <= |Matching(grown, account)|
  {
    if rows != grown {
      MatchingGrows(rows, grown[..|grown| - 1], account);
    }
  }

  // ---------------------------------------------------------------- the handler

  /** parseIntParam: a missing or malformed parameter gives the fallback. */
  function ParseIntParam(parsed: Option<int>, fallback: int): int {
    if parsed.Some? then parsed.value else fallback
  }

  /** handleGetHistory for an account that belongs to the caller: whatever the parameters, the answer
      is a page of the full history, and its total and page count describe the history as it was when
      the rows were counted. A page within that count is never empty; a page beyond it is not empty
      exactly when the rows that came in between reach it. */
  method HandleGetHistory(counted: seq<Row>, listed: seq<Row>, account: Uuid, pageParam: Option<int>, perPageParam: Option<int>)
    returns (r: Page)
    ensures r.page >= 1 && 1 <= r.perPage <= 100
    ensures pageParam.Some? && pageParam.value >= 1 ==> r.page == pageParam.value
    ensures perPageParam.Some? && 1 <= perPageParam.value <= 100 ==> r.perPage == perPageParam.value
    ensures pageParam.None? || pageParam.value < 1 ==> r.page == 1
    ensures perPageParam.None? || perPageParam.value < 1 ==> r.perPage == 20
    ensures perPageParam.Some? && perPageParam.value > 100 ==> r.perPage == 100
    ensures r.items == PageOf(FullHistory(listed, account), r.perPage, r.page)
    ensures r.total == |PlacesOfAccount(counted, account)|
    ensures r.totalPages == TotalPages(r.total, r.perPage)
    ensures r.items != [] <==> r.page <= TotalPages(|FullHistory(listed, account)|, r.perPage)
    ensures counted <= listed && r.page <= r.totalPages ==> r.items != []
  {
    hide FullHistory, Matching, PlacesOfAccount, NewestFirst, Window, TotalPages, Offset;
    var page := ParseIntParam(pageParam, DEFAULT_PAGE);
    var perPage := ParseIntParam(perPageParam, DEFAULT_PER_PAGE);
    if page < 1 {
      page := 1;
    }
    if perPage < 1 {
      perPage := DEFAULT_PER_PAGE;
    }
    if perPage > MAX_PER_PAGE {
      perPage := MAX_PER_PAGE;
    }
    var offset := Offset(page, perPage);
    var (items, total) := GetTransactionHistory(counted, listed, account, perPage, offset);
    var totalPages := TotalPages(total, perPage);
    MatchingCounts(counted, account);
    HistoryLength(listed, account);
    PageSizes(FullHistory(listed, account), perPage, page);
    if counted <= listed {
      MatchingGrows(counted, listed, account);
      MoreRowsMorePages(total, |Matching(listed, account)|, perPage);
    }
    return Page(items, total, page, perPage, totalPages);
  }

  /** verifyOwnership: the first of the user's accounts with the id, if there is one. */
  method VerifyOwnership(accounts: seq<Uuid>, account: Uuid) returns (found: Option<nat>)
    ensures found.None? <==> account !in accounts
    ensures found.Some? ==> found.value < |accounts| && accounts[found.value] == account && account !in accounts[..found.value]
  {
    for i := 0 to |accounts|
      invariant account !in accounts[..i]
    {
      if accounts[i] == account {
        return Some(i);
      }
    }
    return None;
  }
}
