/** Pages of a project's history. Each page merges two queries, one per schema version, and both
    are limited before they are merged. */
module Paging {
  import opened Wrappers
  import opened Sorting

  type Id = nat

  /** A revision in the table; `retained` are those of the first schema version. */
  datatype Row = Row(id: Id, number: nat, retained: bool)

  // ---- the repository and the service -------------------------------------------------------------------

  function Descending(rows: seq<Row>): seq<Row> {
    SortBy(rows, (row: Row) => row.number, (a: nat, b: nat) => a >= b)
  }

  function Take(rows: seq<Row>, limit: nat): seq<Row> {
    if |rows| <= limit then rows else rows[..limit]
  }

  function Filter(rows: seq<Row>, p: Row -> bool): seq<Row> {
    if |rows| == 0 then [] else (if p(rows[0]) then [rows[0]] else []) + Filter(rows[1..], p)
  }

  /** The number of the cursor's revision, if there is such a revision. */
  function NumberOf(rows: seq<Row>, id: Id): Option<nat> {
    if |rows| == 0 then None else if rows[0].id == id then Some(rows[0].number) else NumberOf(rows[1..], id)
  }

  /** `$2 IS NULL OR number < (the cursor's number)`, which an unknown cursor makes false. */
  predicate BeforeCursor(rows: seq<Row>, cursor: Option<Id>, row: Row) {
    cursor.None? || (NumberOf(rows, cursor.value).Some? && row.number < NumberOf(rows, cursor.value).value)
  }

  function Query(rows: seq<Row>, retained: bool, limit: nat, cursor: Option<Id>): seq<Row> {
    Take(Descending(Filter(rows, (row: Row) => row.retained == retained && BeforeCursor(rows, cursor, row))), limit)
  }

  function ListRevisions(rows: seq<Row>, limit: nat, cursor: Option<Id>): seq<Row> {
    Take(Descending(Query(rows, false, limit, cursor) + Query(rows, true, limit, cursor)), limit)
  }

  datatype Page = Page(revisions: seq<Row>, nextCursor: Option<Id>)

  /** The service asks for one more than it shows. */
  function ServicePage(rows: seq<Row>, limit: nat, cursor: Option<Id>): Page {
    var records := ListRevisions(rows, limit + 1, cursor);
    var revisions := Take(records, limit);
    Page(revisions, if |records| > limit && |revisions| > 0 then Some(revisions[|revisions| - 1].id) else None)
  }

  // ---- strictly descending rows ----------------------------------------------------------------------------

  predicate Strict(rows: seq<Row>) {
    forall i, j :: 0 <= i < j < |rows| ==> rows[i].number > rows[j].number
  }

  predicate DistinctRows(rows: seq<Row>) {
    forall i, j :: 0 <= i < j < |rows| ==> rows[i].number != rows[j].number && rows[i].id != rows[j].id
  }

  lemma DropHead(a: seq<Row>)
    requires |a| > 0
    ensures multiset(a) == multiset{a[0]} + multiset(a[1..])
    ensures multiset(a[1..]) == multiset(a) - multiset{a[0]}
  {
    assert a == [a[0]] + a[1..];
  }

  lemma {:induction false} StrictIsUnique(a: seq<Row>, b: seq<Row>)
    requires Strict(a) && Strict(b) && multiset(a) == multiset(b)
    ensures a == b
  {
    if |a| == 0 {
      assert |b| == |multiset(b)| == 0;
    } else {
      assert |b| == |multiset(b)| == |multiset(a)| == |a|;
      assert a[0] in multiset(b) && b[0] in multiset(a);
      var i :| 0 <= i < |b| && b[i] == a[0];
      var j :| 0 <= j < |a| && a[j] == b[0];
      assert b[0].number >= b[i].number && a[0].number >= a[j].number;
      assert i == 0;
      DropHead(a);
      DropHead(b);
      StrictIsUnique(a[1..], b[1..]);
    }
  }

  lemma TwiceCounts(b: seq<Row>, i: nat, j: nat)
    requires i < j < |b| && b[i] == b[j]
    ensures multiset(b)[b[i]] >= 2
  {
    assert b == b[..i] + [b[i]] + b[i + 1..j] + [b[j]] + b[j + 1..];
  }

  lemma DistinctByContents(a: seq<Row>, b: seq<Row>)
    requires DistinctRows(a) && multiset(a) == multiset(b)
    ensures DistinctRows(b)
  {
    forall i: nat, j: nat | i < j < |b| ensures b[i].number != b[j].number && b[i].id != b[j].id {
      assert b[i] in multiset(a) && b[j] in multiset(a);
      if b[i] == b[j] {
        TwiceCounts(b, i, j);
        OnceOnly(a, b[i]);
      }
    }
  }

  lemma {:induction false} OnceOnly(a: seq<Row>, row: Row)
    requires DistinctRows(a)
    ensures multiset(a)[row] <= 1
  {
    if |a| > 0 {
      OnceOnly(a[1..], row);
      assert a == [a[0]] + a[1..];
    }
  }

  lemma DescendingIsStrict(rows: seq<Row>)
    requires DistinctRows(rows)
    ensures Strict(Descending(rows)) && multiset(Descending(rows)) == multiset(rows)
    ensures DistinctRows(Descending(rows))
  {
    var key, le := (row: Row) => row.number, (a: nat, b: nat) => a >= b;
    SortContents(rows, key, le);
    SortAscending(rows, key, le);
    DistinctByContents(rows, Descending(rows));
  }

  // ---- merging limited queries ---------------------------------------------------------------------------------

  function Merge(a: seq<Row>, b: seq<Row>): seq<Row> {
    if |a| == 0 then b
    else if |b| == 0 then a
    else if a[0].number > b[0].number then [a[0]] + Merge(a[1..], b)
    else [b[0]] + Merge(a, b[1..])
  }

  lemma {:induction false} MergeContents(a: seq<Row>, b: seq<Row>)
    ensures multiset(Merge(a, b)) == multiset(a) + multiset(b)
    decreases |a| + |b|
  {
    if |a| == 0 || |b| == 0 {
    } else if a[0].number > b[0].number {
      MergeContents(a[1..], b);
      assert a == [a[0]] + a[1..];
    } else {
      MergeContents(a, b[1..]);
      assert b == [b[0]] + b[1..];
    }
  }

  predicate Apart(a: seq<Row>, b: seq<Row>) {
    forall i, j :: 0 <= i < |a| && 0 <= j < |b| ==> a[i].number != b[j].number
  }

  lemma {:induction false} MergeStrict(a: seq<Row>, b: seq<Row>)
    requires Strict(a) && Strict(b) && Apart(a, b)
    ensures Strict(Merge(a, b))
    ensures forall i :: 0 <= i < |Merge(a, b)| ==> Merge(a, b)[i] in a || Merge(a, b)[i] in b
    decreases |a| + |b|
  {
    if |a| == 0 || |b| == 0 {
    } else if a[0].number > b[0].number {
      MergeStrict(a[1..], b);
    } else {
      MergeStrict(a, b[1..]);
    }
  }

  lemma TakeCons(row: Row, rows: seq<Row>, n: nat)
    requires n > 0
    ensures Take([row] + rows, n) == [row] + Take(rows, n - 1)
  {
  }

  lemma TakeTake(rows: seq<Row>, n: nat, limit: nat)
    requires n >= limit
    ensures Take(Take(rows, n), limit) == Take(rows, limit)
  {
  }

  lemma MergeEmpty(a: seq<Row>)
    ensures Merge(a, []) == a && Merge([], a) == a
  {
  }

  lemma MergeCons(a: seq<Row>, b: seq<Row>)
    requires |a| > 0 && |b| > 0
    ensures a[0].number > b[0].number ==> Merge(a, b) == [a[0]] + Merge(a[1..], b)
    ensures a[0].number <= b[0].number ==> Merge(a, b) == [b[0]] + Merge(a, b[1..])
  {
  }

  lemma TakeSplit(a: seq<Row>, n: nat)
    requires |a| > 0 && n > 0
    ensures |Take(a, n)| > 0 && Take(a, n)[0] == a[0] && Take(a, n)[1..] == Take(a[1..], n - 1)
  {
  }

  /** Limiting both sides first does not change the limited merge. */
  lemma {:induction false} LimitedMerge(a: seq<Row>, b: seq<Row>, n: nat, m: nat, limit: nat)
    requires n >= limit && m >= limit
    ensures Take(Merge(Take(a, n), Take(b, m)), limit) == Take(Merge(a, b), limit)
    decreases |a| + |b|
  {
    if limit == 0 {
    } else if |a| == 0 || |b| == 0 {
      MergeEmpty(if |a| == 0 then b else a);
      MergeEmpty(if |a| == 0 then Take(b, m) else Take(a, n));
      TakeTake(if |a| == 0 then b else a, if |a| == 0 then m else n, limit);
    } else {
      TakeSplit(a, n);
      TakeSplit(b, m);
      MergeCons(a, b);
      MergeCons(Take(a, n), Take(b, m));
      if a[0].number > b[0].number {
        LimitedMerge(a[1..], b, n - 1, m, limit - 1);
        TakeCons(a[0], Merge(a[1..], b), limit);
        TakeCons(a[0], Merge(Take(a[1..], n - 1), Take(b, m)), limit);
      } else {
        LimitedMerge(a, b[1..], n, m - 1, limit - 1);
        TakeCons(b[0], Merge(a, b[1..]), limit);
        TakeCons(b[0], Merge(Take(a, n), Take(b[1..], m - 1)), limit);
      }
    }
  }

  // ---- a page is a piece of the sorted history ------------------------------------------------------------------

  lemma {:induction false} FilterContents(rows: seq<Row>, p: Row -> bool, row: Row)
    ensures multiset(Filter(rows, p))[row] == if p(row) then multiset(rows)[row] else 0
  {
    if |rows| > 0 {
      FilterContents(rows[1..], p, row);
      assert rows == [rows[0]] + rows[1..];
    }
  }

  lemma FilterMember(rows: seq<Row>, p: Row -> bool, row: Row)
    ensures row in Filter(rows, p) <==> row in rows && p(row)
  {
    FilterContents(rows, p, row);
    assert row in Filter(rows, p) <==> multiset(Filter(rows, p))[row] > 0;
    assert row in rows <==> multiset(rows)[row] > 0;
  }

  lemma {:induction false} FilterDistinct(rows: seq<Row>, p: Row -> bool)
    requires DistinctRows(rows)
    ensures DistinctRows(Filter(rows, p))
  {
    if |rows| > 0 {
      FilterDistinct(rows[1..], p);
      var rest := Filter(rows[1..], p);
      forall i | 0 <= i < |rest| ensures rest[i].number != rows[0].number && rest[i].id != rows[0].id {
        FilterMember(rows[1..], p, rest[i]);
        assert rest[i] in rest;
      }
    }
  }

  function Below(rows: seq<Row>, cursor: Option<Id>): seq<Row> {
    Filter(rows, (row: Row) => BeforeCursor(rows, cursor, row))
  }

  function Kind(rows: seq<Row>, retained: bool, cursor: Option<Id>): seq<Row> {
    Filter(rows, (row: Row) => row.retained == retained && BeforeCursor(rows, cursor, row))
  }

  lemma KindsMakeBelow(rows: seq<Row>, cursor: Option<Id>)
    ensures multiset(Kind(rows, false, cursor)) + multiset(Kind(rows, true, cursor)) == multiset(Below(rows, cursor))
  {
    var a, b, all := Kind(rows, false, cursor), Kind(rows, true, cursor), Below(rows, cursor);
    forall row: Row ensures (multiset(a) + multiset(b))[row] == multiset(all)[row] {
      FilterContents(rows, (row: Row) => row.retained == false && BeforeCursor(rows, cursor, row), row);
      FilterContents(rows, (row: Row) => row.retained == true && BeforeCursor(rows, cursor, row), row);
      FilterContents(rows, (row: Row) => BeforeCursor(rows, cursor, row), row);
    }
  }

  lemma KindsApart(rows: seq<Row>, cursor: Option<Id>)
    requires DistinctRows(rows)
    ensures Apart(Descending(Kind(rows, false, cursor)), Descending(Kind(rows, true, cursor)))
  {
    var a, b := Kind(rows, false, cursor), Kind(rows, true, cursor);
    FilterDistinct(rows, (row: Row) => row.retained == false && BeforeCursor(rows, cursor, row));
    FilterDistinct(rows, (row: Row) => row.retained == true && BeforeCursor(rows, cursor, row));
    DescendingIsStrict(a);
    DescendingIsStrict(b);
    var x, y := Descending(a), Descending(b);
    forall i, j | 0 <= i < |x| && 0 <= j < |y| ensures x[i].number != y[j].number {
      assert x[i] in multiset(a) && y[j] in multiset(b);
      FilterMember(rows, (row: Row) => row.retained == false && BeforeCursor(rows, cursor, row), x[i]);
      FilterMember(rows, (row: Row) => row.retained == true && BeforeCursor(rows, cursor, row), y[j]);
    }
  }

  /** Sorting two sorted pieces together is merging them. */
  lemma SortIsMerge(a: seq<Row>, b: seq<Row>, all: seq<Row>)
    requires Strict(a) && Strict(b) && Apart(a, b) && multiset(all) == multiset(a) + multiset(b)
    ensures Descending(all) == Merge(a, b)
  {
    MergeContents(a, b);
    MergeStrict(a, b);
    StrictIsDistinctNumbers(a, b, all);
    StrictIsUnique(Descending(all), Merge(a, b));
  }

  lemma StrictIsDistinctNumbers(a: seq<Row>, b: seq<Row>, all: seq<Row>)
    requires Strict(Merge(a, b)) && multiset(all) == multiset(Merge(a, b))
    ensures Strict(Descending(all)) && multiset(Descending(all)) == multiset(all)
  {
    var key, le := (row: Row) => row.number, (x: nat, y: nat) => x >= y;
    SortContents(all, key, le);
    SortAscending(all, key, le);
    var d := Descending(all);
    forall i: nat, j: nat | i < j < |d| ensures d[i].number > d[j].number {
      SameNumbers(Merge(a, b), d, i, j);
      assert le(key(d[i]), key(d[j]));
    }
  }

  lemma SameNumbers(m: seq<Row>, d: seq<Row>, i: nat, j: nat)
    requires Strict(m) && multiset(d) == multiset(m) && i < j < |d|
    ensures d[i].number != d[j].number
  {
    assert d[i] in multiset(m) && d[j] in multiset(m);
    if d[i] == d[j] {
      TwiceCounts(d, i, j);
      StrictOnce(m, d[i]);
    }
  }

  lemma {:induction false} StrictOnce(m: seq<Row>, row: Row)
    requires Strict(m)
    ensures multiset(m)[row] <= 1
  {
    if |m| > 0 {
      StrictOnce(m[1..], row);
      assert m == [m[0]] + m[1..];
    }
  }

  lemma TakeStrict(a: seq<Row>, b: seq<Row>, n: nat)
    requires Strict(a) && Strict(b) && Apart(a, b)
    ensures Strict(Take(a, n)) && Strict(Take(b, n)) && Apart(Take(a, n), Take(b, n))
  {
  }

  /** Although both queries are limited before they are merged, a page is the limited sorted
      history. */
  lemma ListIsLimitedHistory(rows: seq<Row>, limit: nat, cursor: Option<Id>)
    requires DistinctRows(rows)
    ensures ListRevisions(rows, limit, cursor) == Take(Descending(Below(rows, cursor)), limit)
  {
    var a, b := Kind(rows, false, cursor), Kind(rows, true, cursor);
    var x, y := Descending(a), Descending(b);
    FilterDistinct(rows, (row: Row) => row.retained == false && BeforeCursor(rows, cursor, row));
    FilterDistinct(rows, (row: Row) => row.retained == true && BeforeCursor(rows, cursor, row));
    DescendingIsStrict(a);
    DescendingIsStrict(b);
    KindsApart(rows, cursor);
    KindsMakeBelow(rows, cursor);
    SortIsMerge(x, y, Below(rows, cursor));
    TakeStrict(x, y, limit);
    SortIsMerge(Take(x, limit), Take(y, limit), Take(x, limit) + Take(y, limit));
    LimitedMerge(x, y, limit, limit, limit);
  }

  lemma {:induction false} FilterSuffix(rows: seq<Row>, k: nat, p: Row -> bool)
    requires k <= |rows| && (forall i :: 0 <= i < k ==> !p(rows[i])) && (forall i :: k <= i < |rows| ==> p(rows[i]))
    ensures Filter(rows, p) == rows[k..]
  {
    if |rows| > 0 {
      FilterSuffix(rows[1..], if k == 0 then 0 else k - 1, p);
      if k == 0 {
        assert rows == [rows[0]] + rows[1..] && rows[1..][0..] == rows[1..];
      } else {
        assert rows[1..][k - 1..] == rows[k..];
      }
    }
  }

  lemma {:induction false} NumberOfRow(rows: seq<Row>, row: Row)
    requires DistinctRows(rows) && row in rows
    ensures NumberOf(rows, row.id) == Some(row.number)
  {
    if rows[0] != row {
      var i :| 0 <= i < |rows| && rows[i] == row;
      assert rows[1..][i - 1] == row;
      NumberOfRow(rows[1..], row);
    }
  }

  /** The cursor after the first `k` rows of the history. */
  function CursorAt(rows: seq<Row>, k: nat): Option<Id>
    requires k <= |Descending(rows)|
  {
    if k == 0 then None else Some(Descending(rows)[k - 1].id)
  }

  lemma FilterOfSorted(rows: seq<Row>, d: seq<Row>, k: nat, p: Row -> bool)
    requires multiset(rows) == multiset(d) && k <= |d|
    requires (forall i :: 0 <= i < k ==> !p(d[i])) && (forall i :: k <= i < |d| ==> p(d[i]))
    ensures multiset(Filter(rows, p)) == multiset(d[k..])
  {
    FilterSuffix(d, k, p);
    forall row: Row ensures multiset(Filter(rows, p))[row] == multiset(d[k..])[row] {
      FilterContents(rows, p, row);
      FilterContents(d, p, row);
    }
  }

  lemma CursorSeparates(rows: seq<Row>, k: nat)
    requires DistinctRows(rows) && k <= |Descending(rows)|
    ensures var d, cursor := Descending(rows), CursorAt(rows, k);
      forall i :: 0 <= i < |d| ==> (BeforeCursor(rows, cursor, d[i]) <==> k <= i)
  {
    var d := Descending(rows);
    DescendingIsStrict(rows);
    if k > 0 {
      assert d[k - 1] in multiset(rows);
      NumberOfRow(rows, d[k - 1]);
    }
  }

  /** After the first `k` rows of the history come the others. */
  lemma BelowIsRest(rows: seq<Row>, k: nat)
    requires DistinctRows(rows) && k <= |Descending(rows)|
    ensures Descending(Below(rows, CursorAt(rows, k))) == Descending(rows)[k..]
  {
    var d, cursor := Descending(rows), CursorAt(rows, k);
    var p := (row: Row) => BeforeCursor(rows, cursor, row);
    DescendingIsStrict(rows);
    CursorSeparates(rows, k);
    FilterOfSorted(rows, d, k, p);
    FilterDistinct(rows, p);
    DescendingIsStrict(Filter(rows, p));
    StrictIsUnique(Descending(Filter(rows, p)), d[k..]);
  }

  /** The page after the first `k` rows shows the next `limit` of them, and its cursor continues
      exactly there, unless nothing is left. */
  lemma PageAt(rows: seq<Row>, limit: nat, k: nat)
    requires DistinctRows(rows) && k <= |Descending(rows)| && limit > 0
    ensures var d, page := Descending(rows), ServicePage(rows, limit, CursorAt(rows, k));
      && page.revisions == Take(d[k..], limit)
      && (if k + limit < |d| then page.nextCursor == CursorAt(rows, k + limit) else page.nextCursor.None?)
  {
    ListIsLimitedHistory(rows, limit + 1, CursorAt(rows, k));
    BelowIsRest(rows, k);
    PageOfList(rows, limit, CursorAt(rows, k), Descending(rows)[k..]);
  }

  lemma PageOfList(rows: seq<Row>, limit: nat, cursor: Option<Id>, rest: seq<Row>)
    requires limit > 0 && ListRevisions(rows, limit + 1, cursor) == Take(rest, limit + 1)
    ensures ServicePage(rows, limit, cursor).revisions == Take(rest, limit)
    ensures ServicePage(rows, limit, cursor).nextCursor == if |rest| > limit then Some(rest[limit - 1].id) else None
  {
    TakeTake(rest, limit + 1, limit);
  }

  // ---- following the cursors -----------------------------------------------------------------------------------------

  /** `pages` are what a reader gets who starts at `cursor` and follows each next cursor to the end. */
  predicate Follows(rows: seq<Row>, limit: nat, cursor: Option<Id>, pages: seq<Page>)
    decreases |pages|
  {
    && |pages| > 0
    && pages[0] == ServicePage(rows, limit, cursor)
    && if pages[0].nextCursor.None? then |pages| == 1 else Follows(rows, limit, pages[0].nextCursor, pages[1..])
  }

  function Shown(pages: seq<Page>): seq<Row> {
    if |pages| == 0 then [] else pages[0].revisions + Shown(pages[1..])
  }

  lemma FollowsOn(rows: seq<Row>, limit: nat, cursor: Option<Id>, rest: seq<Page>)
    requires var page := ServicePage(rows, limit, cursor);
      page.nextCursor.Some? && Follows(rows, limit, page.nextCursor, rest)
    ensures var page := ServicePage(rows, limit, cursor);
      Follows(rows, limit, cursor, [page] + rest) && Shown([page] + rest) == page.revisions + Shown(rest)
  {
    assert ([ServicePage(rows, limit, cursor)] + rest)[1..] == rest;
  }

  lemma LastPage(rows: seq<Row>, limit: nat, cursor: Option<Id>)
    requires ServicePage(rows, limit, cursor).nextCursor.None?
    ensures var page := ServicePage(rows, limit, cursor);
      Follows(rows, limit, cursor, [page]) && Shown([page]) == page.revisions
  {
    var page := ServicePage(rows, limit, cursor);
    assert [page][1..] == [] && page.revisions + [] == page.revisions;
  }

  lemma TakeThenRest(d: seq<Row>, k: nat, limit: nat)
    requires k <= |d|
    ensures k + limit < |d| ==> Take(d[k..], limit) + d[k + limit..] == d[k..]
    ensures k + limit >= |d| ==> Take(d[k..], limit) == d[k..]
  {
  }

  lemma {:induction false} FollowsFrom(rows: seq<Row>, limit: nat, k: nat) returns (pages: seq<Page>)
    requires DistinctRows(rows) && limit > 0 && k <= |Descending(rows)|
    ensures Follows(rows, limit, CursorAt(rows, k), pages)
    ensures Shown(pages) == Descending(rows)[k..]
    decreases |Descending(rows)| - k
  {
    var d, cursor := Descending(rows), CursorAt(rows, k);
    var page := ServicePage(rows, limit, cursor);
    PageAt(rows, limit, k);
    TakeThenRest(d, k, limit);
    if k + limit < |d| {
      var rest := FollowsFrom(rows, limit, k + limit);
      FollowsOn(rows, limit, cursor, rest);
      pages := [page] + rest;
    } else {
      LastPage(rows, limit, cursor);
      pages := [page];
    }
  }

  lemma {:induction false} OneWayToFollow(rows: seq<Row>, limit: nat, cursor: Option<Id>, a: seq<Page>, b: seq<Page>)
    requires Follows(rows, limit, cursor, a) && Follows(rows, limit, cursor, b)
    ensures a == b
    decreases |a|
  {
    if a[0].nextCursor.Some? {
      OneWayToFollow(rows, limit, a[0].nextCursor, a[1..], b[1..]);
      assert a == [a[0]] + a[1..] && b == [b[0]] + b[1..];
    }
  }

  /** Following the cursors ends, and shows every revision of either schema version exactly once, in
      strictly descending order, whatever the page limit. */
  lemma PagesPartitionHistory(rows: seq<Row>, limit: nat) returns (pages: seq<Page>)
    requires DistinctRows(rows) && limit >= 1
    ensures Follows(rows, limit, None, pages)
    ensures forall other :: Follows(rows, limit, None, other) ==> other == pages
    ensures Strict(Shown(pages)) && multiset(Shown(pages)) == multiset(rows)
  {
    pages := FollowsFrom(rows, limit, 0);
    DescendingIsStrict(rows);
    assert Descending(rows)[0..] == Descending(rows);
    forall other | Follows(rows, limit, None, other) ensures other == pages {
      OneWayToFollow(rows, limit, None, other, pages);
    }
  }
}
