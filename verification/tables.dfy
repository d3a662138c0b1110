/**
 * Tables as sequences of rows in insertion (auto-increment id) order, and
 * the query building blocks the services use: lookup by key, `where`
 * filtering, `orderBy`, and `skip`/`take` pagination.
 */
module Tables {
  import opened Wrappers

  /** Keys strictly increase along the table: auto-increment ids. */
  predicate Ascending<T>(rows: seq<T>, key: T -> int) {
    forall i, j | 0 <= i < j < |rows| :: key(rows[i]) < key(rows[j])
  }

  predicate Descending<T>(rows: seq<T>, key: T -> int) {
    forall i, j | 0 <= i < j < |rows| :: key(rows[i]) > key(rows[j])
  }

  predicate NonDecreasing<T>(rows: seq<T>, key: T -> int) {
    forall i, j | 0 <= i < j < |rows| :: key(rows[i]) <= key(rows[j])
  }

  /** `findUnique({ where: { id } })` */
  function Find<T>(rows: seq<T>, key: T -> int, id: int): (r: Option<T>)
    ensures r.Some? ==> r.value in rows && key(r.value) == id
    ensures r.None? <==> forall x | x in rows :: key(x) != id
  {
    if |rows| == 0 then None
    else if key(rows[0]) == id then Some(rows[0])
    else Find(rows[1..], key, id)
  }

  /** The position of the row with key `id`, or -1. */
  function Position<T>(rows: seq<T>, key: T -> int, id: int): (r: int)
    ensures -1 <= r < |rows|
    ensures 0 <= r ==> key(rows[r]) == id
    ensures r == -1 <==> forall x | x in rows :: key(x) != id
  {
    if |rows| == 0 then -1
    else if key(rows[0]) == id then 0
    else
      var k := Position(rows[1..], key, id);
      if k < 0 then -1 else k + 1
  }

  /** Deleting the row at `i` keeps every other row and adds none. */
  lemma DeleteAt<T>(rows: seq<T>, i: int)
    requires 0 <= i < |rows|
    ensures |rows[..i] + rows[i + 1..]| == |rows| - 1
    ensures forall x | x in rows[..i] + rows[i + 1..] :: x in rows
    ensures forall x | x in rows && x != rows[i] :: x in rows[..i] + rows[i + 1..]
  {
    assert rows == rows[..i] + [rows[i]] + rows[i + 1..];
  }

  /** With unique keys, lookup by key finds the row at that key's position. */
  lemma FindAtPosition<T>(rows: seq<T>, key: T -> int, id: int)
    requires Ascending(rows, key)
    ensures Find(rows, key, id) == if Position(rows, key, id) < 0 then None else Some(rows[Position(rows, key, id)])
  {
    if |rows| > 0 && key(rows[0]) != id {
      FindAtPosition(rows[1..], key, id);
    }
  }

  /** Keys identify rows: under ascending keys, a row with the key of `x` is `x`. */
  lemma SameKeySameRow<T>(rows: seq<T>, key: T -> int, x: T)
    requires Ascending(rows, key) && x in rows
    ensures forall y | y in rows && key(y) == key(x) :: y == x
  {
    forall y | y in rows && key(y) == key(x) ensures y == x {
      var i :| 0 <= i < |rows| && rows[i] == x;
      var j :| 0 <= j < |rows| && rows[j] == y;
      assert !(i < j) && !(j < i);
    }
  }

  /** A `where` clause: the rows that satisfy `keep`, in table order. */
  function Filter<T>(rows: seq<T>, keep: T -> bool): (r: seq<T>)
    ensures |r| <= |rows|
    ensures forall x | x in r :: x in rows && keep(x)
    ensures forall x | x in rows && keep(x) :: x in r
  {
    if |rows| == 0 then []
    else (if keep(rows[0]) then [rows[0]] else []) + Filter(rows[1..], keep)
  }

  /** `count({ where })` */
  function Count<T>(rows: seq<T>, keep: T -> bool): nat {
    |Filter(rows, keep)|
  }

  /** A `where` no row satisfies selects nothing. */
  lemma FilterNone<T>(rows: seq<T>, keep: T -> bool)
    requires forall i | 0 <= i < |rows| :: !keep(rows[i])
    ensures Filter(rows, keep) == []
  {
  }

  /** A `where` every row satisfies selects the whole table. */
  lemma FilterAll<T>(rows: seq<T>, keep: T -> bool)
    requires forall i | 0 <= i < |rows| :: keep(rows[i])
    ensures Filter(rows, keep) == rows
  {
  }

  /** Filtering keeps table order. */
  lemma {:induction false} FilterKeepsAscending<T>(rows: seq<T>, keep: T -> bool, key: T -> int)
    requires Ascending(rows, key)
    ensures Ascending(Filter(rows, keep), key)
  {
    if |rows| > 0 {
      var rest := Filter(rows[1..], keep);
      FilterKeepsAscending(rows[1..], keep, key);
      if keep(rows[0]) {
        forall j | 0 <= j < |rest| ensures key(rows[0]) < key(rest[j]) {
          assert rest[j] in rows[1..];
        }
      }
    }
  }

  /** Filtering distributes over concatenation. */
  lemma {:induction false} FilterAppend<T>(a: seq<T>, b: seq<T>, keep: T -> bool)
    ensures Filter(a + b, keep) == Filter(a, keep) + Filter(b, keep)
  {
    if |a| == 0 {
      assert a + b == b;
    } else {
      assert (a + b)[1..] == a[1..] + b;
      FilterAppend(a[1..], b, keep);
    }
  }

  /** Reverse table order: `orderBy: { id: "desc" }` over an id-ordered table. */
  function Reverse<T>(s: seq<T>): (r: seq<T>)
    ensures |r| == |s|
    ensures forall i | 0 <= i < |s| :: r[i] == s[|s| - 1 - i]
  {
    if |s| == 0 then [] else Reverse(s[1..]) + [s[0]]
  }

  lemma ReverseDescends<T>(rows: seq<T>, key: T -> int)
    requires Ascending(rows, key)
    ensures Descending(Reverse(rows), key)
  {
  }

  /** `skip: (page - 1) * pageSize` */
  function Offset(page: int, pageSize: int): (r: int)
    requires page >= 1 && pageSize >= 1
    ensures r >= 0
    ensures r < page * pageSize && r + pageSize == page * pageSize
  {
    (page - 1) * pageSize
  }

  /** `skip` then `take`: at most `take` rows, starting `skip` rows in. */
  function Window<T>(rows: seq<T>, skip: nat, take: nat): (r: seq<T>)
    ensures |r| <= take
    ensures |r| == if skip >= |rows| then 0 else if |rows| - skip < take then |rows| - skip else take
    ensures forall i | 0 <= i < |r| :: r[i] == rows[skip + i]
  {
    if skip >= |rows| then []
    else if |rows| - skip < take then rows[skip..]
    else rows[skip..skip + take]
  }

  /** Adjacent windows tile: page `n` followed by page `n + 1` is the double-sized window. */
  lemma WindowsTile<T>(rows: seq<T>, skip: nat, m: nat, n: nat)
    ensures Window(rows, skip, m) + Window(rows, skip + m, n) == Window(rows, skip, m + n)
  {
  }

  /** Every row sits on the page its position determines, at the position's remainder. */
  lemma RowOnItsPage<T>(rows: seq<T>, i: nat, pageSize: int) returns (page: int, slot: nat)
    requires i < |rows| && pageSize >= 1
    ensures page == i / pageSize + 1 && slot == i % pageSize
    ensures page >= 1 && Offset(page, pageSize) + slot == i
    ensures slot < |Window(rows, Offset(page, pageSize), pageSize)|
    ensures Window(rows, Offset(page, pageSize), pageSize)[slot] == rows[i]
  {
    page, slot := i / pageSize + 1, i % pageSize;
  }

  /** How many of `n` rows page `page` holds: a full page, the remainder, or none. */
  function PageLength(n: nat, page: int, pageSize: int): nat
    requires page >= 1 && pageSize >= 1
  {
    var skip := Offset(page, pageSize);
    if skip >= n then 0 else if n - skip < pageSize then n - skip else pageSize
  }

  /** `items` is page `page` of `rows`: the rows from the page's offset on, as many as fit. */
  ghost predicate IsPage<T>(items: seq<T>, rows: seq<T>, page: int, pageSize: int)
    requires page >= 1 && pageSize >= 1
  {
    && |items| == PageLength(|rows|, page, pageSize)
    && forall i | 0 <= i < |items| ::
         Offset(page, pageSize) + i < |rows| && items[i] == rows[Offset(page, pageSize) + i]
  }

  /** A page of a list query, echoing the requested page and size. */
  datatype Page<T> = Page(items: seq<T>, total: nat, page: int, pageSize: int)

  /** `findMany({ skip, take })` together with `count()` over the same matching rows. */
  function Paginate<T>(matching: seq<T>, page: int, pageSize: int): (r: Page<T>)
    requires page >= 1 && pageSize >= 1
    ensures r.total == |matching| && r.page == page && r.pageSize == pageSize
    ensures |r.items| <= pageSize
    ensures IsPage(r.items, matching, page, pageSize)
  {
    Page(Window(matching, Offset(page, pageSize), pageSize), |matching|, page, pageSize)
  }

  /** Insert `x` into a list ordered by `key`, before the first row with a key not below it. */
  function InsertBy<T>(x: T, s: seq<T>, key: T -> int): (r: seq<T>)
    requires NonDecreasing(s, key)
    ensures NonDecreasing(r, key)
    ensures multiset(r) == multiset(s) + multiset{x}
  {
    if |s| == 0 then [x]
    else if key(x) <= key(s[0]) then [x] + s
    else
      var rest := InsertBy(x, s[1..], key);
      assert s == [s[0]] + s[1..];
      forall j | 0 <= j < |rest| ensures key(s[0]) <= key(rest[j]) {
        assert rest[j] in multiset(rest);
        assert rest[j] == x || rest[j] in s[1..];
      }
      [s[0]] + rest
  }

  /** `orderBy: { key: "asc" }`: a permutation of the rows, ordered by `key`. */
  function SortBy<T>(s: seq<T>, key: T -> int): (r: seq<T>)
    ensures NonDecreasing(r, key)
    ensures multiset(r) == multiset(s)
  {
    if |s| == 0 then []
    else
      assert s == [s[0]] + s[1..];
      InsertBy(s[0], SortBy(s[1..], key), key)
  }

  /** Sorting keeps exactly the rows it was given. */
  lemma SortKeepsRows<T>(s: seq<T>, key: T -> int, x: T)
    ensures x in SortBy(s, key) <==> x in s
  {
    assert x in SortBy(s, key) <==> x in multiset(SortBy(s, key));
    assert x in s <==> x in multiset(s);
  }
}
