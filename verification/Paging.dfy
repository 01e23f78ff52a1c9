/** Keyset pagination (src/capital_os/domain/query/service.py and the page queries of
  src/capital_os/domain/ledger/repository.py).  A page query seeks past a cursor, sorts, and reads one row more than
  it returns; the cursor codec is taken as an exact round trip. */
module Paging {
  import opened Wrappers
  import opened Ordering

  // ------------------------------------------------------------------ the two listings

  datatype AccountKey = AccountKey(code: string, accountId: string)

  datatype TransactionKey = TransactionKey(transactionDate: string, transactionId: string)

  datatype AccountRow = AccountRow(accountId: string, code: string, name: string)

  datatype TransactionRow = TransactionRow(transactionId: string, transactionDate: string, description: string)

  function KeyOfAccount(r: AccountRow): AccountKey {
    AccountKey(r.code, r.accountId)
  }

  function KeyOfTransaction(r: TransactionRow): TransactionKey {
    TransactionKey(r.transactionDate, r.transactionId)
  }

  /** ORDER BY code, account_id */
  predicate AccountLe(a: AccountKey, b: AccountKey) {
    if a.code != b.code then StrLe(a.code, b.code) else StrLe(a.accountId, b.accountId)
  }

  /** WHERE code > ? OR (code = ? AND account_id > ?) */
  predicate AccountAfter(cursor: AccountKey, k: AccountKey) {
    StrLt(cursor.code, k.code) || (k.code == cursor.code && StrLt(cursor.accountId, k.accountId))
  }

  /** ORDER BY transaction_date DESC, transaction_id ASC */
  predicate TransactionLe(a: TransactionKey, b: TransactionKey) {
    if a.transactionDate != b.transactionDate then StrLe(b.transactionDate, a.transactionDate)
    else StrLe(a.transactionId, b.transactionId)
  }

  /** WHERE transaction_date < ? OR (transaction_date = ? AND transaction_id > ?) */
  predicate TransactionAfter(cursor: TransactionKey, k: TransactionKey) {
    || StrLt(k.transactionDate, cursor.transactionDate)
    || (k.transactionDate == cursor.transactionDate && StrLt(cursor.transactionId, k.transactionId))
  }

  /** A seek condition fits an order: the order is total on keys, and seeking past a cursor keeps exactly the keys that
    come strictly after it. */
  ghost predicate Seeks<K(!new)>(le: (K, K) -> bool, after: (K, K) -> bool) {
    && Preorder(le)
    && (forall a, b :: le(a, b) && le(b, a) ==> a == b)
    && (forall c, k :: after(c, k) <==> le(c, k) && c != k)
  }

  lemma AccountsSeek()
    ensures Seeks(AccountLe, AccountAfter)
  {
    StrLeLaws();
    hide StrLe;
  }

  lemma TransactionsSeek()
    ensures Seeks(TransactionLe, TransactionAfter)
  {
    StrLeLaws();
    hide StrLe;
  }

  // ------------------------------------------------------------------ one page

  datatype Page<R, K> = Page(rows: seq<R>, next: Option<K>)

  function RowOrder<R, K>(key: R -> K, le: (K, K) -> bool): (R, R) -> bool {
    (x: R, y: R) => le(key(x), key(y))
  }

  function Past<R, K>(key: R -> K, after: (K, K) -> bool, cursor: Option<K>): R -> bool {
    (x: R) => cursor.None? || after(cursor.value, key(x))
  }

  /** The page query and the slicing around it, for a listing with this key, order and seek condition. */
  function QueryPage<R, K>(key: R -> K, le: (K, K) -> bool, after: (K, K) -> bool, table: seq<R>, limit: nat,
                           cursor: Option<K>): Page<R, K>
    requires limit >= 1
  {
    var found := Sort(RowOrder(key, le), Filter(Past(key, after, cursor), table));
    var rows := if |found| <= limit + 1 then found else found[..limit + 1];
    if |rows| > limit then Page(rows[..limit], Some(key(rows[limit - 1]))) else Page(rows, None)
  }

  /** query_accounts_page */
  function QueryAccountsPage(table: seq<AccountRow>, limit: nat,
                             cursor: Option<AccountKey>): Page<AccountRow, AccountKey>
    requires limit >= 1
  {
    QueryPage(KeyOfAccount, AccountLe, AccountAfter, table, limit, cursor)
  }

  /** query_transactions_page */
  function QueryTransactionsPage(table: seq<TransactionRow>, limit: nat, cursor: Option<TransactionKey>)
    : Page<TransactionRow, TransactionKey>
    requires limit >= 1
  {
    QueryPage(KeyOfTransaction, TransactionLe, TransactionAfter, table, limit, cursor)
  }

  // ------------------------------------------------------------------ following cursors

  ghost predicate UniqueKeys<R, K>(key: R -> K, table: seq<R>) {
    forall i, j :: 0 <= i < j < |table| ==> key(table[i]) != key(table[j])
  }

  /** The cursor page k is fetched with. */
  function CursorFor<R, K>(start: Option<K>, pages: seq<Page<R, K>>, k: nat): Option<K>
    requires k <= |pages|
  {
    if k == 0 then start else pages[k - 1].next
  }

  /** A completed walk: one page per snapshot of the table, each from the cursor the page before it gave, until a page
    gives none. */
  ghost predicate IsWalk<R, K>(key: R -> K, le: (K, K) -> bool, after: (K, K) -> bool, tables: seq<seq<R>>, limit: nat,
                               start: Option<K>, pages: seq<Page<R, K>>)
    requires limit >= 1
  {
    && |pages| == |tables| >= 1
    && (forall k :: 0 <= k < |pages| ==>
          pages[k] == QueryPage(key, le, after, tables[k], limit, CursorFor(start, pages, k)))
    && (forall k :: 0 <= k < |pages| ==> (pages[k].next.None? <==> k == |pages| - 1))
  }

  function Rows<R, K>(pages: seq<Page<R, K>>): seq<R> {
    if pages == [] then [] else pages[0].rows + Rows(pages[1..])
  }

  /** How many rows have this key. */
  function Occurrences<R, K(==)>(key: R -> K, rows: seq<R>, k: K): nat {
    if rows == [] then 0 else (if key(rows[0]) == k then 1 else 0) + Occurrences(key, rows[1..], k)
  }

  // ------------------------------------------------------------------ sorting and filtering

  lemma {:induction false} FilterSplit<R>(keep: R -> bool, s: seq<R>, i: nat)
    requires i <= |s|
    requires forall k :: 0 <= k < |s| ==> (keep(s[k]) <==> i <= k)
    ensures Filter(keep, s) == s[i..]
  {
    if s != [] {
      if i == 0 {
        FilterSplit(keep, s[1..], 0);
      } else {
        FilterSplit(keep, s[1..], i - 1);
      }
    }
  }

  /** No two rows of a table tie in the listing's order. */
  lemma RowsOrdered<R(!new), K(!new)>(key: R -> K, le: (K, K) -> bool, after: (K, K) -> bool, table: seq<R>)
    requires Seeks(le, after)
    ensures Preorder(RowOrder(key, le))
    ensures UniqueKeys(key, table) ==> NoTies(RowOrder(key, le), table)
  {
    var order := RowOrder(key, le);
    if UniqueKeys(key, table) {
      forall i, j | 0 <= i < |table| && 0 <= j < |table| && order(table[i], table[j]) && order(table[j], table[i])
        ensures table[i] == table[j]
      {
        assert key(table[i]) == key(table[j]);
      }
    }
  }

  // ------------------------------------------------------------------ what one page covers

  function Full<R, K>(key: R -> K, le: (K, K) -> bool, table: seq<R>): seq<R> {
    Sort(RowOrder(key, le), table)
  }

  lemma Found<R(!new), K(!new)>(key: R -> K, le: (K, K) -> bool, after: (K, K) -> bool, table: seq<R>, keep: R -> bool)
    requires Seeks(le, after) && UniqueKeys(key, table)
    ensures Sort(RowOrder(key, le), Filter(keep, table)) == Filter(keep, Full(key, le, table))
  {
    hide Sort, Filter;
    var order := RowOrder(key, le);
    RowsOrdered(key, le, after, table);
    SortCorrect(order, table);
    SortCorrect(order, Filter(keep, table));
    FilterSorted(order, keep, Sort(order, table));
    forall x ensures multiset(Filter(keep, Sort(order, table)))[x] == multiset(Filter(keep, table))[x] {
      FilterCount(keep, table, x);
      FilterCount(keep, Sort(order, table), x);
    }
    NoTiesKept(order, keep, table);
    SortedUnique(order, Sort(order, Filter(keep, table)), Filter(keep, Sort(order, table)));
  }

  lemma NoTiesKept<R(!new)>(order: (R, R) -> bool, keep: R -> bool, table: seq<R>)
    requires Preorder(order) && NoTies(order, table)
    ensures NoTies(order, Sort(order, Filter(keep, table)))
  {
    var s := Sort(order, Filter(keep, table));
    SortCorrect(order, Filter(keep, table));
    forall i | 0 <= i < |s| ensures s[i] in table {
      assert s[i] in multiset(Filter(keep, table));
      FilterMember(keep, table, s[i]);
    }
  }

  lemma {:induction false} KeyCount<R, K>(key: R -> K, rows: seq<R>, k: K, i: nat)
    requires i < |rows| && key(rows[i]) == k
    requires forall j :: 0 <= j < |rows| && j != i ==> key(rows[j]) != k
    ensures Occurrences(key, rows, k) == 1
  {
    if i == 0 {
      NoKey(key, rows[1..], k);
    } else {
      KeyCount(key, rows[1..], k, i - 1);
    }
  }

  lemma {:induction false} NoKey<R, K>(key: R -> K, rows: seq<R>, k: K)
    requires forall j :: 0 <= j < |rows| ==> key(rows[j]) != k
    ensures Occurrences(key, rows, k) == 0
  {
    if rows != [] {
      NoKey(key, rows[1..], k);
    }
  }

  lemma {:induction false} KeyListed<R, K>(key: R -> K, rows: seq<R>, k: K)
    ensures Occurrences(key, rows, k) > 0 <==> exists j :: 0 <= j < |rows| && key(rows[j]) == k
  {
    if rows != [] {
      KeyListed(key, rows[1..], k);
      if j :| 0 <= j < |rows[1..]| && key(rows[1..][j]) == k {
        assert key(rows[j + 1]) == k;
      }
      if j :| 0 <= j < |rows| && key(rows[j]) == k {
        assert j == 0 || key(rows[1..][j - 1]) == k;
      }
    }
  }

  /** The rows of a table in listing order have strictly ascending keys. */
  lemma Ascending<R(!new), K(!new)>(key: R -> K, le: (K, K) -> bool, after: (K, K) -> bool, table: seq<R>)
    requires Seeks(le, after) && UniqueKeys(key, table)
    ensures forall i, j :: 0 <= i < j < |Full(key, le, table)| ==>
              after(key(Full(key, le, table)[i]), key(Full(key, le, table)[j]))
    ensures multiset(Full(key, le, table)) == multiset(table)
  {
    RowsOrdered(key, le, after, table);
    SortCorrect(RowOrder(key, le), table);
    var s := Full(key, le, table);
    hide Full, Sort;
    forall i, j | 0 <= i < j < |s|
      ensures after(key(s[i]), key(s[j]))
    {
      assert RowOrder(key, le)(s[i], s[j]);
      SortedKeysDiffer(key, table, s, i, j);
    }
  }

  lemma SortedKeysDiffer<R(!new), K>(key: R -> K, table: seq<R>, s: seq<R>, i: nat, j: nat)
    requires UniqueKeys(key, table) && multiset(s) == multiset(table) && i < j < |s|
    ensures key(s[i]) != key(s[j])
  {
    assert s[i] in multiset(table) && s[j] in multiset(table);
    var a :| 0 <= a < |table| && table[a] == s[i];
    var b :| 0 <= b < |table| && table[b] == s[j];
    assert Distinct(table);
    DistinctPermutes(table, s);
  }

  /** A page is ascending, past its cursor, and leaves for later exactly the rows past the cursor it returns. */
  lemma PageSplits<R(!new), K(!new)>(key: R -> K, le: (K, K) -> bool, after: (K, K) -> bool, table: seq<R>, limit: nat,
                                     cursor: Option<K>)
    requires limit >= 1 && Seeks(le, after) && UniqueKeys(key, table)
    ensures var page := QueryPage(key, le, after, table, limit, cursor);
            && |page.rows| <= limit
            && (forall i, j :: 0 <= i < j < |page.rows| ==> after(key(page.rows[i]), key(page.rows[j])))
            && (forall r :: r in page.rows ==> r in table && Past(key, after, cursor)(r))
            && (forall r :: r in table && Past(key, after, cursor)(r) ==>
                  r in page.rows || (page.next.Some? && after(page.next.value, key(r))))
            && (page.next.Some? ==> forall r :: r in page.rows ==> le(key(r), page.next.value))
            && (page.next.Some? ==> page.rows != [] && page.next == Some(key(page.rows[|page.rows| - 1])))
  {
    hide Sort, Filter, Past, QueryPage, Seeks;
    var keep := Past(key, after, cursor);
    var found := Sort(RowOrder(key, le), Filter(keep, table));
    FoundAscending(key, le, after, table, keep);
    PageOf(key, le, after, table, limit, cursor, found);
    FirstRows(key, le, after, found, limit);
  }

  /** The first `limit` of some ascending rows, and the rest. */
  lemma FirstRows<R(!new), K(!new)>(key: R -> K, le: (K, K) -> bool, after: (K, K) -> bool, found: seq<R>, limit: nat)
    requires limit >= 1 && Seeks(le, after)
    requires forall i, j :: 0 <= i < j < |found| ==> after(key(found[i]), key(found[j]))
    ensures |found| > limit ==>
              && (forall r :: r in found ==> r in found[..limit] || after(key(found[limit - 1]), key(r)))
              && (forall r :: r in found[..limit] ==> r in found && le(key(r), key(found[limit - 1])))
  {
    if |found| > limit {
      forall r | r in found ensures r in found[..limit] || after(key(found[limit - 1]), key(r)) {
        var i :| 0 <= i < |found| && found[i] == r;
        assert i < limit ==> found[..limit][i] == r;
      }
      forall r | r in found[..limit] ensures r in found && le(key(r), key(found[limit - 1])) {
        var i :| 0 <= i < limit && found[i] == r;
        assert i < limit - 1 ==> after(key(found[i]), key(found[limit - 1]));
      }
    }
  }

  lemma FoundAscending<R(!new), K(!new)>(key: R -> K, le: (K, K) -> bool, after: (K, K) -> bool, table: seq<R>,
                                         keep: R -> bool)
    requires Seeks(le, after) && UniqueKeys(key, table)
    ensures var found := Sort(RowOrder(key, le), Filter(keep, table));
            && (forall i, j :: 0 <= i < j < |found| ==> after(key(found[i]), key(found[j])))
            && (forall r :: r in found <==> r in table && keep(r))
  {
    Ascending(key, le, after, table);
    var full := Full(key, le, table);
    Found(key, le, after, table, keep);
    AscendingFilter(key, after, full, keep);
    hide Full, Sort, Filter;
    forall r ensures r in Filter(keep, full) <==> r in table && keep(r) {
      FilterMember(keep, full, r);
      assert r in full <==> r in multiset(full);
      assert r in table <==> r in multiset(table);
    }
  }

  lemma {:induction false} AscendingFilter<R, K>(key: R -> K, after: (K, K) -> bool, s: seq<R>, keep: R -> bool)
    requires forall i, j :: 0 <= i < j < |s| ==> after(key(s[i]), key(s[j]))
    ensures forall i, j :: 0 <= i < j < |Filter(keep, s)| ==> after(key(Filter(keep, s)[i]), key(Filter(keep, s)[j]))
  {
    if s != [] {
      AscendingFilter(key, after, s[1..], keep);
      var rest := Filter(keep, s[1..]);
      forall j | 0 <= j < |rest| ensures after(key(s[0]), key(rest[j])) {
        FilterMember(keep, s[1..], rest[j]);
      }
    }
  }

  // ------------------------------------------------------------------ a table that changes between pages

  ghost predicate HasKey<R, K>(key: R -> K, table: seq<R>, k: K) {
    exists r :: r in table && key(r) == k
  }

  lemma PageOccurrences<R(!new), K(!new)>(
      key: R -> K, le: (K, K) -> bool, after: (K, K) -> bool, table: seq<R>, limit: nat,
      cursor: Option<K>, k: K)
    requires limit >= 1 && Seeks(le, after) && UniqueKeys(key, table)
    ensures var page := QueryPage(key, le, after, table, limit, cursor);
            var n := Occurrences(key, page.rows, k);
            && n <= 1
            && (n == 1 ==> cursor.None? || after(cursor.value, k))
            && (n == 1 && page.next.Some? ==> le(k, page.next.value))
            && (page.next.Some? && cursor.Some? ==> after(cursor.value, page.next.value))
            && (n == 0 && HasKey(key, table, k) && (cursor.None? || after(cursor.value, k)) ==>
                  page.next.Some? && after(page.next.value, k))
  {
    PageSplits(key, le, after, table, limit, cursor);
    var page := QueryPage(key, le, after, table, limit, cursor);
    hide QueryPage;
    assert page.next.Some? ==> page.rows[|page.rows| - 1] in page.rows;
    KeyListed(key, page.rows, k);
    if i :| 0 <= i < |page.rows| && key(page.rows[i]) == k {
      forall j | 0 <= j < |page.rows| && j != i ensures key(page.rows[j]) != k {
        assert if i < j then after(key(page.rows[i]), key(page.rows[j]))
               else after(key(page.rows[j]), key(page.rows[i]));
      }
      KeyCount(key, page.rows, k, i);
    }
  }

  lemma {:induction false} OccurrencesConcat<R, K>(key: R -> K, a: seq<R>, b: seq<R>, k: K)
    ensures Occurrences(key, a + b, k) == Occurrences(key, a, k) + Occurrences(key, b, k)
  {
    if a == [] {
      assert a + b == b;
    } else {
      assert (a + b)[1..] == a[1..] + b;
      OccurrencesConcat(key, a[1..], b, k);
    }
  }

  /** However the table changes between pages, a completed walk lists no key twice, and lists exactly once every key
    that is present throughout. */
  lemma {:induction false} WalkListsOnce<R(!new), K(!new)>(
      key: R -> K, le: (K, K) -> bool, after: (K, K) -> bool, tables: seq<seq<R>>, limit: nat, start: Option<K>,
      pages: seq<Page<R, K>>, k: K)
    requires limit >= 1 && Seeks(le, after) && forall t :: t in tables ==> UniqueKeys(key, t)
    requires IsWalk(key, le, after, tables, limit, start, pages)
    ensures Occurrences(key, Rows(pages), k) <= 1
    ensures Occurrences(key, Rows(pages), k) == 1 ==> start.None? || after(start.value, k)
    ensures (forall t :: t in tables ==> HasKey(key, t, k)) && (start.None? || after(start.value, k)) ==>
              Occurrences(key, Rows(pages), k) == 1
    decreases |pages|
  {
    hide QueryPage, HasKey, UniqueKeys;
    var page := pages[0];
    assert tables[0] in tables;
    FirstPage(key, le, after, tables, limit, start, pages);
    PageOccurrences(key, le, after, tables[0], limit, start, k);
    OccurrencesConcat(key, page.rows, Rows(pages[1..]), k);
    if |pages| > 1 {
      assert page.next.Some?;
      RestIsWalk(key, le, after, tables, limit, start, pages);
      WalkListsOnce(key, le, after, tables[1..], limit, page.next, pages[1..], k);
      if start.Some? {
        AfterChains(le, after, start.value, page.next.value, k);
      }
    }
  }

  lemma AfterChains<K(!new)>(le: (K, K) -> bool, after: (K, K) -> bool, a: K, b: K, c: K)
    requires Seeks(le, after)
    ensures after(a, b) && after(b, c) ==> after(a, c)
    ensures le(c, b) ==> !after(b, c)
  {
  }

  lemma FirstPage<R(!new), K(!new)>(
      key: R -> K, le: (K, K) -> bool, after: (K, K) -> bool, tables: seq<seq<R>>, limit: nat, start: Option<K>,
      pages: seq<Page<R, K>>)
    requires limit >= 1 && IsWalk(key, le, after, tables, limit, start, pages)
    ensures pages[0] == QueryPage(key, le, after, tables[0], limit, start)
    ensures pages[0].next.None? <==> |pages| == 1
  {
    hide QueryPage;
  }

  lemma RestIsWalk<R(!new), K(!new)>(
      key: R -> K, le: (K, K) -> bool, after: (K, K) -> bool, tables: seq<seq<R>>, limit: nat, start: Option<K>,
      pages: seq<Page<R, K>>)
    requires limit >= 1 && IsWalk(key, le, after, tables, limit, start, pages) && |pages| > 1
    ensures IsWalk(key, le, after, tables[1..], limit, pages[0].next, pages[1..])
  {
    hide QueryPage;
    forall i | 0 <= i < |pages[1..]|
      ensures pages[1..][i] == QueryPage(key, le, after, tables[1..][i], limit, CursorFor(pages[0].next, pages[1..], i))
      ensures pages[1..][i].next.None? <==> i == |pages[1..]| - 1
    {
      assert pages[1..][i] == pages[i + 1] && tables[1..][i] == tables[i + 1];
    }
  }

  // ------------------------------------------------------------------ a table that stays as it is

  predicate Unchanging<R(==)>(tables: seq<seq<R>>, table: seq<R>) {
    forall k :: 0 <= k < |tables| ==> tables[k] == table
  }

  /** Pages a listing of n rows takes: at least one, and otherwise n over limit, rounded up. */
  function PagesFor(n: nat, limit: nat): nat
    requires limit >= 1
  {
    if n == 0 then 1 else (n + limit - 1) / limit
  }

  lemma Quotient(x: nat, d: int, q: nat, r: nat)
    requires d >= 1 && x == q * d + r && r < d
    ensures x / d == q
  {
    var gap := x / d - q;
    assert gap * d == x / d * d - q * d;
    assert -d < gap * d < d;
    GapTooWide(gap, d);
  }

  lemma GapTooWide(gap: int, d: int)
    requires d >= 1
    ensures gap >= 1 ==> gap * d >= d
    ensures gap <= -1 ==> gap * d <= -d
  {
  }

  lemma OnePageFewer(n: nat, limit: nat)
    requires 1 <= limit < n
    ensures PagesFor(n, limit) == 1 + PagesFor(n - limit, limit)
  {
    var q, r := (n - 1) / limit, (n - 1) % limit;
    assert (q + 1) * limit == q * limit + limit;
    Quotient(n + limit - 1, limit, q + 1, r);
  }

  lemma LastPage(n: nat, limit: nat)
    requires n <= limit && 1 <= limit
    ensures PagesFor(n, limit) == 1
  {
    if n > 0 {
      Quotient(n + limit - 1, limit, 1, n - 1);
    }
  }

  /** On a fixed table a page reads the next stretch of the full listing. */
  lemma PageReadsStretch<R(!new), K(!new)>(
      key: R -> K, le: (K, K) -> bool, after: (K, K) -> bool, table: seq<R>, limit: nat, cursor: Option<K>, i: nat)
    requires limit >= 1 && Seeks(le, after) && UniqueKeys(key, table)
    requires i <= |Full(key, le, table)|
    requires cursor == if i == 0 then None else Some(key(Full(key, le, table)[i - 1]))
    ensures var full, page := Full(key, le, table), QueryPage(key, le, after, table, limit, cursor);
            if |full| - i > limit then page == Page(full[i..i + limit], Some(key(full[i + limit - 1])))
            else page == Page(full[i..], None)
  {
    hide Full, Sort, Filter, Past, Seeks, QueryPage;
    var full, keep := Full(key, le, table), Past(key, after, cursor);
    Ascending(key, le, after, table);
    Found(key, le, after, table, keep);
    forall k | 0 <= k < |full| ensures keep(full[k]) <==> i <= k {
      PastExactly(key, le, after, full, cursor, i, k);
    }
    FilterSplit(keep, full, i);
    PageOf(key, le, after, table, limit, cursor, full[i..]);
    if |full| - i > limit {
      assert full[i..][..limit] == full[i..i + limit] && full[i..][limit - 1] == full[i + limit - 1];
    }
  }

  /** A page, from all the rows past its cursor in order. */
  lemma PageOf<R(!new), K(!new)>(
      key: R -> K, le: (K, K) -> bool, after: (K, K) -> bool, table: seq<R>, limit: nat, cursor: Option<K>,
      rest: seq<R>)
    requires limit >= 1 && rest == Sort(RowOrder(key, le), Filter(Past(key, after, cursor), table))
    ensures QueryPage(key, le, after, table, limit, cursor) ==
            if |rest| > limit then Page(rest[..limit], Some(key(rest[limit - 1]))) else Page(rest, None)
  {
    hide Sort, Filter, Past;
    if |rest| > limit {
      var rows := if |rest| <= limit + 1 then rest else rest[..limit + 1];
      assert rows[..limit] == rest[..limit];
    }
  }

  lemma PastExactly<R(!new), K(!new)>(
      key: R -> K, le: (K, K) -> bool, after: (K, K) -> bool, full: seq<R>, cursor: Option<K>, i: nat, k: nat)
    requires Seeks(le, after) && forall a, b :: 0 <= a < b < |full| ==> after(key(full[a]), key(full[b]))
    requires i <= |full| && k < |full| && cursor == if i == 0 then None else Some(key(full[i - 1]))
    ensures Past(key, after, cursor)(full[k]) <==> i <= k
  {
  }

  /** On a table that does not change, following the cursors lists every row once, in order, in exactly
    max(1, ceil(n / limit)) pages. */
  lemma {:induction false} FixedWalk<R(!new), K(!new)>(
      key: R -> K, le: (K, K) -> bool, after: (K, K) -> bool, table: seq<R>, limit: nat, start: Option<K>, i: nat,
      tables: seq<seq<R>>, pages: seq<Page<R, K>>)
    requires limit >= 1 && Seeks(le, after) && UniqueKeys(key, table) && Unchanging(tables, table)
    requires i <= |Full(key, le, table)|
    requires start == if i == 0 then None else Some(key(Full(key, le, table)[i - 1]))
    requires IsWalk(key, le, after, tables, limit, start, pages)
    ensures Rows(pages) == Full(key, le, table)[i..]
    ensures |pages| == PagesFor(|Full(key, le, table)| - i, limit)
    decreases |pages|
  {
    hide QueryPage, UniqueKeys, Seeks, Full, PagesFor;
    FirstPage(key, le, after, tables, limit, start, pages);
    PageReadsStretch(key, le, after, table, limit, start, i);
    var full := Full(key, le, table);
    if |full| - i > limit {
      RestIsWalk(key, le, after, tables, limit, start, pages);
      FixedWalk(key, le, after, table, limit, pages[0].next, i + limit, tables[1..], pages[1..]);
      OnePageFewer(|full| - i, limit);
      assert full[i..] == full[i..i + limit] + full[i + limit..];
    } else {
      LastPage(|full| - i, limit);
      assert pages == [pages[0]];
      assert Rows(pages[1..]) == [];
    }
  }

  /** Such a walk always completes. */
  lemma {:induction false} FixedWalkExists<R(!new), K(!new)>(
      key: R -> K, le: (K, K) -> bool, after: (K, K) -> bool, table: seq<R>, limit: nat, start: Option<K>, i: nat)
      returns (tables: seq<seq<R>>, pages: seq<Page<R, K>>)
    requires limit >= 1 && Seeks(le, after) && UniqueKeys(key, table)
    requires i <= |Full(key, le, table)|
    requires start == if i == 0 then None else Some(key(Full(key, le, table)[i - 1]))
    ensures Unchanging(tables, table) && IsWalk(key, le, after, tables, limit, start, pages)
    decreases |Full(key, le, table)| - i
  {
    hide QueryPage, UniqueKeys, Seeks, Full;
    var page := QueryPage(key, le, after, table, limit, start);
    PageReadsStretch(key, le, after, table, limit, start, i);
    if |Full(key, le, table)| - i > limit {
      tables, pages := FixedWalkExists(key, le, after, table, limit, page.next, i + limit);
      tables, pages := [table] + tables, [page] + pages;
    } else {
      tables, pages := [table], [page];
    }
  }

  // ------------------------------------------------------------------ the two listings

  ghost predicate IsAccountsWalk(tables: seq<seq<AccountRow>>, limit: nat, pages: seq<Page<AccountRow, AccountKey>>)
    requires limit >= 1
  {
    && |pages| == |tables| >= 1
    && (forall k :: 0 <= k < |pages| ==> pages[k] == QueryAccountsPage(tables[k], limit, CursorFor(None, pages, k)))
    && (forall k :: 0 <= k < |pages| ==> (pages[k].next.None? <==> k == |pages| - 1))
  }

  ghost predicate IsTransactionsWalk(tables: seq<seq<TransactionRow>>, limit: nat,
                                     pages: seq<Page<TransactionRow, TransactionKey>>)
    requires limit >= 1
  {
    && |pages| == |tables| >= 1
    && (forall k :: 0 <= k < |pages| ==> pages[k] == QueryTransactionsPage(tables[k], limit, CursorFor(None, pages, k)))
    && (forall k :: 0 <= k < |pages| ==> (pages[k].next.None? <==> k == |pages| - 1))
  }

  lemma AccountAfterSays(x: AccountRow, y: AccountRow)
    requires AccountAfter(KeyOfAccount(x), KeyOfAccount(y))
    ensures StrLt(x.code, y.code) || (x.code == y.code && StrLt(x.accountId, y.accountId))
  {
  }

  lemma TransactionAfterSays(x: TransactionRow, y: TransactionRow)
    requires TransactionAfter(KeyOfTransaction(x), KeyOfTransaction(y))
    ensures || StrLt(y.transactionDate, x.transactionDate)
            || (x.transactionDate == y.transactionDate && StrLt(x.transactionId, y.transactionId))
  {
  }

  lemma EnoughPages(n: nat, limit: nat)
    requires limit >= 1
    ensures (n == 0 ==> PagesFor(n, limit) == 1) && (n > 0 ==> n <= limit * PagesFor(n, limit) < n + limit)
  {
  }

  /** list_accounts: a fixed table is listed whole, in (code, account_id) order, in exactly as many pages as it
    needs. */
  lemma AccountsWalk(table: seq<AccountRow>, limit: nat, tables: seq<seq<AccountRow>>,
                     pages: seq<Page<AccountRow, AccountKey>>)
    requires limit >= 1 && (forall i, j :: 0 <= i < j < |table| ==> table[i].accountId != table[j].accountId)
    requires Unchanging(tables, table) && IsAccountsWalk(tables, limit, pages)
    ensures multiset(Rows(pages)) == multiset(table)
    ensures (|table| == 0 ==> |pages| == 1) && (|table| > 0 ==> |table| <= limit * |pages| < |table| + limit)
    ensures forall i, j :: 0 <= i < j < |Rows(pages)| ==>
              var x, y := Rows(pages)[i], Rows(pages)[j];
              StrLt(x.code, y.code) || (x.code == y.code && StrLt(x.accountId, y.accountId))
  {
    EnoughPages(|table|, limit);
    hide Seeks, PagesFor, Full, AccountAfter, AccountLe, QueryPage;
    assert IsWalk(KeyOfAccount, AccountLe, AccountAfter, tables, limit, None, pages);
    AccountsSeek();
    FixedWalk(KeyOfAccount, AccountLe, AccountAfter, table, limit, None, 0, tables, pages);
    Ascending(KeyOfAccount, AccountLe, AccountAfter, table);
    assert |multiset(Full(KeyOfAccount, AccountLe, table))| == |multiset(table)|;
    assert Rows(pages) == Full(KeyOfAccount, AccountLe, table);
    forall i, j | 0 <= i < j < |Rows(pages)|
      ensures var x, y := Rows(pages)[i], Rows(pages)[j];
              StrLt(x.code, y.code) || (x.code == y.code && StrLt(x.accountId, y.accountId))
    {
      AccountAfterSays(Rows(pages)[i], Rows(pages)[j]);
    }
  }

  /** list_transactions: by date text, descending, and ids ascending within one text. */
  lemma TransactionsWalk(table: seq<TransactionRow>, limit: nat, tables: seq<seq<TransactionRow>>,
                         pages: seq<Page<TransactionRow, TransactionKey>>)
    requires limit >= 1 && (forall i, j :: 0 <= i < j < |table| ==> table[i].transactionId != table[j].transactionId)
    requires Unchanging(tables, table) && IsTransactionsWalk(tables, limit, pages)
    ensures multiset(Rows(pages)) == multiset(table)
    ensures (|table| == 0 ==> |pages| == 1) && (|table| > 0 ==> |table| <= limit * |pages| < |table| + limit)
    ensures forall i, j :: 0 <= i < j < |Rows(pages)| ==>
              var x, y := Rows(pages)[i], Rows(pages)[j];
              || StrLt(y.transactionDate, x.transactionDate)
              || (x.transactionDate == y.transactionDate && StrLt(x.transactionId, y.transactionId))
  {
    EnoughPages(|table|, limit);
    hide Seeks, PagesFor, Full, TransactionAfter, TransactionLe, QueryPage;
    assert IsWalk(KeyOfTransaction, TransactionLe, TransactionAfter, tables, limit, None, pages);
    TransactionsSeek();
    FixedWalk(KeyOfTransaction, TransactionLe, TransactionAfter, table, limit, None, 0, tables, pages);
    Ascending(KeyOfTransaction, TransactionLe, TransactionAfter, table);
    assert |multiset(Full(KeyOfTransaction, TransactionLe, table))| == |multiset(table)|;
    assert Rows(pages) == Full(KeyOfTransaction, TransactionLe, table);
    forall i, j | 0 <= i < j < |Rows(pages)|
      ensures var x, y := Rows(pages)[i], Rows(pages)[j];
              || StrLt(y.transactionDate, x.transactionDate)
              || (x.transactionDate == y.transactionDate && StrLt(x.transactionId, y.transactionId))
    {
      TransactionAfterSays(Rows(pages)[i], Rows(pages)[j]);
    }
  }
}
