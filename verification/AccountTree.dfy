/** The account tree query (src/capital_os/domain/query/service.py and fetch_account_tree_rows in
  src/capital_os/domain/ledger/repository.py): a recursive subtree query, and a forest built from its rows. */
module AccountTree {
  import opened Wrappers
  import opened Ordering
  import opened Hierarchy
  import opened Accounts

  // ------------------------------------------------------------------ the recursive query

  function ChildOf(id: string): Account -> bool {
    (c: Account) => c.parent == Some(id)
  }

  /** The rows joined to a frontier by parent, once per frontier row they match. */
  function Join(rows: seq<Account>, frontier: seq<Account>): seq<Account> {
    if frontier == [] then [] else Filter(ChildOf(frontier[0].accountId), rows) + Join(rows, frontier[1..])
  }

  /** The rows the recursion adds in its n-th round. */
  function Level(rows: seq<Account>, starts: seq<Account>, n: nat): seq<Account> {
    if n == 0 then starts else Join(rows, Level(rows, starts, n - 1))
  }

  /** All rows of the first `depth` rounds. */
  function Levels(rows: seq<Account>, starts: seq<Account>, depth: nat): seq<Account> {
    if depth == 0 then [] else Levels(rows, starts, depth - 1) + Level(rows, starts, depth - 1)
  }

  function WithId(id: string): Account -> bool {
    (c: Account) => c.accountId == id
  }

  predicate CodeOrder(a: Account, b: Account) {
    if a.code != b.code then StrLe(a.code, b.code) else StrLe(a.accountId, b.accountId)
  }

  /** fetch_account_tree_rows: one round per row is always enough. */
  function FetchTreeRows(rows: seq<Account>, root: Option<string>): seq<Account> {
    if root.Some? && root.value != "" then
      Sort(CodeOrder, Levels(rows, Filter(WithId(root.value), rows), |rows| + 1))
    else Sort(CodeOrder, rows)
  }

  // ------------------------------------------------------------------ what a round contains

  function IdCount(rows: seq<Account>, id: string): nat {
    if rows == [] then 0 else (if rows[0].accountId == id then 1 else 0) + IdCount(rows[1..], id)
  }

  lemma RowsDistinct(rows: seq<Account>)
    requires UniqueIds(rows)
    ensures Distinct(rows)
  {
  }

  lemma {:induction false} JoinCount(rows: seq<Account>, frontier: seq<Account>, c: Account)
    requires Distinct(rows)
    ensures multiset(Join(rows, frontier))[c] ==
              if c in rows && c.parent.Some? then IdCount(frontier, c.parent.value) else 0
  {
    if frontier != [] {
      JoinCount(rows, frontier[1..], c);
      FilterCount(ChildOf(frontier[0].accountId), rows, c);
      DistinctCounts(rows, c);
    }
  }

  lemma {:induction false} IdCountsRow(level: seq<Account>, rows: seq<Account>, r: Account)
    requires UniqueIds(rows) && r in rows && forall x :: x in level ==> x in rows
    ensures IdCount(level, r.accountId) == multiset(level)[r]
  {
    if level != [] {
      IdCountsRow(level[1..], rows, r);
      assert level == [level[0]] + level[1..];
      SameIdSameRow(rows, level[0], r);
    }
  }

  lemma SameIdSameRow(rows: seq<Account>, a: Account, b: Account)
    requires UniqueIds(rows) && a in rows && b in rows
    ensures a.accountId == b.accountId ==> a == b
  {
    var i :| 0 <= i < |rows| && rows[i] == a;
    var j :| 0 <= j < |rows| && rows[j] == b;
  }

  lemma {:induction false} IdMissing(level: seq<Account>, id: string)
    requires forall x :: x in level ==> x.accountId != id
    ensures IdCount(level, id) == 0
  {
    if level != [] {
      IdMissing(level[1..], id);
    }
  }

  /** The n-th ancestor of `c` is one of the starts. */
  ghost predicate Hits(rows: seq<Account>, starts: seq<Account>, c: Account, n: nat) {
    exists s :: s in starts && Up(ParentsOf(rows), c.accountId, n) == Some(s.accountId)
  }

  /** The n-th round holds exactly the rows whose n-th ancestor is a start, once each. */
  lemma {:induction false} LevelCount(rows: seq<Account>, starts: seq<Account>, n: nat, c: Account)
    requires UniqueIds(rows) && UniqueIds(starts) && forall s :: s in starts ==> s in rows
    ensures multiset(Level(rows, starts, n))[c] == if c in rows && Hits(rows, starts, c, n) then 1 else 0
    decreases n
  {
    RowsDistinct(rows);
    if n == 0 {
      RowsDistinct(starts);
      DistinctCounts(starts, c);
      if c in rows && Hits(rows, starts, c, 0) {
        var s :| s in starts && Up(ParentsOf(rows), c.accountId, 0) == Some(s.accountId);
        SameIdSameRow(rows, c, s);
      }
      assert Up(ParentsOf(rows), c.accountId, 0) == Some(c.accountId);
    } else {
      JoinCount(rows, Level(rows, starts, n - 1), c);
      if c in rows {
        StepUp(rows, starts, c, n);
      }
    }
  }

  lemma StepUp(rows: seq<Account>, starts: seq<Account>, c: Account, n: nat)
    requires UniqueIds(rows) && UniqueIds(starts) && forall s :: s in starts ==> s in rows
    requires c in rows && n > 0
    ensures (if c.parent.Some? then IdCount(Level(rows, starts, n - 1), c.parent.value) else 0)
         == if Hits(rows, starts, c, n) then 1 else 0
    decreases n, 0
  {
    hide Level, ParentsOf;
    var level := Level(rows, starts, n - 1);
    LevelWithin(rows, starts, n - 1);
    ParentOfRow(rows, c);
    if c.parent.Some? {
      var p := c.parent.value;
      if HasId(rows, p) {
        var i :| 0 <= i < |rows| && rows[i].accountId == p;
        IdCountsRow(level, rows, rows[i]);
        LevelCount(rows, starts, n - 1, rows[i]);
        assert Hits(rows, starts, c, n) <==> Hits(rows, starts, rows[i], n - 1);
      } else {
        forall x | x in rows ensures x.accountId != p {
          IdListed(rows, x);
        }
        IdMissing(level, p);
        ParentsListed(rows, p);
        assert Up(ParentsOf(rows), c.accountId, n) == Up(ParentsOf(rows), p, n - 1);
        assert n > 1 ==> Up(ParentsOf(rows), p, n - 1) == None;
      }
    }
  }

  lemma IdListed(rows: seq<Account>, x: Account)
    requires x in rows
    ensures HasId(rows, x.accountId)
  {
  }

  lemma ParentOfRow(rows: seq<Account>, c: Account)
    requires UniqueIds(rows) && c in rows
    ensures c.accountId in ParentsOf(rows) && ParentsOf(rows)[c.accountId] == c.parent
  {
    var i :| 0 <= i < |rows| && rows[i] == c;
    ParentAt(rows, i);
  }

  lemma {:induction false} LevelWithin(rows: seq<Account>, starts: seq<Account>, n: nat)
    requires forall s :: s in starts ==> s in rows
    ensures forall x :: x in Level(rows, starts, n) ==> x in rows
  {
    if n > 0 {
      JoinWithin(rows, Level(rows, starts, n - 1));
    }
  }

  lemma {:induction false} JoinWithin(rows: seq<Account>, frontier: seq<Account>)
    ensures forall x :: x in Join(rows, frontier) ==> x in rows
  {
    if frontier != [] {
      JoinWithin(rows, frontier[1..]);
      forall x | x in Filter(ChildOf(frontier[0].accountId), rows) ensures x in rows {
        FilterMember(ChildOf(frontier[0].accountId), rows, x);
      }
    }
  }

  // ------------------------------------------------------------------ what all rounds contain

  /** No start is above another, or above itself. */
  ghost predicate Apart(rows: seq<Account>, starts: seq<Account>) {
    forall s, k: nat :: s in starts && k > 0 ==> !Hits(rows, starts, s, k)
  }

  /** Separate starts are each met once on a way up. */
  lemma HitsOnce(rows: seq<Account>, starts: seq<Account>, c: Account, m: nat, n: nat)
    requires Apart(rows, starts) && Hits(rows, starts, c, m) && Hits(rows, starts, c, n)
    ensures m == n
  {
    if m < n {
      HitsAbove(rows, starts, c, m, n);
    } else if n < m {
      HitsAbove(rows, starts, c, n, m);
    }
  }

  lemma HitsAbove(rows: seq<Account>, starts: seq<Account>, c: Account, m: nat, n: nat)
    requires Hits(rows, starts, c, m) && Hits(rows, starts, c, n) && m < n
    ensures exists s :: s in starts && Hits(rows, starts, s, n - m)
  {
    var s :| s in starts && Up(ParentsOf(rows), c.accountId, m) == Some(s.accountId);
    UpAdds(ParentsOf(rows), c.accountId, m, n - m);
  }

  ghost predicate HitsWithin(rows: seq<Account>, starts: seq<Account>, c: Account, depth: nat) {
    exists n: nat :: n < depth && Hits(rows, starts, c, n)
  }

  /** Together the rounds hold exactly the rows at or below a start, once each. */
  lemma {:induction false} LevelsCount(rows: seq<Account>, starts: seq<Account>, depth: nat, c: Account)
    requires UniqueIds(rows) && UniqueIds(starts) && forall s :: s in starts ==> s in rows
    requires Apart(rows, starts)
    ensures multiset(Levels(rows, starts, depth))[c] == if c in rows && HitsWithin(rows, starts, c, depth) then 1 else 0
    decreases depth
  {
    hide Hits, Level, Apart, HitsWithin, UniqueIds;
    if depth == 0 {
      NoneWithinZero(rows, starts, c);
    } else {
      LevelsCount(rows, starts, depth - 1, c);
      LevelCount(rows, starts, depth - 1, c);
      WithinStep(rows, starts, c, depth);
    }
  }

  lemma NoneWithinZero(rows: seq<Account>, starts: seq<Account>, c: Account)
    ensures !HitsWithin(rows, starts, c, 0)
  {
  }

  lemma WithinStep(rows: seq<Account>, starts: seq<Account>, c: Account, depth: nat)
    requires Apart(rows, starts) && depth > 0
    ensures HitsWithin(rows, starts, c, depth) <==>
              HitsWithin(rows, starts, c, depth - 1) || Hits(rows, starts, c, depth - 1)
    ensures !(HitsWithin(rows, starts, c, depth - 1) && Hits(rows, starts, c, depth - 1))
  {
    hide Hits, Apart;
    if HitsWithin(rows, starts, c, depth - 1) && Hits(rows, starts, c, depth - 1) {
      var n: nat :| n < depth - 1 && Hits(rows, starts, c, n);
      HitsOnce(rows, starts, c, n, depth - 1);
    }
  }

  // ------------------------------------------------------------------ the subtree

  lemma {:induction false} ParentsSize(rows: seq<Account>)
    ensures |ParentsOf(rows)| <= |rows|
  {
    if rows != [] {
      var n := |rows| - 1;
      ParentsSize(rows[..n]);
      var before := ParentsOf(rows[..n]);
      assert ParentsOf(rows).Keys == before.Keys + {rows[n].accountId};
    }
  }

  lemma StartsFor(rows: seq<Account>, root: string)
    requires UniqueIds(rows)
    ensures UniqueIds(Filter(WithId(root), rows)) && |Filter(WithId(root), rows)| <= 1
    ensures forall s :: s in Filter(WithId(root), rows) <==> s in rows && s.accountId == root
  {
    var starts := Filter(WithId(root), rows);
    forall s ensures s in starts <==> s in rows && s.accountId == root {
      FilterMember(WithId(root), rows, s);
    }
    RowsDistinct(rows);
    forall x ensures multiset(starts)[x] <= 1 {
      FilterCount(WithId(root), rows, x);
      DistinctCounts(rows, x);
    }
    CountedOnce(starts);
    if |starts| > 1 {
      SameIdSameRow(rows, starts[0], starts[1]);
    }
  }

  /** `c` is the root or one of its descendants. */
  ghost predicate Under(rows: seq<Account>, c: Account, root: string) {
    c in rows && exists n: nat :: Up(ParentsOf(rows), c.accountId, n) == Some(root)
  }

  lemma SubtreeHits(rows: seq<Account>, root: string, c: Account)
    requires TableInv(rows) && c in rows
    ensures HitsWithin(rows, Filter(WithId(root), rows), c, |rows| + 1) <==> Under(rows, c, root)
    ensures Apart(rows, Filter(WithId(root), rows))
    ensures forall n: nat :: n > |rows| ==> !Hits(rows, Filter(WithId(root), rows), c, n)
  {
    var starts, parents := Filter(WithId(root), rows), ParentsOf(rows);
    hide TableInv, Filter, ParentsOf, Closed, HasId, UniqueCodes;
    Reachable(rows);
    StartsFor(rows, root);
    forall n: nat ensures Hits(rows, starts, c, n) ==> n <= |rows| && Up(parents, c.accountId, n) == Some(root) {
      ShortWay(rows, c, n);
    }
    forall n: nat | Up(parents, c.accountId, n) == Some(root)
      ensures n <= |rows| && Hits(rows, starts, c, n)
    {
      ShortWay(rows, c, n);
      AncestorListed(rows, c, n);
    }
    forall s, k: nat | s in starts && k > 0
      ensures !Hits(rows, starts, s, k)
    {
      NeverAgain(parents, root, k);
    }
  }

  lemma Reachable(rows: seq<Account>)
    requires TableInv(rows)
    ensures UniqueIds(rows) && Acyclic(ParentsOf(rows)) && !HasId(rows, "")
  {
  }

  lemma ShortWay(rows: seq<Account>, c: Account, n: nat)
    requires TableInv(rows)
    ensures Up(ParentsOf(rows), c.accountId, n).Some? ==> n <= |rows|
  {
    hide Acyclic, Closed;
    ParentsSize(rows);
    if Up(ParentsOf(rows), c.accountId, n).Some? {
      ChainsAreShort(ParentsOf(rows), c.accountId, n);
    }
  }

  lemma AncestorListed(rows: seq<Account>, c: Account, n: nat)
    requires TableInv(rows) && c in rows && Up(ParentsOf(rows), c.accountId, n).Some?
    ensures exists s :: s in rows && s.accountId == Up(ParentsOf(rows), c.accountId, n).value
  {
    hide Acyclic, Closed, ParentsOf;
    ParentOfRow(rows, c);
    UpClosed(ParentsOf(rows), c.accountId, n);
    var a := Up(ParentsOf(rows), c.accountId, n).value;
    ParentsListed(rows, a);
    var i :| 0 <= i < |rows| && rows[i].accountId == a;
    assert rows[i] in rows;
  }

  lemma TreeOrder()
    ensures Preorder(CodeOrder)
  {
    StrLeLaws();
    hide StrLe;
  }

  /** The rooted query returns exactly the root and its descendants, once each, and its recursion adds nothing in any
    further round. */
  lemma SubtreeExactly(rows: seq<Account>, root: string, c: Account)
    requires TableInv(rows) && root != ""
    ensures multiset(FetchTreeRows(rows, Some(root)))[c] == if Under(rows, c, root) then 1 else 0
    ensures forall n: nat :: n > |rows| ==> multiset(Level(rows, Filter(WithId(root), rows), n))[c] == 0
    ensures SortedBy(CodeOrder, FetchTreeRows(rows, Some(root)))
  {
    var starts := Filter(WithId(root), rows);
    hide Filter, Levels, Level, HitsWithin, Hits, Acyclic, Closed, CodeOrder, Apart, WithId, Sort, HasId, UniqueCodes;
    hide ParentsOf;
    StartsFor(rows, root);
    TreeOrder();
    SortCorrect(CodeOrder, Levels(rows, starts, |rows| + 1));
    forall n: nat ensures multiset(Level(rows, starts, n))[c] ==
        if c in rows && Hits(rows, starts, c, n) then 1 else 0 {
      LevelCount(rows, starts, n, c);
    }
    StartsApart(rows, root);
    LevelsCount(rows, starts, |rows| + 1, c);
    if c in rows {
      SubtreeHits(rows, root, c);
    }
  }

  lemma StartsApart(rows: seq<Account>, root: string)
    requires TableInv(rows)
    ensures Apart(rows, Filter(WithId(root), rows))
  {
    var starts := Filter(WithId(root), rows);
    hide Filter, ParentsOf;
    StartsFor(rows, root);
    forall s, k: nat | s in starts && k > 0
      ensures !Hits(rows, starts, s, k)
    {
      NeverAgain(ParentsOf(rows), root, k);
    }
  }
}
