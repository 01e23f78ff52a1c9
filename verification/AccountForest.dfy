/** The forest that query_account_tree builds from the fetched rows, node by node, by appending each node to its
  parent's children (src/capital_os/domain/query/service.py). */
module AccountForest {
  import opened Wrappers
  import opened Ordering
  import opened Hierarchy
  import opened Accounts
  import opened AccountTree

  class Node {
    const row: Account
    var children: seq<Node>

    constructor (row: Account)
      ensures this.row == row && children == []
    {
      this.row := row;
      children := [];
    }
  }

  /** The rows that hang below `id`: an empty parent text counts as none. */
  function Below(id: string): Account -> bool {
    (c: Account) => id != "" && c.parent == Some(id)
  }

  /** The rows that become roots: without a parent among the rows. */
  function IsRoot(ids: set<string>): Account -> bool {
    (c: Account) => c.parent.None? || c.parent.value == "" || c.parent.value !in ids
  }

  predicate Indexes(nodes: map<string, Node>, rows: seq<Account>) {
    forall r :: r in rows ==> r.accountId in nodes && nodes[r.accountId].row == r
  }

  function NodesFor(nodes: map<string, Node>, rows: seq<Account>): seq<Node>
    requires Indexes(nodes, rows)
  {
    seq(|rows|, i requires 0 <= i < |rows| => nodes[rows[i].accountId])
  }

  predicate NodesAre(nodes: map<string, Node>, rows: seq<Account>) {
    && Indexes(nodes, rows)
    && (forall id :: id in nodes ==> nodes[id].row.accountId == id && nodes[id].row in rows)
  }

  lemma Chosen(nodes: map<string, Node>, rows: seq<Account>, keep: Account -> bool)
    requires Indexes(nodes, rows)
    ensures Indexes(nodes, Filter(keep, rows))
  {
    forall r | r in Filter(keep, rows) ensures r in rows {
      FilterMember(keep, rows, r);
    }
  }

  /** `ns` are the nodes of the rows `keep` selects, in row order. */
  predicate Selects(nodes: map<string, Node>, rows: seq<Account>, keep: Account -> bool, ns: seq<Node>)
    requires Indexes(nodes, rows)
  {
    Chosen(nodes, rows, keep);
    ns == NodesFor(nodes, Filter(keep, rows))
  }

  /** The forest over these rows: each node's children are the rows below it, and the roots the rows below none. */
  ghost predicate Built(nodes: map<string, Node>, rows: seq<Account>, roots: seq<Node>)
    reads nodes.Values
  {
    && NodesAre(nodes, rows)
    && (forall id :: id in nodes ==> Selects(nodes, rows, Below(id), nodes[id].children))
    && Selects(nodes, rows, IsRoot(nodes.Keys), roots)
  }

  lemma SelectsNext(nodes: map<string, Node>, rows: seq<Account>, keep: Account -> bool, ns: seq<Node>, i: nat)
    requires i < |rows| && Indexes(nodes, rows) && Indexes(nodes, rows[..i]) && Indexes(nodes, rows[..i + 1])
    requires Selects(nodes, rows[..i], keep, ns)
    ensures Selects(nodes, rows[..i + 1], keep, if keep(rows[i]) then ns + [nodes[rows[i].accountId]] else ns)
  {
    assert rows[..i + 1] == rows[..i] + [rows[i]];
    FilterAppend(keep, rows[..i], rows[i]);
    Chosen(nodes, rows[..i], keep);
    Chosen(nodes, rows[..i + 1], keep);
  }

  lemma SelectsNothing(nodes: map<string, Node>)
    ensures forall keep :: Selects(nodes, [], keep, [])
  {
  }

  /** The first loop of query_account_tree: a childless node for every row. */
  method MakeNodes(rows: seq<Account>) returns (nodes: map<string, Node>)
    requires UniqueIds(rows)
    ensures NodesAre(nodes, rows)
    ensures forall id :: id in nodes ==> fresh(nodes[id]) && nodes[id].children == []
  {
    nodes := map[];
    for i := 0 to |rows|
      invariant NodesAre(nodes, rows[..i])
      invariant forall id :: id in nodes ==> fresh(nodes[id]) && nodes[id].children == []
    {
      var node := new Node(rows[i]);
      nodes := nodes[rows[i].accountId := node];
      assert rows[..i + 1] == rows[..i] + [rows[i]];
    }
    assert rows[..|rows|] == rows;
  }

  /** Its second loop: every node is appended to its parent's children, or to the roots. */
  method BuildForest(rows: seq<Account>) returns (nodes: map<string, Node>, roots: seq<Node>)
    requires UniqueIds(rows)
    ensures forall id :: id in nodes ==> fresh(nodes[id])
    ensures Built(nodes, rows, roots)
  {
    hide Selects;
    nodes := MakeNodes(rows);
    roots := [];
    SelectsNothing(nodes);
    for i := 0 to |rows|
      invariant forall id :: id in nodes ==> Selects(nodes, rows[..i], Below(id), nodes[id].children)
      invariant Selects(nodes, rows[..i], IsRoot(nodes.Keys), roots)
    {
      var r := rows[i];
      var node := nodes[r.accountId];
      forall id | id in nodes
        ensures Selects(nodes, rows[..i + 1], Below(id),
                        if Below(id)(r) then nodes[id].children + [node] else nodes[id].children)
      {
        SelectsNext(nodes, rows, Below(id), nodes[id].children, i);
      }
      SelectsNext(nodes, rows, IsRoot(nodes.Keys), roots, i);
      if r.parent.Some? && r.parent.value != "" && r.parent.value in nodes {
        var above := nodes[r.parent.value];
        above.children := above.children + [node];
      } else {
        roots := roots + [node];
      }
    }
    assert rows[..|rows|] == rows;
  }

  // ------------------------------------------------------------------ what the forest is

  function RowsIn(ns: seq<Node>): seq<Account> {
    seq(|ns|, i requires 0 <= i < |ns| => ns[i].row)
  }

  lemma RowsConcat(a: seq<Node>, b: seq<Node>)
    ensures RowsIn(a + b) == RowsIn(a) + RowsIn(b)
  {
  }

  /** The children of some nodes, node by node. */
  function ChildrenOf(ns: seq<Node>): seq<Node>
    reads set n | n in ns
  {
    if ns == [] then [] else ns[0].children + ChildrenOf(ns[1..])
  }

  /** `all` holds the roots and, with a node, its children. */
  ghost predicate Contained(all: set<Node>, roots: seq<Node>)
    reads all
  {
    (forall r :: r in roots ==> r in all) && (forall v, c :: v in all && c in v.children ==> c in all)
  }

  /** The nodes n edges below the roots; `all` are the nodes of the forest. */
  ghost function Depth(all: set<Node>, roots: seq<Node>, n: nat): (ns: seq<Node>)
    reads all
    requires Contained(all, roots)
    ensures forall v :: v in ns ==> v in all
  {
    if n == 0 then roots
    else
      var above := Depth(all, roots, n - 1);
      ChildrenWithin(all, above);
      ChildrenOf(above)
  }

  lemma {:induction false} ChildrenWithin(all: set<Node>, ns: seq<Node>)
    requires (forall v :: v in ns ==> v in all) && forall v, c :: v in all && c in v.children ==> c in all
    ensures forall c :: c in ChildrenOf(ns) ==> c in all
  {
    if ns != [] {
      ChildrenWithin(all, ns[1..]);
    }
  }

  /** The whole forest, level by level. */
  ghost function Flatten(all: set<Node>, roots: seq<Node>, depth: nat): (ns: seq<Node>)
    reads all
    requires Contained(all, roots)
  {
    if depth == 0 then [] else Flatten(all, roots, depth - 1) + Depth(all, roots, depth - 1)
  }

  function Roots(rows: seq<Account>): seq<Account> {
    Filter(IsRoot(ParentsOf(rows).Keys), rows)
  }

  // ------------------------------------------------------------------ the heap and the rows

  lemma Wellformed(nodes: map<string, Node>, rows: seq<Account>, roots: seq<Node>)
    requires Built(nodes, rows, roots)
    ensures Contained(nodes.Values, roots)
  {
    forall v, c | v in nodes.Values && c in v.children
      ensures c in nodes.Values
    {
      var id :| id in nodes && nodes[id] == v;
      assert Selects(nodes, rows, Below(id), v.children);
      Chosen(nodes, rows, Below(id));
    }
    Chosen(nodes, rows, IsRoot(nodes.Keys));
  }

  lemma {:induction false} SameFilter(f: Account -> bool, g: Account -> bool, s: seq<Account>)
    requires forall x :: x in s ==> (f(x) <==> g(x))
    ensures Filter(f, s) == Filter(g, s)
  {
    if s != [] {
      SameFilter(f, g, s[1..]);
    }
  }

  lemma SelectedRows(nodes: map<string, Node>, rows: seq<Account>, keep: Account -> bool, ns: seq<Node>)
    requires Indexes(nodes, rows) && Selects(nodes, rows, keep, ns)
    ensures RowsIn(ns) == Filter(keep, rows)
  {
    Chosen(nodes, rows, keep);
    var kept := Filter(keep, rows);
    forall i | 0 <= i < |ns| ensures RowsIn(ns)[i] == kept[i] {
      assert kept[i] in kept;
    }
  }

  /** Each node's children are the rows whose parent it is, in row order. */
  lemma ChildrenAre(nodes: map<string, Node>, rows: seq<Account>, roots: seq<Node>, id: string)
    requires Built(nodes, rows, roots) && id in nodes && id != ""
    ensures RowsIn(nodes[id].children) == Filter(ChildOf(id), rows)
  {
    SelectedRows(nodes, rows, Below(id), nodes[id].children);
    SameFilter(Below(id), ChildOf(id), rows);
  }

  lemma {:induction false} ChildrenJoin(nodes: map<string, Node>, rows: seq<Account>, roots: seq<Node>, ns: seq<Node>)
    requires Built(nodes, rows, roots) && !HasId(rows, "") && forall v :: v in ns ==> v in nodes.Values
    ensures RowsIn(ChildrenOf(ns)) == Join(rows, RowsIn(ns))
  {
    hide Built;
    if ns != [] {
      ChildrenJoin(nodes, rows, roots, ns[1..]);
      NodeId(nodes, rows, roots, ns[0]);
      ChildrenAre(nodes, rows, roots, ns[0].row.accountId);
      assert RowsIn(ns)[1..] == RowsIn(ns[1..]);
      RowsConcat(ns[0].children, ChildrenOf(ns[1..]));
    }
  }

  lemma NodeId(nodes: map<string, Node>, rows: seq<Account>, roots: seq<Node>, v: Node)
    requires Built(nodes, rows, roots) && !HasId(rows, "") && v in nodes.Values
    ensures v.row.accountId in nodes && nodes[v.row.accountId] == v && v.row.accountId != ""
  {
    var id :| id in nodes && nodes[id] == v;
    assert v.row in rows;
  }

  lemma RootsAre(nodes: map<string, Node>, rows: seq<Account>, roots: seq<Node>)
    requires Built(nodes, rows, roots)
    ensures RowsIn(roots) == Roots(rows)
  {
    SelectedRows(nodes, rows, IsRoot(nodes.Keys), roots);
    forall id ensures id in nodes <==> id in ParentsOf(rows) {
      ParentsListed(rows, id);
      if HasId(rows, id) {
        var i :| 0 <= i < |rows| && rows[i].accountId == id;
        assert rows[i] in rows;
      }
      if id in nodes {
        IdListed(rows, nodes[id].row);
      }
    }
    assert nodes.Keys == ParentsOf(rows).Keys;
  }

  lemma {:induction false} DepthIsLevel(nodes: map<string, Node>, rows: seq<Account>, roots: seq<Node>, n: nat)
    requires Built(nodes, rows, roots) && !HasId(rows, "")
    requires Contained(nodes.Values, roots)
    ensures RowsIn(Depth(nodes.Values, roots, n)) == Level(rows, Roots(rows), n)
    decreases n
  {
    hide Built;
    if n == 0 {
      RootsAre(nodes, rows, roots);
    } else {
      DepthIsLevel(nodes, rows, roots, n - 1);
      ChildrenJoin(nodes, rows, roots, Depth(nodes.Values, roots, n - 1));
    }
  }

  lemma {:induction false} FlattenIsLevels(nodes: map<string, Node>, rows: seq<Account>, roots: seq<Node>, depth: nat)
    requires Built(nodes, rows, roots) && !HasId(rows, "")
    requires Contained(nodes.Values, roots)
    ensures RowsIn(Flatten(nodes.Values, roots, depth)) == Levels(rows, Roots(rows), depth)
    decreases depth
  {
    hide Built;
    if depth > 0 {
      FlattenIsLevels(nodes, rows, roots, depth - 1);
      DepthIsLevel(nodes, rows, roots, depth - 1);
      RowsConcat(Flatten(nodes.Values, roots, depth - 1), Depth(nodes.Values, roots, depth - 1));
    }
  }

  // ------------------------------------------------------------------ the forest is the rows

  lemma Subgraph(rows: seq<Account>, rs: seq<Account>)
    requires TableInv(rows) && UniqueIds(rs) && forall r :: r in rs ==> r in rows
    ensures Acyclic(ParentsOf(rs)) && !HasId(rs, "")
  {
    forall x, n: nat | n > 0 ensures Up(ParentsOf(rs), x, n) != Some(x) {
      forall y | y in ParentsOf(rs) && ParentsOf(rs)[y].Some?
        ensures y in ParentsOf(rows) && ParentsOf(rows)[y] == ParentsOf(rs)[y]
      {
        ParentsListed(rs, y);
        var i :| 0 <= i < |rs| && rs[i].accountId == y;
        ParentAt(rs, i);
        ParentOfRow(rows, rs[i]);
      }
      FewerLinks(ParentsOf(rows), ParentsOf(rs), x, n);
      NeverAgain(ParentsOf(rows), x, n);
    }
    if i :| 0 <= i < |rs| && rs[i].accountId == "" {
      IdListed(rows, rs[i]);
    }
  }

  lemma RootsListed(rs: seq<Account>, r: Account)
    requires UniqueIds(rs) && !HasId(rs, "")
    ensures r in Roots(rs) <==> r in rs && (r.parent.None? || r.parent.value !in ParentsOf(rs))
  {
    FilterMember(IsRoot(ParentsOf(rs).Keys), rs, r);
    ParentsListed(rs, "");
  }

  lemma RootsUnique(rs: seq<Account>)
    requires UniqueIds(rs)
    ensures UniqueIds(Roots(rs)) && forall r :: r in Roots(rs) ==> r in rs
  {
    var keep := IsRoot(ParentsOf(rs).Keys);
    RowsDistinct(rs);
    forall x ensures multiset(Roots(rs))[x] <= 1 {
      FilterCount(keep, rs, x);
      DistinctCounts(rs, x);
    }
    CountedOnce(Roots(rs));
    forall r | r in Roots(rs) ensures r in rs {
      FilterMember(keep, rs, r);
    }
    forall i, j | 0 <= i < j < |Roots(rs)| ensures Roots(rs)[i].accountId != Roots(rs)[j].accountId {
      SameIdSameRow(rs, Roots(rs)[i], Roots(rs)[j]);
    }
  }

  /** Above a root there is no listed row. */
  lemma NothingAboveRoot(rs: seq<Account>, s: Account, k: nat)
    requires UniqueIds(rs) && !HasId(rs, "") && s in Roots(rs) && k > 0
    ensures !Hits(rs, Roots(rs), s, k)
  {
    hide ParentsOf, Roots, HasId;
    RootsListed(rs, s);
    ParentOfRow(rs, s);
    var parents := ParentsOf(rs);
    if s.parent.Some? {
      assert Up(parents, s.accountId, k) == Up(parents, s.parent.value, k - 1);
      assert k > 1 ==> Up(parents, s.parent.value, k - 1) == None;
      forall t | t in Roots(rs) ensures t.accountId in parents {
        RootsListed(rs, t);
        ParentOfRow(rs, t);
      }
    }
  }

  /** Climbing from any row meets a root. */
  lemma {:induction false} MeetsRoot(rs: seq<Account>, c: Account, x: Account, n: nat)
    requires UniqueIds(rs) && !HasId(rs, "") && Acyclic(ParentsOf(rs)) && c in rs && x in rs
    requires Up(ParentsOf(rs), c.accountId, n) == Some(x.accountId)
    ensures HitsWithin(rs, Roots(rs), c, |rs| + 1)
    decreases |ParentsOf(rs)| + 1 - n
  {
    hide ParentsOf, Roots, Acyclic, HasId;
    var parents := ParentsOf(rs);
    ChainsAreShort(parents, c.accountId, n);
    ParentsSize(rs);
    RootsListed(rs, x);
    ParentOfRow(rs, x);
    if x in Roots(rs) {
      assert Hits(rs, Roots(rs), c, n);
    } else {
      var p := x.parent.value;
      UpAdds(parents, c.accountId, n, 1);
      assert Up(parents, x.accountId, 1) == Up(parents, p, 0) == Some(p);
      ChainsAreShort(parents, c.accountId, n + 1);
      var y := RowAt(rs, p);
      MeetsRoot(rs, c, y, n + 1);
    }
  }

  lemma RowAt(rs: seq<Account>, id: string) returns (r: Account)
    requires id in ParentsOf(rs)
    ensures r in rs && r.accountId == id
  {
    ParentsListed(rs, id);
    var i :| 0 <= i < |rs| && rs[i].accountId == id;
    r := rs[i];
  }

  /** For rows of a table, any unique selection of them, the forest's levels hold each row exactly once. */
  lemma LevelsAreRows(rows: seq<Account>, rs: seq<Account>)
    requires TableInv(rows) && UniqueIds(rs) && forall r :: r in rs ==> r in rows
    ensures multiset(Levels(rs, Roots(rs), |rs| + 1)) == multiset(rs)
  {
    hide TableInv, Levels, Roots, ParentsOf, HitsWithin, Hits, Acyclic, UniqueIds, HasId;
    Subgraph(rows, rs);
    RootsUnique(rs);
    RowsDistinct(rs);
    forall s, k: nat | s in Roots(rs) && k > 0 ensures !Hits(rs, Roots(rs), s, k) {
      NothingAboveRoot(rs, s, k);
    }
    forall c ensures multiset(Levels(rs, Roots(rs), |rs| + 1))[c] == multiset(rs)[c] {
      LevelsCount(rs, Roots(rs), |rs| + 1, c);
      DistinctCounts(rs, c);
      if c in rs {
        assert Up(ParentsOf(rs), c.accountId, 0) == Some(c.accountId);
        MeetsRoot(rs, c, c, 0);
      }
    }
  }

  /** What query_account_tree fetches: distinct rows of the table, in (code, account_id) order. */
  lemma Fetched(rows: seq<Account>, root: Option<string>)
    requires TableInv(rows)
    ensures UniqueIds(FetchTreeRows(rows, root)) && SortedBy(CodeOrder, FetchTreeRows(rows, root))
    ensures forall r :: r in FetchTreeRows(rows, root) ==> r in rows
  {
    var rs := FetchTreeRows(rows, root);
    Reachable(rows);
    RowsDistinct(rows);
    forall c ensures multiset(rs)[c] <= 1 && (multiset(rs)[c] == 1 ==> c in rows) {
      FetchedCount(rows, root, c);
    }
    CountedOnce(rs);
    TreeOrder();
    FetchedSorted(rows, root);
    hide FetchTreeRows, TableInv, CodeOrder;
    forall r | r in rs ensures r in rows {
      assert multiset(rs)[r] == 1;
    }
    forall i, j | 0 <= i < j < |rs| ensures rs[i].accountId != rs[j].accountId {
      SameIdSameRow(rows, rs[i], rs[j]);
    }
  }

  lemma FetchedCount(rows: seq<Account>, root: Option<string>, c: Account)
    requires TableInv(rows)
    ensures multiset(FetchTreeRows(rows, root))[c] <= 1
    ensures multiset(FetchTreeRows(rows, root))[c] == 1 ==> c in rows
  {
    hide TableInv, CodeOrder, Levels, Sort;
    if root.Some? && root.value != "" {
      SubtreeExactly(rows, root.value, c);
    } else {
      Reachable(rows);
      RowsDistinct(rows);
      DistinctCounts(rows, c);
      TreeOrder();
      SortCorrect(CodeOrder, rows);
    }
  }

  lemma FetchedSorted(rows: seq<Account>, root: Option<string>)
    requires TableInv(rows)
    ensures SortedBy(CodeOrder, FetchTreeRows(rows, root))
  {
    hide TableInv, CodeOrder, Levels, Sort, SortedBy;
    TreeOrder();
    if root.Some? && root.value != "" {
      SortCorrect(CodeOrder, Levels(rows, Filter(WithId(root.value), rows), |rows| + 1));
    } else {
      SortCorrect(CodeOrder, rows);
    }
  }

  /** Codes are unique, so fetched rows stand in strictly ascending string order of their codes. */
  predicate ByCode(a: Account, b: Account) {
    StrLt(a.code, b.code)
  }

  lemma FetchedByCode(rows: seq<Account>, root: Option<string>)
    requires TableInv(rows)
    ensures SortedBy(ByCode, FetchTreeRows(rows, root))
  {
    Fetched(rows, root);
    var rs := FetchTreeRows(rows, root);
    hide FetchTreeRows, StrLe, Closed, Acyclic, HasId;
    forall i, j | 0 <= i < j < |rs| ensures ByCode(rs[i], rs[j]) {
      assert CodeOrder(rs[i], rs[j]) && rs[i].accountId != rs[j].accountId;
      assert rs[i] in rows && rs[j] in rows;
    }
  }

  /** query_account_tree returns a forest whose nodes are exactly the fetched rows, each once; every edge runs from a
    row to its parent_account_id; and roots and siblings stand in strictly ascending order of their codes. */
  lemma ForestIsExact(rows: seq<Account>, root: Option<string>, nodes: map<string, Node>, roots: seq<Node>)
    requires TableInv(rows) && Built(nodes, FetchTreeRows(rows, root), roots)
    ensures Contained(nodes.Values, roots)
    ensures forall v, c :: v in nodes.Values && c in v.children ==> c.row.parent == Some(v.row.accountId)
    ensures var rs := FetchTreeRows(rows, root);
            multiset(RowsIn(Flatten(nodes.Values, roots, |rs| + 1))) == multiset(rs)
    ensures SortedBy(ByCode, RowsIn(roots))
    ensures forall v :: v in nodes.Values ==> SortedBy(ByCode, RowsIn(v.children))
  {
    var rs := FetchTreeRows(rows, root);
    hide Built, FetchTreeRows, TableInv, ByCode, Levels, Flatten, UniqueIds, HasId, SortedBy, Roots, IsRoot, ChildOf;
    Fetched(rows, root);
    FetchedByCode(rows, root);
    Subgraph(rows, rs);
    Wellformed(nodes, rs, roots);
    FlattenIsLevels(nodes, rs, roots, |rs| + 1);
    LevelsAreRows(rows, rs);
    RootsAre(nodes, rs, roots);
    RootsInOrder(rs);
    forall v | v in nodes.Values
      ensures SortedBy(ByCode, RowsIn(v.children))
      ensures forall c :: c in v.children ==> c.row.parent == Some(v.row.accountId)
    {
      ChildrenInOrder(nodes, rs, roots, v);
    }
  }

  lemma RootsInOrder(rs: seq<Account>)
    requires SortedBy(ByCode, rs)
    ensures SortedBy(ByCode, Roots(rs))
  {
    FilterSorted(ByCode, IsRoot(ParentsOf(rs).Keys), rs);
  }

  lemma ChildrenInOrder(nodes: map<string, Node>, rs: seq<Account>, roots: seq<Node>, v: Node)
    requires Built(nodes, rs, roots) && !HasId(rs, "") && v in nodes.Values && SortedBy(ByCode, rs)
    ensures SortedBy(ByCode, RowsIn(v.children))
    ensures forall c :: c in v.children ==> c.row.parent == Some(v.row.accountId)
  {
    NodeId(nodes, rs, roots, v);
    var id := v.row.accountId;
    ChildrenAre(nodes, rs, roots, id);
    FilterSorted(ByCode, ChildOf(id), rs);
    forall c | c in v.children ensures c.row.parent == Some(id) {
      var i :| 0 <= i < |v.children| && v.children[i] == c;
      assert RowsIn(v.children)[i] in Filter(ChildOf(id), rs);
      FilterMember(ChildOf(id), rs, c.row);
    }
  }

  lemma FetchedUnder(rows: seq<Account>, root: string, c: Account)
    requires TableInv(rows) && root != ""
    ensures c in FetchTreeRows(rows, Some(root)) <==> Under(rows, c, root)
  {
    hide TableInv, FetchTreeRows, Under;
    SubtreeExactly(rows, root, c);
    assert c in FetchTreeRows(rows, Some(root)) <==> multiset(FetchTreeRows(rows, Some(root)))[c] > 0;
  }

  /** Of the rows at or below `root`, only `root` has no parent among them. */
  lemma OnlyRoot(rows: seq<Account>, root: Account, c: Account)
    requires TableInv(rows) && root in rows
    ensures var rs := FetchTreeRows(rows, Some(root.accountId));
            c in rs && (c.parent.None? || c.parent.value !in ParentsOf(rs)) <==> c == root
  {
    hide FetchTreeRows, HasId, Acyclic, Closed, ParentsOf, UniqueIds;
    var id, parents := root.accountId, ParentsOf(rows);
    var rs := FetchTreeRows(rows, Some(id));
    Reachable(rows);
    IdListed(rows, root);
    FetchedUnder(rows, id, c);
    Fetched(rows, Some(id));
    assert Up(parents, id, 0) == Some(id);
    if c in rs {
      ParentOfRow(rows, c);
      if c.parent.Some? {
        var p := c.parent.value;
        UpAdds(parents, c.accountId, 1, 0);
        assert Up(parents, p, 0) == Some(p);
        assert Up(parents, c.accountId, 1) == Some(p);
        AncestorListed(rows, c, 1);
        var y :| y in rows && y.accountId == p;
        FetchedUnder(rows, id, y);
        FetchedParent(rows, rs, y);
        if c == root {
          NotUnderItself(rows, root, y);
        } else {
          var n: nat :| Up(parents, c.accountId, n) == Some(id);
          SameIdSameRow(rows, c, root);
          assert Up(parents, y.accountId, n - 1) == Some(id);
        }
      } else if c != root {
        var n: nat :| Up(parents, c.accountId, n) == Some(id);
        SameIdSameRow(rows, c, root);
      }
    }
  }

  lemma NotUnderItself(rows: seq<Account>, root: Account, y: Account)
    requires TableInv(rows) && root in rows && root.parent == Some(y.accountId)
    ensures !Under(rows, y, root.accountId)
  {
    hide Closed, ParentsOf;
    ParentOfRow(rows, root);
    var parents := ParentsOf(rows);
    forall n: nat ensures Up(parents, y.accountId, n) != Some(root.accountId) {
      NeverAgain(parents, root.accountId, n + 1);
      assert Up(parents, root.accountId, n + 1) == Up(parents, y.accountId, n);
    }
  }

  lemma FetchedParent(rows: seq<Account>, rs: seq<Account>, y: Account)
    requires UniqueIds(rows) && y in rows && forall r :: r in rs ==> r in rows
    ensures y.accountId in ParentsOf(rs) <==> y in rs
  {
    ParentsListed(rs, y.accountId);
    if y in rs {
      IdListed(rs, y);
    }
    if i :| 0 <= i < |rs| && rs[i].accountId == y.accountId {
      SameIdSameRow(rows, rs[i], y);
    }
  }

  lemma Single(rs: seq<Account>, root: Account)
    requires UniqueIds(rs) && forall c :: c in rs <==> c == root
    ensures rs == [root]
  {
    assert root in rs;
    forall i | 0 <= i < |rs| ensures rs[i] == root {
      assert rs[i] in rs;
    }
    assert |rs| > 1 ==> rs[0].accountId != rs[1].accountId;
  }

  /** A rooted query returns a single tree: the root on top, and in it the root and its descendants, once each. */
  lemma RootedIsOneTree(rows: seq<Account>, root: Account, nodes: map<string, Node>, roots: seq<Node>, c: Account)
    requires TableInv(rows) && root in rows && Built(nodes, FetchTreeRows(rows, Some(root.accountId)), roots)
    ensures RowsIn(roots) == [root]
    ensures Contained(nodes.Values, roots)
    ensures var rs := FetchTreeRows(rows, Some(root.accountId));
            multiset(RowsIn(Flatten(nodes.Values, roots, |rs| + 1)))[c] ==
                if Under(rows, c, root.accountId) then 1 else 0
  {
    var rs := FetchTreeRows(rows, Some(root.accountId));
    hide Built, FetchTreeRows, TableInv, Flatten, Roots, Under, UniqueIds, HasId, SortedBy;
    ForestIsExact(rows, Some(root.accountId), nodes, roots);
    NonEmptyId(rows, root);
    SubtreeExactly(rows, root.accountId, c);
    Fetched(rows, Some(root.accountId));
    Subgraph(rows, rs);
    RootsUnique(rs);
    forall x ensures x in Roots(rs) <==> x == root {
      RootsListed(rs, x);
      OnlyRoot(rows, root, x);
    }
    Single(Roots(rs), root);
    RootsAre(nodes, rs, roots);
  }

  lemma NonEmptyId(rows: seq<Account>, root: Account)
    requires TableInv(rows) && root in rows
    ensures root.accountId != ""
  {
    IdListed(rows, root);
  }
}
