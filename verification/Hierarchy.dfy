/** Parent links as a graph: n-th ancestors, cycles, and what adding a link does.  Behind the account tree of
  migrations/0001_ledger_core.sql and the cycle check of src/capital_os/db/coa_importer.py. */
module Hierarchy {
  import opened Wrappers
  import opened Ordering

  type Parents = map<string, Option<string>>

  /** The n-th ancestor. */
  function Up(parents: Parents, id: string, n: nat): Option<string>
    decreases n
  {
    if n == 0 then Some(id)
    else if id in parents && parents[id].Some? then Up(parents, parents[id].value, n - 1)
    else None
  }

  ghost predicate Acyclic(parents: Parents) {
    forall id, n: nat :: n > 0 ==> Up(parents, id, n) != Some(id)
  }

  /** Every parent is listed itself: the foreign key. */
  predicate Closed(parents: Parents) {
    forall id :: id in parents && parents[id].Some? ==> parents[id].value in parents
  }

  // ------------------------------------------------------------------ ancestors

  lemma {:induction false} UpAdds(parents: Parents, id: string, m: nat, n: nat)
    ensures Up(parents, id, m + n) ==
            match Up(parents, id, m) case None => None case Some(a) => Up(parents, a, n)
    decreases m
  {
    if m > 0 && id in parents && parents[id].Some? {
      UpAdds(parents, parents[id].value, m - 1, n);
    }
  }

  lemma {:induction false} UpClosed(parents: Parents, id: string, n: nat)
    requires Closed(parents) && id in parents && Up(parents, id, n).Some?
    ensures Up(parents, id, n).value in parents
    decreases n
  {
    if n > 0 {
      UpClosed(parents, parents[id].value, n - 1);
    }
  }

  /** A chain of n links visits n different listed ids, so there are at most as many links as ids. */
  lemma ChainsAreShort(parents: Parents, id: string, n: nat)
    requires Acyclic(parents) && Up(parents, id, n).Some?
    ensures n <= |parents|
  {
    var visited := Visited(parents, id, n);
    if n > |parents| {
      assert visited <= parents.Keys;
      SubsetSize(visited, parents.Keys);
    }
  }

  /** `x` is among the first n ids of the chain from `id`. */
  ghost predicate Within(parents: Parents, id: string, n: nat, x: string) {
    exists k: nat :: k < n && Up(parents, id, k) == Some(x)
  }

  lemma {:induction false} Visited(parents: Parents, id: string, n: nat) returns (visited: set<string>)
    requires Acyclic(parents) && Up(parents, id, n).Some?
    ensures |visited| == n && visited <= parents.Keys
    ensures forall x :: x in visited ==> Within(parents, id, n, x)
    decreases n
  {
    hide Acyclic;
    if n == 0 {
      visited := {};
    } else {
      var parent := parents[id].value;
      var rest := Visited(parents, parent, n - 1);
      forall x | x in rest
        ensures Within(parents, id, n, x) && x != id
      {
        var k: nat :| k < n - 1 && Up(parents, parent, k) == Some(x);
        assert Up(parents, id, k + 1) == Some(x);
        NeverAgain(parents, id, k + 1);
      }
      assert Up(parents, id, 0) == Some(id);
      visited := {id} + rest;
    }
  }

  lemma NeverAgain(parents: Parents, id: string, n: nat)
    requires Acyclic(parents) && n > 0
    ensures Up(parents, id, n) != Some(id)
  {
  }

  // ------------------------------------------------------------------ adding a link

  /** Away from `id` the two maps agree, so whoever reaches `id` in one reaches it in the other. */
  lemma {:induction false} ReachesStill(p: Parents, q: Parents, id: string, x: string, n: nat) returns (k: nat)
    requires Up(p, x, n) == Some(id)
    requires forall y :: y != id ==> (y in p <==> y in q) && (y in p ==> p[y] == q[y])
    ensures k <= n && Up(q, x, k) == Some(id)
    decreases n
  {
    if x == id {
      k := 0;
    } else {
      k := ReachesStill(p, q, id, p[x].value, n - 1);
      k := k + 1;
    }
  }

  /** A chain that never meets `id` is the same in both. */
  lemma {:induction false} SameAway(p: Parents, q: Parents, id: string, x: string, n: nat)
    requires forall y :: y != id ==> (y in p <==> y in q) && (y in p ==> p[y] == q[y])
    requires forall k: nat :: k < n ==> Up(p, x, k) != Some(id)
    ensures Up(q, x, n) == Up(p, x, n)
    decreases n
  {
    if n > 0 {
      assert Up(p, x, 0) == Some(x);
      if x in p && p[x].Some? {
        forall k: nat | k < n - 1 ensures Up(p, p[x].value, k) != Some(id) {
          assert Up(p, x, k + 1) == Up(p, p[x].value, k);
        }
        SameAway(p, q, id, p[x].value, n - 1);
      }
    }
  }

  /** Giving `id` the parent `p` closes a cycle exactly when `id` is `p` or one of its ancestors. */
  lemma LinkClosesCycle(parents: Parents, id: string, p: string)
    requires Acyclic(parents)
    ensures Acyclic(parents[id := Some(p)]) <==> forall n: nat :: Up(parents, p, n) != Some(id)
  {
    var linked := parents[id := Some(p)];
    if n: nat :| Up(parents, p, n) == Some(id) {
      var k := ReachesStill(parents, linked, id, p, n);
      assert Up(linked, id, k + 1) == Some(id);
    }
    if forall n: nat :: Up(parents, p, n) != Some(id) {
      forall x, m: nat | m > 0
        ensures Up(linked, x, m) != Some(x)
      {
        if Up(linked, x, m) == Some(x) {
          NewCycleUsesLink(parents, id, p, x, m);
        }
      }
    }
  }

  lemma NewCycleUsesLink(parents: Parents, id: string, p: string, x: string, m: nat)
    requires Acyclic(parents) && m > 0 && Up(parents[id := Some(p)], x, m) == Some(x)
    ensures exists n: nat :: Up(parents, p, n) == Some(id)
  {
    var linked := parents[id := Some(p)];
    if forall k: nat :: k < m ==> Up(linked, x, k) != Some(id) {
      SameAway(linked, parents, id, x, m);
      NeverAgain(parents, x, m);
    } else {
      var j: nat :| j < m && Up(linked, x, j) == Some(id);
      UpAdds(linked, x, m, j);
      UpAdds(linked, x, j, m);
      assert Up(linked, id, m) == Some(id);
      assert Up(linked, p, m - 1) == Some(id);
      var n := ReachesStill(linked, parents, id, p, m - 1);
    }
  }

  lemma UnlinkKeepsAcyclic(parents: Parents, id: string)
    requires Acyclic(parents)
    ensures Acyclic(parents[id := None])
  {
    var cut := parents[id := None];
    forall x, m: nat | m > 0
      ensures Up(cut, x, m) != Some(x)
    {
      FewerLinks(parents, cut, x, m);
    }
  }

  lemma {:induction false} FewerLinks(p: Parents, q: Parents, x: string, n: nat)
    requires forall y :: y in q && q[y].Some? ==> y in p && p[y] == q[y]
    ensures Up(q, x, n).Some? ==> Up(p, x, n) == Up(q, x, n)
    decreases n
  {
    if n > 0 && x in q && q[x].Some? {
      FewerLinks(p, q, q[x].value, n - 1);
    }
  }

  // ------------------------------------------------------------------ the recursive ancestor query

  /** The rows the recursive query of the triggers collects: the start, its parent, and so on.  `left` are the ids not
    yet collected; on an acyclic graph it never runs out early. */
  function Climb(parents: Parents, id: string, left: set<string>): seq<string>
    decreases left
  {
    if id !in left || id !in parents then []
    else [id] + match parents[id] case None => [] case Some(p) => Climb(parents, p, left - {id})
  }

  lemma {:induction false} ClimbReaches(parents: Parents, id: string, left: set<string>, x: string)
    requires x in Climb(parents, id, left)
    ensures x in parents && exists n: nat :: Up(parents, id, n) == Some(x)
    decreases left
  {
    if x == id {
      assert Up(parents, id, 0) == Some(x);
    } else {
      var p := parents[id].value;
      ClimbReaches(parents, p, left - {id}, x);
      var n: nat :| Up(parents, p, n) == Some(x);
      assert Up(parents, id, n + 1) == Some(x);
    }
  }

  lemma {:induction false} ReachesClimb(parents: Parents, id: string, left: set<string>, x: string, n: nat)
    requires Acyclic(parents) && x in parents && Up(parents, id, n) == Some(x)
    requires forall k: nat, y :: k <= n && Up(parents, id, k) == Some(y) ==> y in left
    ensures x in Climb(parents, id, left)
    decreases n
  {
    assert Up(parents, id, 0) == Some(id);
    if n > 0 {
      var p := parents[id].value;
      forall k: nat, y | k <= n - 1 && Up(parents, p, k) == Some(y)
        ensures y in left - {id}
      {
        assert Up(parents, id, k + 1) == Some(y);
        NeverAgain(parents, id, k + 1);
      }
      ReachesClimb(parents, p, left - {id}, x, n - 1);
    }
  }

  /** The trigger's test. */
  predicate Aborts(parents: Parents, id: string, p: string) {
    p == id || id in Climb(parents, p, parents.Keys)
  }

  /** On a graph without cycles whose parents all exist, the trigger aborts exactly when the new link would close a
    cycle. */
  lemma AbortsExactly(parents: Parents, id: string, p: string)
    requires Acyclic(parents) && Closed(parents)
    ensures Aborts(parents, id, p) <==> !Acyclic(parents[id := Some(p)])
  {
    LinkClosesCycle(parents, id, p);
    hide Acyclic;
    assert Up(parents, p, 0) == Some(p);
    if id in Climb(parents, p, parents.Keys) {
      ClimbReaches(parents, p, parents.Keys, id);
    }
    if n: nat :| Up(parents, p, n) == Some(id) {
      if n == 0 {
        return;
      }
      assert p in parents;
      UpClosed(parents, p, n);
      forall k: nat, y | k <= n && Up(parents, p, k) == Some(y)
        ensures y in parents.Keys
      {
        UpClosed(parents, p, k);
      }
      ReachesClimb(parents, p, parents.Keys, id, n);
    }
  }

  /** A link the trigger lets pass, to a parent that exists or to none, keeps the graph acyclic and closed. */
  lemma LinkKeepsForest(parents: Parents, id: string, parent: Option<string>)
    requires Acyclic(parents) && Closed(parents)
    requires parent.Some? ==> !Aborts(parents, id, parent.value) && parent.value in parents
    ensures Acyclic(parents[id := parent]) && Closed(parents[id := parent])
  {
    hide Acyclic, Aborts;
    if parent.Some? {
      AbortsExactly(parents, id, parent.value);
    } else {
      UnlinkKeepsAcyclic(parents, id);
    }
  }
}
