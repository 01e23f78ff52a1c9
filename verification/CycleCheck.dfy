/** The depth-first cycle check on a chart-of-accounts file's parent references
  (_assert_acyclic in src/capital_os/db/coa_importer.py). */
module CycleCheck {
  import opened Wrappers
  import opened Ordering
  import opened Hierarchy

  /** The references as a graph; an empty reference is no parent. */
  function Links(refs: map<string, string>): Parents {
    map id | id in refs :: if refs[id] == "" then None else Some(refs[id])
  }

  /** Following parents from here ends. */
  ghost predicate Ends(parents: Parents, id: string) {
    exists n: nat :: Up(parents, id, n) == None
  }

  ghost predicate Leads(parents: Parents, from: string, to: string) {
    exists n: nat :: n > 0 && Up(parents, from, n) == Some(to)
  }

  lemma EndsAbove(parents: Parents, id: string)
    ensures id !in parents || parents[id].None? ==> Ends(parents, id)
    ensures id in parents && parents[id].Some? && Ends(parents, parents[id].value) ==> Ends(parents, id)
  {
    if id !in parents || parents[id].None? {
      assert Up(parents, id, 1) == None;
    } else if Ends(parents, parents[id].value) {
      var n: nat :| Up(parents, parents[id].value, n) == None;
      assert Up(parents, id, n + 1) == None;
    }
  }

  lemma LeadsOn(parents: Parents, from: string, id: string)
    requires id in parents && parents[id].Some?
    ensures Leads(parents, from, id) || from == id ==> Leads(parents, from, parents[id].value)
  {
    var p := parents[id].value;
    if from == id {
      assert Up(parents, p, 0) == Some(p);
      assert Up(parents, id, 1) == Some(p);
    } else if Leads(parents, from, id) {
      var n: nat :| n > 0 && Up(parents, from, n) == Some(id);
      UpAdds(parents, from, n, 1);
      assert Up(parents, p, 0) == Some(p);
      assert Up(parents, id, 1) == Some(p);
      assert Up(parents, from, n + 1) == Some(p);
    }
  }

  /** A chain that comes back never ends. */
  lemma {:induction false} CycleNeverEnds(parents: Parents, id: string, n: nat, m: nat)
    requires n > 0 && Up(parents, id, n) == Some(id)
    ensures Up(parents, id, m) != None
    decreases m
  {
    if m <= n {
      UpAdds(parents, id, m, n - m);
    } else {
      UpAdds(parents, id, n, m - n);
      CycleNeverEnds(parents, id, n, m - n);
    }
  }

  ghost predicate Once(visited: set<string>, expanded: seq<string>) {
    Distinct(expanded) && forall v :: v in visited <==> v in expanded
  }

  lemma OnceMore(visited: set<string>, expanded: seq<string>, node: string)
    requires Once(visited, expanded) && node !in visited
    ensures Once(visited + {node}, expanded + [node])
  {
  }

  class Walk {
    const refs: map<string, string>
    var visited: set<string>
    var inStack: set<string>
    ghost var expanded: seq<string>

    constructor (refs: map<string, string>)
      ensures this.refs == refs && visited == {} && inStack == {} && expanded == []
    {
      this.refs := refs;
      visited, inStack := {}, {};
      expanded := [];
    }

    ghost function Universe(): set<string> {
      refs.Keys + refs.Values
    }

    /** Every visited node was expanded, once. */
    ghost predicate ExpandedOnce()
      reads this
    {
      Once(visited, expanded)
    }

    /** Every visited node off the stack is known to lead nowhere back. */
    ghost predicate Valid()
      reads this
    {
      && ExpandedOnce()
      && inStack <= visited <= Universe()
      && forall v :: v in visited && v !in inStack ==> Ends(Links(refs), v)
    }

    lemma InUniverse(node: string)
      ensures node in refs ==> refs[node] in Universe()
    {
    }

    /** The inner function dfs; a raised error is the answer true. */
    method Dfs(node: string) returns (cyclic: bool)
      requires Valid() && node in Universe()
      requires forall s :: s in inStack ==> Leads(Links(refs), s, node)
      modifies this
      ensures ExpandedOnce()
      ensures cyclic ==> exists id :: Leads(Links(refs), id, id)
      ensures !cyclic ==>
                Valid() && inStack == old(inStack) && node !in inStack && old(visited) <= visited && node in visited
      decreases |Universe() - visited|
    {
      hide Leads, Ends, Once, Links, Universe;
      InUniverse(node);
      if node in inStack {
        return true;
      }
      if node in visited {
        return false;
      }
      OnceMore(visited, expanded, node);
      SubsetSize(Universe() - (visited + {node}), Universe() - visited);
      visited, inStack, expanded := visited + {node}, inStack + {node}, expanded + [node];
      EndsAbove(Links(refs), node);
      LinkAt(refs, node);
      if node in refs && refs[node] != "" {
        var parent := refs[node];
        forall s | s in inStack ensures Leads(Links(refs), s, parent) {
          LeadsOn(Links(refs), s, node);
        }
        cyclic := Dfs(parent);
        if cyclic {
          return;
        }
      }
      inStack := inStack - {node};
      cyclic := false;
    }
  }

  lemma LinkAt(refs: map<string, string>, node: string)
    ensures node in Links(refs) <==> node in refs
    ensures node in refs ==> Links(refs)[node] == if refs[node] == "" then None else Some(refs[node])
  {
  }

  lemma LeadsBack(parents: Parents)
    ensures (exists id :: Leads(parents, id, id)) <==> !Acyclic(parents)
  {
    if id, n: nat :| n > 0 && Up(parents, id, n) == Some(id) {
      assert Leads(parents, id, id);
    }
  }

  /** When every listed chain ends there is no cycle. */
  lemma AllEnd(parents: Parents)
    requires forall id :: id in parents ==> Ends(parents, id)
    ensures Acyclic(parents)
  {
    if id, n: nat :| n > 0 && Up(parents, id, n) == Some(id) {
      var m: nat :| Up(parents, id, m) == None;
      CycleNeverEnds(parents, id, n, m);
      assert false;
    }
  }

  /** _assert_acyclic raises exactly when the references contain a cycle, whatever order the nodes are taken in, and
    expands no node twice. */
  method AssertAcyclic(refs: map<string, string>) returns (raised: bool, ghost expanded: seq<string>)
    ensures raised <==> !Acyclic(Links(refs))
    ensures Distinct(expanded)
  {
    hide Acyclic, Leads, Ends, Links, Distinct;
    var walk := new Walk(refs);
    StartsOnce();
    var left := refs.Keys;
    while left != {}
      invariant fresh(walk) && walk.refs == refs
      invariant left <= refs.Keys
      invariant walk.Valid() && walk.inStack == {}
      invariant forall id :: id in refs && id !in left ==> id in walk.visited
      decreases left
    {
      var node :| node in left;
      raised := walk.Dfs(node);
      if raised {
        LeadsBack(Links(refs));
        expanded := walk.expanded;
        OnceDistinct(walk.visited, expanded);
        return;
      }
      left := left - {node};
    }
    forall id | id in Links(refs) ensures Ends(Links(refs), id) {
      LinkAt(refs, id);
    }
    AllEnd(Links(refs));
    raised, expanded := false, walk.expanded;
    OnceDistinct(walk.visited, expanded);
  }

  lemma StartsOnce()
    ensures Once({}, [])
  {
  }

  lemma OnceDistinct(visited: set<string>, expanded: seq<string>)
    requires Once(visited, expanded)
    ensures Distinct(expanded)
  {
  }
}
