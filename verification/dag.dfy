/** Reachability over an append-only arena of nodes, where node `i` lists
    the indices of the nodes it was computed from. Both the backward pass
    and the DOT export walk this relation from a root. */
module Dag {

  /** One dependency list per node, indexed by arena position. */
  type Adjacency = seq<seq<nat>>

  /** Every dependency of a node was created before it: the arena order is
      a topological order, so the graph is acyclic by construction. */
  predicate Ordered(adj: Adjacency) {
    forall i, k :: 0 <= i < |adj| && 0 <= k < |adj[i]| ==> adj[i][k] < i
  }

  /** Every dependency of a member of `s` is a member of `s`. */
  predicate ClosedUnder(adj: Adjacency, s: set<nat>) {
    forall x, k :: x in s && x < |adj| && 0 <= k < |adj[x]| ==> adj[x][k] in s
  }

  function Elems(s: seq<nat>): set<nat> {
    set x | x in s
  }

  /** The nodes marked after scanning indices `r, r-1, ..., i` downwards from
      root `r`: a scanned node that is already marked marks its dependencies.
      Since dependencies sit below their consumers, one downward scan
      reaches every node reachable from `r`. */
  function Marks(adj: Adjacency, r: nat, i: nat): set<nat>
    requires r < |adj| && i <= r + 1
    decreases r + 1 - i
  {
    if i == r + 1 then {r}
    else
      var m := Marks(adj, r, i + 1);
      if i in m then m + Elems(adj[i]) else m
  }

  /** The nodes reachable from `r` through dependency edges, `r` included. */
  function Reach(adj: Adjacency, r: nat): set<nat>
    requires r < |adj|
  {
    Marks(adj, r, 0)
  }

  lemma {:induction false} MarksBelowRoot(adj: Adjacency, r: nat, i: nat)
    requires Ordered(adj) && r < |adj| && i <= r + 1
    ensures forall x :: x in Marks(adj, r, i) ==> x <= r
    decreases r + 1 - i
  {
    if i < r + 1 {
      MarksBelowRoot(adj, r, i + 1);
    }
  }

  lemma {:induction false} MarksGrowDownwards(adj: Adjacency, r: nat, i: nat, j: nat)
    requires r < |adj| && i <= j <= r + 1
    ensures Marks(adj, r, j) <= Marks(adj, r, i)
    decreases j - i
  {
    if i < j {
      MarksGrowDownwards(adj, r, i + 1, j);
    }
  }

  /** Scanning index `i` only adds nodes below `i`, so whether `x` is marked
      is settled once the scan has passed `x`. */
  lemma {:induction false} MarksSettled(adj: Adjacency, r: nat, i: nat, x: nat)
    requires Ordered(adj) && r < |adj| && i <= x <= r
    ensures x in Marks(adj, r, i) <==> x in Marks(adj, r, x + 1)
    decreases x - i
  {
    if i < x {
      MarksSettled(adj, r, i + 1, x);
    } else {
      var m := Marks(adj, r, x + 1);
      if x in m {
        assert Marks(adj, r, x) == m + Elems(adj[x]);
      } else {
        assert Marks(adj, r, x) == m;
      }
    }
  }

  lemma ReachHasRoot(adj: Adjacency, r: nat)
    requires r < |adj|
    ensures r in Reach(adj, r)
  {
    MarksGrowDownwards(adj, r, 0, r + 1);
  }

  lemma ReachBelowRoot(adj: Adjacency, r: nat)
    requires Ordered(adj) && r < |adj|
    ensures forall x :: x in Reach(adj, r) ==> x <= r
  {
    MarksBelowRoot(adj, r, 0);
  }

  /** The dependencies of a reachable node are reachable. */
  lemma ReachClosed(adj: Adjacency, r: nat)
    requires Ordered(adj) && r < |adj|
    ensures ClosedUnder(adj, Reach(adj, r))
  {
    forall x, k | x in Reach(adj, r) && x < |adj| && 0 <= k < |adj[x]|
      ensures adj[x][k] in Reach(adj, r)
    {
      ReachBelowRoot(adj, r);
      MarksSettled(adj, r, 0, x);
      assert x in Marks(adj, r, x + 1);
      assert adj[x][k] in Marks(adj, r, x);
      MarksGrowDownwards(adj, r, 0, x);
    }
  }

  /** Reach is the least set that holds `r` and is closed under dependencies. */
  lemma ReachLeast(adj: Adjacency, r: nat, s: set<nat>)
    requires r < |adj| && r in s && ClosedUnder(adj, s)
    ensures Reach(adj, r) <= s
  {
    MarksWithin(adj, r, 0, s);
  }

  lemma {:induction false} MarksWithin(adj: Adjacency, r: nat, i: nat, s: set<nat>)
    requires r < |adj| && i <= r + 1 && r in s && ClosedUnder(adj, s)
    ensures Marks(adj, r, i) <= s
    decreases r + 1 - i
  {
    if i < r + 1 {
      MarksWithin(adj, r, i + 1, s);
      var m := Marks(adj, r, i + 1);
      if i in m {
        forall d | d in Elems(adj[i]) ensures d in s {
          var k :| 0 <= k < |adj[i]| && adj[i][k] == d;
        }
      }
    }
  }

  /** Every reachable node other than the root is a dependency of a
      reachable node created after it: nothing is reached by accident. */
  lemma ReachHasConsumer(adj: Adjacency, r: nat, x: nat)
    requires Ordered(adj) && r < |adj| && x in Reach(adj, r) && x != r
    ensures exists c :: c in Reach(adj, r) && x < c <= r && x in adj[c]
  {
    var c := MarkedBy(adj, r, 0, x);
    MarksSettled(adj, r, 0, c);
    MarksGrowDownwards(adj, r, 0, c + 1);
  }

  lemma {:induction false} MarkedBy(adj: Adjacency, r: nat, i: nat, x: nat) returns (c: nat)
    requires Ordered(adj) && r < |adj| && i <= r + 1
    requires x in Marks(adj, r, i) && x != r
    ensures i <= c <= r && c in Marks(adj, r, c + 1) && x in adj[c] && x < c
    decreases r + 1 - i
  {
    var m := Marks(adj, r, i + 1);
    if x in m {
      c := MarkedBy(adj, r, i + 1, x);
    } else {
      c := i;
      assert x in Elems(adj[i]);
      var k :| 0 <= k < |adj[i]| && adj[i][k] == x;
    }
  }

  /** A dependency reaches no more than its consumer does. */
  lemma ReachOfDependency(adj: Adjacency, v: nat, k: nat)
    requires Ordered(adj) && v < |adj| && k < |adj[v]|
    ensures adj[v][k] < |adj|
    ensures Reach(adj, adj[v][k]) <= Reach(adj, v)
  {
    ReachHasRoot(adj, v);
    ReachClosed(adj, v);
    ReachLeast(adj, adj[v][k], Reach(adj, v));
  }

  /** No cycles: a node's consumer is never reachable from the node. */
  lemma ConsumerNotReachable(adj: Adjacency, c: nat, k: nat)
    requires Ordered(adj) && c < |adj| && k < |adj[c]|
    ensures c !in Reach(adj, adj[c][k])
  {
    ReachBelowRoot(adj, adj[c][k]);
  }

  /** The members of `s` below `i`, in strictly decreasing order. */
  function Collect(s: set<nat>, i: nat): (r: seq<nat>)
    ensures forall x :: x in r <==> x in s && x < i
  {
    if i == 0 then []
    else (if i - 1 in s then [i - 1] else []) + Collect(s, i - 1)
  }

  /** `Collect` lists its members in strictly decreasing order. */
  lemma {:induction false} CollectDecreasing(s: set<nat>, i: nat)
    ensures forall a, b :: 0 <= a < b < |Collect(s, i)| ==> Collect(s, i)[a] > Collect(s, i)[b]
  {
    if i > 0 {
      CollectDecreasing(s, i - 1);
      var r, rest := Collect(s, i), Collect(s, i - 1);
      if i - 1 in s {
        assert r == [i - 1] + rest;
        forall a, b | 0 <= a < b < |r| ensures r[a] > r[b] {
          assert r[b] == rest[b - 1] && rest[b - 1] in rest;
          if a > 0 {
            assert r[a] == rest[a - 1];
          }
        }
      } else {
        assert r == rest;
      }
    }
  }
}
