/** The graph side of the generator: the adjacency matrix `Mat`, its edges, paths and
    cycles, and the facts Kahn's ordering and the breadth-first search rest on. */
module Topology {
  import opened Seqs

  /** `Mat`: row `a`, column `b` non-zero means an edge from node `a` to node `b`. */
  type Matrix = seq<seq<int>>

  ghost predicate IsSquare(m: Matrix) {
    forall r :: 0 <= r < |m| ==> |m[r]| == |m|
  }

  /** `np.nonzero` counts any non-zero entry as an edge. */
  predicate Edge(m: Matrix, a: int, b: int) {
    0 <= a < |m| && 0 <= b < |m| && b < |m[a]| && m[a][b] != 0
  }

  ghost predicate StrictlyIncreasing(s: seq<nat>) {
    forall i, j :: 0 <= i < j < |s| ==> s[i] < s[j]
  }

  lemma IncreasingDistinct(s: seq<nat>)
    requires StrictlyIncreasing(s)
    ensures Distinct(s)
  {
  }

  /** `np.nonzero(row)[0]`: the positions of the non-zero entries, in increasing order. */
  function Nonzero(row: seq<int>): (r: seq<nat>)
    ensures forall i: int :: i in r <==> 0 <= i < |row| && row[i] != 0
    ensures forall k :: 0 <= k < |r| ==> r[k] < |row|
    ensures StrictlyIncreasing(r)
  {
    if row == [] then []
    else
      var init := row[..|row| - 1];
      assert forall i :: 0 <= i < |init| ==> init[i] == row[i];
      Nonzero(init) + (if row[|row| - 1] != 0 then [|row| - 1] else [])
  }

  /** `zero_loc(List)`: the positions of the zero entries, in increasing order. */
  function ZeroLoc(s: seq<int>): (r: seq<nat>)
    ensures forall i: int :: i in r <==> 0 <= i < |s| && s[i] == 0
    ensures forall k :: 0 <= k < |r| ==> r[k] < |s|
    ensures StrictlyIncreasing(r)
  {
    if s == [] then []
    else
      var init := s[..|s| - 1];
      assert forall i :: 0 <= i < |init| ==> init[i] == s[i];
      ZeroLoc(init) + (if s[|s| - 1] == 0 then [|s| - 1] else [])
  }

  /** `Child(Row)`: exactly the targets of the edges leaving `row`, in increasing order. */
  function Child(m: Matrix, row: nat): (r: seq<nat>)
    requires row < |m|
    requires |m[row]| == |m|
    ensures forall v: int :: v in r <==> Edge(m, row, v)
    ensures forall k :: 0 <= k < |r| ==> r[k] < |m|
    ensures StrictlyIncreasing(r)
  {
    Nonzero(m[row])
  }

  /** Column `v` of the matrix. */
  function Column(m: Matrix, v: nat): (c: seq<int>)
    requires IsSquare(m) && v < |m|
    ensures |c| == |m| && forall r :: 0 <= r < |m| ==> c[r] == m[r][v]
  {
    seq(|m|, r requires 0 <= r < |m| => m[r][v])
  }

  function Sum(s: seq<int>): int {
    if s == [] then 0 else s[0] + Sum(s[1..])
  }

  /** `sum(Mat.iloc[:, v])`, the test `Role_Assignment` uses for a root. */
  function ColumnSum(m: Matrix, v: nat): int
    requires IsSquare(m) && v < |m|
  {
    Sum(Column(m, v))
  }

  /** `np.count_nonzero(Mat, axis=0)`: per column, the number of non-zero entries. */
  function InDegrees(m: Matrix): (d: seq<int>)
    requires IsSquare(m)
    ensures |d| == |m|
  {
    seq(|m|, v requires 0 <= v < |m| => |Nonzero(Column(m, v))|)
  }

  /** `Roots_length()`: the number of columns without a non-zero entry. */
  function RootsLength(m: Matrix): nat
    requires IsSquare(m)
  {
    |ZeroLoc(InDegrees(m))|
  }

  /** The parents of `v`: the nodes with an edge into it. */
  ghost function ParentSet(m: Matrix, v: nat): set<nat> {
    set p: nat | p < |m| && Edge(m, p, v)
  }

  /** The parents of `v` that are not yet in `order`. */
  ghost function UnvisitedParents(m: Matrix, order: seq<nat>, v: nat): set<nat> {
    set p: nat | p < |m| && Edge(m, p, v) && p !in order
  }

  /** The in-degree list counts, for every node, exactly its parents. */
  lemma InDegreesCountParents(m: Matrix)
    requires IsSquare(m)
    ensures forall v :: 0 <= v < |m| ==> InDegrees(m)[v] == |ParentSet(m, v)|
  {
    forall v | 0 <= v < |m|
      ensures InDegrees(m)[v] == |ParentSet(m, v)|
    {
      var c := Column(m, v);
      var nz := Nonzero(c);
      IncreasingDistinct(nz);
      DistinctCard(nz);
      forall x: nat
        ensures x in nz <==> x in ParentSet(m, v)
      {
        if x < |m| {
          assert c[x] == m[x][v];
        }
      }
      assert Elems(nz) == ParentSet(m, v);
    }
  }

  /** The number of entries of a list that `zero_loc` finds. */
  lemma ZeroLocCount(s: seq<int>)
    ensures |ZeroLoc(s)| == |set i: nat | i < |s| && s[i] == 0|
  {
    var z := ZeroLoc(s);
    IncreasingDistinct(z);
    DistinctCard(z);
    assert Elems(z) == (set i: nat | i < |s| && s[i] == 0);
  }

  /** A sum of non-negative entries is zero exactly when every entry is zero. */
  lemma {:induction false} SumZero(s: seq<int>)
    requires forall i :: 0 <= i < |s| ==> s[i] >= 0
    ensures Sum(s) >= 0
    ensures Sum(s) == 0 <==> forall i :: 0 <= i < |s| ==> s[i] == 0
  {
    if s != [] {
      SumZero(s[1..]);
      assert forall i :: 1 <= i < |s| ==> s[i] == s[1..][i - 1];
    }
  }

  ghost predicate NonNegative(m: Matrix) {
    forall a, b :: 0 <= a < |m| && 0 <= b < |m[a]| ==> m[a][b] >= 0
  }

  /** For a non-negative matrix the two root tests agree: a column sums to zero exactly
      when it has no edge, that is, when its in-degree is zero. */
  lemma ColumnSumZeroIffRoot(m: Matrix, v: nat)
    requires IsSquare(m) && NonNegative(m) && v < |m|
    ensures ColumnSum(m, v) == 0 <==> InDegrees(m)[v] == 0
    ensures ColumnSum(m, v) == 0 <==> ParentSet(m, v) == {}
  {
    var c := Column(m, v);
    SumZero(c);
    InDegreesCountParents(m);
    if ParentSet(m, v) != {} {
      var p :| p in ParentSet(m, v);
      assert c[p] != 0;
    }
    if ColumnSum(m, v) != 0 {
      var r :| 0 <= r < |c| && c[r] != 0;
      assert r in ParentSet(m, v);
    }
  }

  /** A walk along edges: the nodes `p[0], p[1], ...`, each with an edge to the next. */
  ghost predicate IsPath(m: Matrix, p: seq<nat>) {
    |p| >= 1
    && (forall i :: 0 <= i < |p| ==> p[i] < |m|)
    && (forall i :: 0 <= i < |p| - 1 ==> Edge(m, p[i], p[i + 1]))
  }

  ghost predicate Reachable(m: Matrix, a: nat, b: nat) {
    exists p: seq<nat> :: IsPath(m, p) && p[0] == a && p[|p| - 1] == b
  }

  /** No walk visits a node twice. */
  ghost predicate Acyclic(m: Matrix) {
    forall p: seq<nat> :: IsPath(m, p) ==> Distinct(p)
  }

  /** Some walk that ends at `v` repeats a node: `v` lies on or below a cycle. */
  ghost predicate Tainted(m: Matrix, v: nat) {
    exists p: seq<nat> :: IsPath(m, p) && p[|p| - 1] == v && !Distinct(p)
  }

  lemma AcyclicIffUntainted(m: Matrix)
    ensures Acyclic(m) <==> forall v :: 0 <= v < |m| ==> !Tainted(m, v)
  {
    if !Acyclic(m) {
      var p: seq<nat> :| IsPath(m, p) && !Distinct(p);
      assert Tainted(m, p[|p| - 1]);
    }
  }

  lemma ReachStep(m: Matrix, a: nat, b: nat, c: nat)
    requires Reachable(m, a, b) && Edge(m, b, c)
    ensures Reachable(m, a, c)
  {
    var p: seq<nat> :| IsPath(m, p) && p[0] == a && p[|p| - 1] == b;
    var q := p + [c];
    assert IsPath(m, q);
  }

  lemma ReachSelf(m: Matrix, a: nat)
    requires a < |m|
    ensures Reachable(m, a, a)
  {
    assert IsPath(m, [a]);
  }

  /** Every node of `s` has all its children in `s`. */
  ghost predicate Closed(m: Matrix, s: seq<nat>) {
    forall k, v :: 0 <= k < |s| && Edge(m, s[k], v) ==> v in s
  }

  /** A child-closed node list that holds `a` holds everything reachable from `a`. */
  lemma ClosedHoldsReachable(m: Matrix, s: seq<nat>, a: nat, b: nat)
    requires Closed(m, s) && a in s && Reachable(m, a, b)
    ensures b in s
  {
    var p: seq<nat> :| IsPath(m, p) && p[0] == a && p[|p| - 1] == b;
    var k := 0;
    while k < |p| - 1
      invariant 0 <= k < |p| && p[k] in s
    {
      var i :| 0 <= i < |s| && s[i] == p[k];
      assert Edge(m, s[i], p[k + 1]);
      k := k + 1;
    }
  }

  /** Every parent of `order[k]` comes before it in `order`. */
  ghost predicate ParentsFirst(m: Matrix, order: seq<nat>) {
    forall k, p :: 0 <= k < |order| && Edge(m, p, order[k]) ==> p in order[..k]
  }

  /** A walk that ends inside a parents-first order lies inside it, visiting positions in
      increasing order; in particular it repeats no node. */
  lemma {:induction false} PathIntoOrder(m: Matrix, order: seq<nat>, p: seq<nat>)
    requires Distinct(order) && ParentsFirst(m, order)
    requires IsPath(m, p) && p[|p| - 1] in order
    ensures forall k :: 0 <= k < |p| ==> p[k] in order
    ensures forall i, j :: 0 <= i < j < |p| ==> Pos(order, p[i]) < Pos(order, p[j])
    ensures Distinct(p)
    decreases |p|
  {
    if |p| > 1 {
      var q := p[1..];
      assert IsPath(m, q) by {
        assert forall i :: 0 <= i < |q| ==> q[i] == p[i + 1];
      }
      assert q[|q| - 1] == p[|p| - 1];
      PathIntoOrder(m, order, q);
      var j := Pos(order, p[1]);
      assert Edge(m, p[0], order[j]);
      assert p[0] in order[..j];
      var i :| 0 <= i < j && order[..j][i] == p[0];
      PosOfDistinct(order, i);
      forall a, b | 0 <= a < b < |p|
        ensures Pos(order, p[a]) < Pos(order, p[b])
      {
        if a == 0 {
          if b > 1 {
            assert Pos(order, q[0]) < Pos(order, q[b - 1]);
          }
        } else {
          assert Pos(order, q[a - 1]) < Pos(order, q[b - 1]);
        }
      }
      assert p[0] in order;
    }
  }

  /** The parents of `x` inside the node set `u`. */
  ghost function ParentsIn(m: Matrix, u: set<nat>, x: nat): set<nat> {
    set p | p in u && Edge(m, p, x)
  }

  /** A walk of any length, backwards from `v`, through a node set in which every node has
      a parent in the set. */
  lemma {:induction false} BackwardWalk(m: Matrix, u: set<nat>, v: nat, k: nat) returns (w: seq<nat>)
    requires v in u && forall x :: x in u ==> x < |m|
    requires forall x :: x in u ==> ParentsIn(m, u, x) != {}
    ensures |w| == k + 1 && IsPath(m, w) && w[k] == v
    ensures forall i :: 0 <= i < |w| ==> w[i] in u
  {
    if k == 0 {
      w := [v];
    } else {
      var rest := BackwardWalk(m, u, v, k - 1);
      var p :| p in ParentsIn(m, u, rest[0]);
      w := [p] + rest;
      forall i | 0 <= i < |w| - 1
        ensures Edge(m, w[i], w[i + 1])
      {
        if i > 0 {
          assert w[i] == rest[i - 1] && w[i + 1] == rest[i];
        }
      }
      forall i | 0 <= i < |w|
        ensures w[i] in u && w[i] < |m|
      {
        if i > 0 {
          assert w[i] == rest[i - 1];
        }
      }
    }
  }

  /** If every node of a non-empty set has a parent inside the set, every node of the set
      is on or below a cycle (pigeonhole on a walk longer than the set). */
  lemma NoSourceTainted(m: Matrix, u: set<nat>, v: nat)
    requires v in u && forall x :: x in u ==> x < |m|
    requires forall x :: x in u ==> ParentsIn(m, u, x) != {}
    ensures Tainted(m, v)
  {
    var w := BackwardWalk(m, u, v, |u|);
    if Distinct(w) {
      DistinctCard(w);
      SubsetCard(Elems(w), u);
      assert false;
    }
  }

  /** The state of Kahn's loop between two pops: `order` is `top_order`, `queue` the FIFO and
      `indeg` the in-degree list; every waiting node has all its parents in `order`. */
  ghost predicate KahnState(m: Matrix, order: seq<nat>, queue: seq<nat>, indeg: seq<int>) {
    IsSquare(m) && |indeg| == |m|
    && Distinct(order + queue)
    && (forall k :: 0 <= k < |order + queue| ==> (order + queue)[k] < |m|)
    && (forall v :: 0 <= v < |m| ==> indeg[v] == |UnvisitedParents(m, order, v)|)
    && (forall v :: 0 <= v < |m| && v !in order ==> (v in queue <==> indeg[v] == 0))
    && ParentsFirst(m, order)
  }

  /** The state inside the neighbour loop after `k` of the children `nb` of the node just
      appended to `order` have been processed. */
  ghost predicate KahnInner(m: Matrix, order: seq<nat>, queue: seq<nat>, indeg: seq<int>,
                            nb: seq<nat>, k: nat) {
    IsSquare(m) && |indeg| == |m| && k <= |nb|
    && Distinct(order + queue) && Distinct(nb)
    && (forall i :: 0 <= i < |order + queue| ==> (order + queue)[i] < |m|)
    && (forall i :: 0 <= i < |nb| ==> nb[i] < |m|)
    && (forall i :: k <= i < |nb| ==> nb[i] !in order)
    && (forall v :: 0 <= v < |m| ==>
          indeg[v] == |UnvisitedParents(m, order, v)| + (if v in nb[k..] then 1 else 0))
    && (forall v :: 0 <= v < |m| && v !in order ==> (v in queue <==> indeg[v] == 0))
    && ParentsFirst(m, order)
  }

  /** The seed: `in_degree` from the matrix and the queue from `zero_loc(in_degree)`. */
  lemma KahnStart(m: Matrix)
    requires IsSquare(m)
    ensures KahnState(m, [], ZeroLoc(InDegrees(m)), InDegrees(m))
  {
    var q := ZeroLoc(InDegrees(m));
    IncreasingDistinct(q);
    InDegreesCountParents(m);
    assert [] + q == q;
    forall v | 0 <= v < |m|
      ensures UnvisitedParents(m, [], v) == ParentSet(m, v)
    {
    }
  }

  lemma UnvisitedAfterVisit(m: Matrix, order: seq<nat>, p: nat, v: nat)
    requires p !in order
    ensures UnvisitedParents(m, order + [p], v) == UnvisitedParents(m, order, v) - {p}
    ensures |UnvisitedParents(m, order, v)|
         == |UnvisitedParents(m, order + [p], v)| + (if Edge(m, p, v) && p < |m| then 1 else 0)
  {
    var before := UnvisitedParents(m, order, v);
    var after := UnvisitedParents(m, order + [p], v);
    assert after == before - {p};
    if Edge(m, p, v) && p < |m| {
      assert p in before;
    } else {
      assert after == before;
    }
  }

  /** Popping the head `P` of the queue and appending it to the order enters the neighbour
      loop over `Child(P)`; no child of `P` is in the order yet. */
  lemma KahnPop(m: Matrix, order: seq<nat>, queue: seq<nat>, indeg: seq<int>)
    requires KahnState(m, order, queue, indeg) && queue != []
    ensures queue[0] < |m|
    ensures KahnInner(m, order + [queue[0]], queue[1..], indeg, Child(m, queue[0]), 0)
  {
    var p := queue[0];
    NotYetVisited(order, queue);
    assert (order + queue)[|order|] == p;
    var order' := order + [p];
    var nb := Child(m, p);
    IncreasingDistinct(nb);
    assert order' + queue[1..] == order + queue;
    assert p !in order;
    forall v | 0 <= v < |m|
      ensures indeg[v] == |UnvisitedParents(m, order', v)| + (if v in nb[0..] then 1 else 0)
    {
      UnvisitedAfterVisit(m, order, p, v);
      assert nb[0..] == nb;
    }
    forall v | 0 <= v < |m| && v !in order'
      ensures v in queue[1..] <==> indeg[v] == 0
    {
      assert v in queue <==> v in queue[1..];
    }
    assert UnvisitedParents(m, order, p) == {} by {
      assert indeg[p] == 0;
    }
    forall k, q | 0 <= k < |order'| && Edge(m, q, order'[k])
      ensures q in order'[..k]
    {
      if k < |order| {
        assert order'[..k] == order[..k];
      } else {
        assert q !in UnvisitedParents(m, order, p);
        assert order'[..k] == order;
      }
    }
    forall i | 0 <= i < |nb|
      ensures nb[i] !in order'
    {
      ChildNotVisited(m, order, queue, indeg, nb[i]);
    }
  }

  lemma ChildNotVisited(m: Matrix, order: seq<nat>, queue: seq<nat>, indeg: seq<int>, v: nat)
    requires KahnState(m, order, queue, indeg) && queue != [] && Edge(m, queue[0], v)
    ensures v !in order + [queue[0]]
  {
    var p := queue[0];
    NotYetVisited(order, queue);
    assert v == p ==> p in UnvisitedParents(m, order, p);
    forall j | 0 <= j < |order|
      ensures order[j] != v
    {
      assert p !in order[..j];
    }
  }

  lemma NotYetVisited(order: seq<nat>, queue: seq<nat>)
    requires Distinct(order + queue) && queue != []
    ensures queue[0] !in order
  {
    forall j | 0 <= j < |order|
      ensures order[j] != queue[0]
    {
      assert (order + queue)[j] == order[j] && (order + queue)[|order|] == queue[0];
    }
  }

  /** One neighbour `ii` of the loop: `in_degree[ii] -= 1`, queued when it reaches zero. */
  lemma KahnRelax(m: Matrix, order: seq<nat>, queue: seq<nat>, indeg: seq<int>, nb: seq<nat>, k: nat)
    requires KahnInner(m, order, queue, indeg, nb, k) && k < |nb|
    ensures var v := nb[k];
            var indeg' := indeg[v := indeg[v] - 1];
            KahnInner(m, order, if indeg'[v] == 0 then queue + [v] else queue, indeg', nb, k + 1)
  {
    var v := nb[k];
    var indeg' := indeg[v := indeg[v] - 1];
    var queue' := if indeg'[v] == 0 then queue + [v] else queue;
    assert v in nb[k..];
    assert v !in queue;
    forall w | 0 <= w < |m|
      ensures indeg'[w] == |UnvisitedParents(m, order, w)| + (if w in nb[k + 1..] then 1 else 0)
    {
      assert w in nb[k..] <==> w == v || w in nb[k + 1..];
      if w == v {
        assert v !in nb[k + 1..];
      }
    }
    if indeg'[v] == 0 {
      assert order + queue' == (order + queue) + [v];
    }
  }

  /** The neighbour loop done: back to the state between two pops. */
  lemma KahnResume(m: Matrix, order: seq<nat>, queue: seq<nat>, indeg: seq<int>, nb: seq<nat>)
    requires KahnInner(m, order, queue, indeg, nb, |nb|)
    ensures KahnState(m, order, queue, indeg)
  {
    assert nb[|nb|..] == [];
  }

  /** When the queue runs dry: the order holds exactly the nodes on no cycle and below no
      cycle, parents first, and it holds every node exactly when the graph is acyclic. */
  lemma KahnDone(m: Matrix, order: seq<nat>, indeg: seq<int>)
    requires KahnState(m, order, [], indeg)
    ensures Distinct(order) && ParentsFirst(m, order)
    ensures forall k :: 0 <= k < |order| ==> order[k] < |m|
    ensures forall v :: 0 <= v < |m| ==> (v in order <==> !Tainted(m, v))
    ensures |order| == |m| <==> Acyclic(m)
  {
    assert order + [] == order;
    var u := set v: nat | v < |m| && v !in order;
    forall x | x in u
      ensures ParentsIn(m, u, x) != {}
    {
      assert indeg[x] != 0;
      var p :| p in UnvisitedParents(m, order, x);
      assert p in ParentsIn(m, u, x);
    }
    forall v | 0 <= v < |m|
      ensures v in order <==> !Tainted(m, v)
    {
      if v in order {
        if Tainted(m, v) {
          var p: seq<nat> :| IsPath(m, p) && p[|p| - 1] == v && !Distinct(p);
          PathIntoOrder(m, order, p);
        }
      } else {
        NoSourceTainted(m, u, v);
      }
    }
    AcyclicIffUntainted(m);
    DistinctBelow(order, |m|);
  }

  /** In an order that holds every node parents first, each edge points forward. */
  lemma EdgesPointForward(m: Matrix, order: seq<nat>, i: nat, j: nat)
    requires Distinct(order) && ParentsFirst(m, order)
    requires i < |order| && j < |order| && Edge(m, order[i], order[j])
    ensures i < j
  {
    assert order[i] in order[..j];
    var i' :| 0 <= i' < j && order[..j][i'] == order[i];
  }
}
