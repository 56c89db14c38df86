/** The `tsBNgen` object: the network configuration, the per-node sample buffers `Node`,
    the topological order, the roles, the phase flag, the loopback dictionaries and the
    generated series `BN_Nodes`, with the methods that update them. */
module Generator {
  import opened Wrappers
  import opened BnTypes
  import opened Keys
  import opened Seqs
  import opened Topology
  import opened MixedRadix
  import opened Validation
  import opened Lag
  import opened Schedule
  import opened Sampling

  /** What `DAG_ordering` leaves in `top_order`: every node at most once, parents first,
      and exactly the nodes that lie on no cycle and below no cycle. */
  ghost predicate OrderComputed(m: Matrix, order: seq<nat>) {
    Distinct(order) && ParentsFirst(m, order) && IdsBelow(order, |m|)
    && forall v: nat :: v < |m| ==> (v in order <==> !Tainted(m, v))
  }

  /** The list `Role_Assignment` builds: one entry per ordered node, 1 at the position of
      every ordered node whose column of `Mat` sums to 0. */
  ghost function RoleVector(m: Matrix, order: seq<nat>): (r: seq<int>)
    requires IsSquare(m)
    ensures |r| == |order|
    ensures forall i :: 0 <= i < |r| ==> r[i] == 0 || r[i] == 1
  {
    seq(|order|, i requires 0 <= i < |order| =>
      if i in order && i < |m| && ColumnSum(m, i) == 0 then 1 else 0)
  }

  /** For an acyclic graph with non-negative weights the roles mark exactly the roots, the
      nodes without a parent, and there are `Roots_length()` of them. */
  lemma RolesMarkRoots(m: Matrix, order: seq<nat>)
    requires IsSquare(m) && NonNegative(m) && Acyclic(m) && OrderComputed(m, order)
    ensures |RoleVector(m, order)| == |m|
    ensures forall i :: 0 <= i < |m| ==> (RoleVector(m, order)[i] == 1 <==> ParentSet(m, i) == {})
    ensures |set i: nat | i < |m| && RoleVector(m, order)[i] == 1| == RootsLength(m)
  {
    OrderHoldsAll(m, order);
    var role := RoleVector(m, order);
    forall i | 0 <= i < |m|
      ensures (role[i] == 1 <==> ParentSet(m, i) == {})
      ensures (role[i] == 1 <==> InDegrees(m)[i] == 0)
    {
      RoleIsRoot(m, order, i);
    }
    RootCount(m, role);
  }

  /** A list marking exactly the zero in-degree nodes has `Roots_length()` marks. */
  lemma RootCount(m: Matrix, role: seq<int>)
    requires IsSquare(m) && |role| == |m|
    requires forall i :: 0 <= i < |m| ==> (role[i] == 1 <==> InDegrees(m)[i] == 0)
    ensures |set i: nat | i < |m| && role[i] == 1| == RootsLength(m)
  {
    var ones := set i: nat | i < |m| && role[i] == 1;
    var zeros := set i: nat | i < |InDegrees(m)| && InDegrees(m)[i] == 0;
    assert ones == zeros;
    ZeroLocCount(InDegrees(m));
  }

  /** On an acyclic graph the order holds every node. */
  lemma OrderHoldsAll(m: Matrix, order: seq<nat>)
    requires IsSquare(m) && Acyclic(m) && OrderComputed(m, order)
    ensures |order| == |m| && forall v: nat :: v < |m| ==> v in order
  {
    AcyclicIffUntainted(m);
    DistinctBelow(order, |m|);
  }

  /** The role of one node of an acyclic graph: 1 exactly when it has no parent. */
  lemma RoleIsRoot(m: Matrix, order: seq<nat>, i: nat)
    requires IsSquare(m) && NonNegative(m) && OrderComputed(m, order)
    requires |order| == |m| && forall v: nat :: v < |m| ==> v in order
    requires i < |m|
    ensures RoleVector(m, order)[i] == 1 <==> ParentSet(m, i) == {}
    ensures RoleVector(m, order)[i] == 1 <==> InDegrees(m)[i] == 0
  {
    ColumnSumZeroIffRoot(m, i);
  }

  /** The loop of `DAG_ordering`: the in-degrees count the non-zero entries of each column,
      the FIFO queue starts with the zero in-degree nodes, and every popped node is
      appended to the order before its children's in-degrees drop. The order ends up
      holding exactly the nodes on no cycle and below no cycle, parents first, and
      `visited_count` equals the node count exactly when the graph is acyclic. */
  method KahnOrder(m: Matrix) returns (order: seq<nat>, visitedCount: nat)
    requires IsSquare(m)
    ensures OrderComputed(m, order)
    ensures visitedCount == |order|
    ensures visitedCount == |m| <==> Acyclic(m)
    ensures visitedCount < |m| <==> exists v :: 0 <= v < |m| && v !in order
  {
    var inDegree := InDegrees(m);
    var queue := ZeroLoc(inDegree);
    visitedCount := 0;
    order := [];
    KahnStart(m);
    while queue != []
      invariant KahnState(m, order, queue, inDegree)
      invariant visitedCount == |order|
      decreases |m| - |order|
    {
      DistinctBelow(order + queue, |m|);
      var p := queue[0];
      KahnPop(m, order, queue, inDegree);
      queue := queue[1..];
      var neighbor := Child(m, p);
      order := order + [p];
      queue, inDegree := ReleaseChildren(m, order, queue, inDegree, neighbor);
      visitedCount := visitedCount + 1;
    }
    KahnDone(m, order, inDegree);
    DistinctBelow(order, |m|);
  }

  /** The neighbour loop of `DAG_ordering`: every child of the node just appended loses
      one in-degree and joins the queue when it reaches zero. */
  method ReleaseChildren(m: Matrix, order: seq<nat>, queue0: seq<nat>, inDegree0: seq<int>,
                         neighbor: seq<nat>) returns (queue: seq<nat>, inDegree: seq<int>)
    requires KahnInner(m, order, queue0, inDegree0, neighbor, 0)
    ensures KahnState(m, order, queue, inDegree)
  {
    queue, inDegree := queue0, inDegree0;
    var k := 0;
    while k < |neighbor|
      invariant KahnInner(m, order, queue, inDegree, neighbor, k)
    {
      KahnRelax(m, order, queue, inDegree, neighbor, k);
      var ii := neighbor[k];
      inDegree := inDegree[ii := inDegree[ii] - 1];
      if inDegree[ii] == 0 {
        queue := queue + [ii];
      }
      k := k + 1;
    }
    KahnResume(m, order, queue, inDegree, neighbor);
  }

  /** The loop over one relation's declared lags: lag `mm` reads `Node[jj][-1 - mm]` for
      an earlier parent and `Node[jj][-1 - (mm - 1)]` otherwise. */
  method ReadLags(buf: seq<Sample>, lags: seq<int>, earlier: bool) returns (r: Result<seq<int>, Error>)
    ensures r == LaggedReads(buf, lags, earlier)
  {
    var read: seq<int> := [];
    var m := 0;
    while m < |lags|
      invariant 0 <= m <= |lags| && |read| == m
      invariant forall k :: 0 <= k < m ==> -|buf| <= LagOffset(lags[k], earlier) < |buf|
      invariant forall k :: 0 <= k < m ==> read[k] == LevelOf(PyIndex(buf, LagOffset(lags[k], earlier)).value)
    {
      var x := PyIndex(buf, LagOffset(lags[m], earlier));
      if x.Failure? {
        return Failure(x.error);
      }
      read := read + [LevelOf(x.value)];
      m := m + 1;
    }
    assert read == LaggedReads(buf, lags, earlier).value;
    r := Success(read);
  }

  /** Every node on no cycle and below no cycle gained `n` samples; every other buffer is
      unchanged in length. */
  ghost predicate GrewBy(m: Matrix, before: seq<seq<Sample>>, after: seq<seq<Sample>>, n: nat) {
    |after| == |before|
    && forall j :: 0 <= j < |before| ==> |after[j]| == |before[j]| + (if Tainted(m, j) then 0 else n)
  }

  lemma GrowStep(m: Matrix, a: seq<seq<Sample>>, b: seq<seq<Sample>>, c: seq<seq<Sample>>, k: nat, n: nat)
    requires GrewBy(m, a, b, k) && GrewBy(m, b, c, n)
    ensures GrewBy(m, a, c, k + n)
  {
  }

  /** A step appends one sample to exactly the nodes on no cycle and below no cycle. */
  lemma StepLengths(m: Matrix, order: seq<nat>, before: seq<seq<Sample>>, after: seq<seq<Sample>>)
    requires OrderComputed(m, order) && |before| == |m| && Appended(before, after, order)
    ensures GrewBy(m, before, after, 1)
  {
    forall j | 0 <= j < |before|
      ensures |after[j]| == |before[j]| + (if Tainted(m, j) then 0 else 1)
    {
      assert j in order <==> !Tainted(m, j);
    }
  }

  /** Two orders `DAG_ordering` may leave hold the same nodes. */
  lemma SameNodes(m: Matrix, o1: seq<nat>, o2: seq<nat>)
    requires OrderComputed(m, o1) && OrderComputed(m, o2)
    ensures forall v :: v in o1 <==> v in o2
  {
    forall v | v in o1
      ensures v in o2
    {
      var k :| 0 <= k < |o1| && o1[k] == v;
    }
  }

  /** `BN_Nodes` after `count` series of `len` steps each: node `j`'s entry lists one buffer
      per series, holding `len` samples when the node is on no cycle and below no cycle and
      none otherwise; the first series also holds what the buffers held before. */
  ghost predicate SeriesStored(m: Matrix, first: seq<seq<Sample>>, store: seq<seq<seq<Sample>>>,
                               count: nat, len: nat) {
    SeriesUpTo(m, first, store, count, count, len)
  }

  /** The first `done` of `count` series are stored. */
  ghost predicate SeriesUpTo(m: Matrix, first: seq<seq<Sample>>, store: seq<seq<seq<Sample>>>,
                             count: nat, done: nat, len: nat) {
    |store| == |first| && done <= count
    && (forall j :: 0 <= j < |store| ==> |store[j]| == count)
    && forall j, i :: 0 <= j < |store| && 0 <= i < done ==>
         |store[j][i]| == (if i == 0 then |first[j]| else 0) + (if Tainted(m, j) then 0 else len)
  }

  /** The buffers between series: as they came for the first series, empty after a store. */
  ghost predicate SeriesBuffers(first: seq<seq<Sample>>, cur: seq<seq<Sample>>, done: nat) {
    |cur| == |first|
    && (done == 0 ==> cur == first)
    && (done > 0 ==> forall j :: 0 <= j < |cur| ==> cur[j] == [])
  }

  /** Generating one more series of `len` steps and storing it at position `done` extends
      the stored prefix by one series and empties the buffers. */
  lemma SeriesAdvance(m: Matrix, first: seq<seq<Sample>>, store: seq<seq<seq<Sample>>>,
                      cur: seq<seq<Sample>>, grown: seq<seq<Sample>>,
                      store': seq<seq<seq<Sample>>>, cur': seq<seq<Sample>>,
                      count: nat, done: nat, len: nat)
    requires SeriesUpTo(m, first, store, count, done, len) && SeriesBuffers(first, cur, done)
    requires done < count && GrewBy(m, cur, grown, len)
    requires |store'| == |store| == |cur'|
    requires forall j :: 0 <= j < |store| ==> store'[j] == store[j][done := grown[j]] && cur'[j] == []
    ensures SeriesUpTo(m, first, store', count, done + 1, len) && SeriesBuffers(first, cur', done + 1)
  {
  }

  /** With `1 <= switch <= T`, an acyclic graph and buffers empty before the first series,
      every series `BN_sample_gen_loopback` stores holds exactly `T` samples of every node. */
  lemma SeriesOfLengthT(m: Matrix, first: seq<seq<Sample>>, store: seq<seq<seq<Sample>>>,
                        count: nat, T: int, switch: int)
    requires IsSquare(m) && Acyclic(m) && 1 <= switch <= T && |first| == |m|
    requires forall j :: 0 <= j < |first| ==> first[j] == []
    requires SeriesStored(m, first, store, count, |GenSchedule(T, switch)|)
    ensures forall j, i :: 0 <= j < |store| && 0 <= i < count ==> |store[j][i]| == T
  {
    GenScheduleMatchesPhases(T, switch);
    AcyclicIffUntainted(m);
  }

  /** What `BFS` keeps while its queue is not empty: `child` starts with `Row`, holds
      distinct nodes reachable from `Row`, the queue holds reachable nodes, and every edge
      out of a visited node leads to a visited or a queued node. */
  ghost predicate BfsInvariant(m: Matrix, row: nat, child: seq<nat>, queue: seq<nat>) {
    IsSquare(m)
    && |child| >= 1 && child[0] == row
    && Distinct(child) && IdsBelow(child, |m|) && IdsBelow(queue, |m|)
    && (forall v :: v in child ==> Reachable(m, row, v))
    && (forall v :: v in queue ==> Reachable(m, row, v))
    && forall k, w :: 0 <= k < |child| && Edge(m, child[k], w) ==> w in child || w in queue
  }

  /** One turn of `BFS`: popping the queue's head, and visiting it when it is new, keeps
      the invariant. */
  lemma BfsPop(m: Matrix, row: nat, child: seq<nat>, queue: seq<nat>)
    requires BfsInvariant(m, row, child, queue) && queue != []
    ensures queue[0] in child ==> BfsInvariant(m, row, child, queue[1..])
    ensures queue[0] !in child ==>
              BfsInvariant(m, row, child + [queue[0]], queue[1..] + Child(m, queue[0]))
  {
    var vertex := queue[0];
    assert forall w :: w in queue ==> w == vertex || w in queue[1..];
    if vertex !in child {
      var next := Child(m, vertex);
      var child1 := child + [vertex];
      var queue1 := queue[1..] + next;
      forall v | v in next
        ensures Reachable(m, row, v)
      {
        ReachStep(m, row, vertex, v);
      }
      forall k, w | 0 <= k < |child1| && Edge(m, child1[k], w)
        ensures w in child1 || w in queue1
      {
        if k < |child| {
          assert child1[k] == child[k];
        } else {
          assert w in next;
        }
      }
      assert Distinct(child1) by {
        forall a, b | 0 <= a < b < |child1|
          ensures child1[a] != child1[b]
        {
          if b == |child| {
            assert child1[a] == child[a];
          }
        }
      }
    }
  }

  class TsBNgen {
    const net: Network
    /** `T`, the length of each series. */
    const seriesLength: int
    /** `N`, the number of series. */
    const seriesCount: int
    const customTime: int
    var loopbacks: Loopbacks
    var loopbacks2: Loopbacks
    /** `Node`: the sample buffer of every node in the current series. */
    var node: seq<seq<Sample>>
    var topOrder: seq<nat>
    /** Whether `DAG_ordering` has run, so that `top_order` exists. */
    var ordered: bool
    var role: seq<int>
    var flag: PhaseTag
    var allParents: seq<int>
    var parentNLevel: seq<int>
    var levelMultiply: seq<int>
    /** `BN_Nodes`: entry `j` holds node `j`'s buffer of every series. */
    var bnNodes: seq<seq<seq<Sample>>>
    /** The phases served so far, one per step. */
    ghost var trace: seq<PhaseTag>

    ghost predicate Valid()
      reads this`node, this`topOrder, this`ordered, this`bnNodes
    {
      NetworkValid(net) && Typed(net.nodeType, node)
      && Distinct(topOrder) && IdsBelow(topOrder, |net.mat|)
      && (ordered ==> OrderComputed(net.mat, topOrder))
      && |bnNodes| <= |net.mat|
      && forall j, i :: 0 <= j < |bnNodes| && 0 <= i < |bnNodes[j]| ==>
           TypedBuffer(net.nodeType[j], bnNodes[j][i])
    }

    /** The constructor: one empty buffer per node; `CPD3`, `Parent3` and `loopbacks2`
        default to empty dictionaries (the network and `loopbacks2` arrive with those
        defaults filled in). */
    constructor (net: Network, seriesLength: int, seriesCount: int, loopbacks: Loopbacks,
                 loopbacks2: Loopbacks, customTime: int)
      requires NetworkValid(net)
      ensures Valid()
      ensures this.net == net && this.seriesLength == seriesLength
      ensures this.seriesCount == seriesCount && this.customTime == customTime
      ensures this.loopbacks == loopbacks && this.loopbacks2 == loopbacks2
      ensures node == seq(|net.mat|, _ => []) && flag == Initial
      ensures !ordered && topOrder == [] && role == [] && bnNodes == [] && trace == []
    {
      this.net := net;
      this.seriesLength := seriesLength;
      this.seriesCount := seriesCount;
      this.customTime := customTime;
      this.loopbacks := loopbacks;
      this.loopbacks2 := loopbacks2;
      node := seq(|net.mat|, _ => []);
      topOrder := [];
      ordered := false;
      role := [];
      flag := Initial;
      allParents := [];
      parentNLevel := [];
      levelMultiply := [];
      bnNodes := [];
      trace := [];
    }

    /** `DAG_ordering`: recomputes `top_order` by Kahn's algorithm; `visited_count` falls
        short of the node count exactly when the graph has a cycle (the source then only
        prints a message). */
    method DagOrdering() returns (visitedCount: nat)
      requires Valid()
      modifies this`topOrder, this`ordered
      ensures Valid() && ordered
      ensures OrderComputed(net.mat, topOrder)
      ensures visitedCount == |topOrder|
      ensures visitedCount == |net.mat| <==> Acyclic(net.mat)
      ensures visitedCount < |net.mat| <==> exists v :: 0 <= v < |net.mat| && v !in topOrder
    {
      topOrder, visitedCount := KahnOrder(net.mat);
      ordered := true;
    }

    /** `BFS(Row)`: breadth-first search from `Row` with a FIFO queue; the result starts
        with `Row` and holds every node reachable from it exactly once. */
    method Bfs(row: nat) returns (child: seq<nat>)
      requires IsSquare(net.mat) && row < |net.mat|
      ensures |child| >= 1 && child[0] == row
      ensures Distinct(child) && IdsBelow(child, |net.mat|)
      ensures forall v: nat :: v in child <==> Reachable(net.mat, row, v)
    {
      var m := net.mat;
      child := [row];
      var queue := Child(m, row);
      ReachSelf(m, row);
      forall v | v in queue
        ensures Reachable(m, row, v)
      {
        ReachStep(m, row, row, v);
      }
      while queue != []
        invariant BfsInvariant(m, row, child, queue)
        decreases |m| - |child|, |queue|
      {
        DistinctBelow(child, |m|);
        BfsPop(m, row, child, queue);
        var vertex := queue[0];
        queue := queue[1..];
        if vertex !in child {
          child := child + [vertex];
          queue := queue + Child(m, vertex);
          DistinctBelow(child, |m|);
        }
      }
      assert Closed(m, child);
      forall v: nat | Reachable(m, row, v)
        ensures v in child
      {
        ClosedHoldsReachable(m, child, row, v);
      }
    }

    /** `Role_Assignment`: a list of zeros as long as the order, then a 1 for every
        ordered node whose column sums to zero; an IndexError when such a node's id is
        not below the order's length (possible only when a cycle shortened the order). */
    method RoleAssignment() returns (out: Outcome<Error>)
      requires Valid()
      modifies this`role
      ensures out.Pass? <==> forall k :: 0 <= k < |topOrder| && ColumnSum(net.mat, topOrder[k]) == 0 ==>
                               topOrder[k] < |topOrder|
      ensures out.Fail? ==> out.error == IndexOutOfRange
      ensures out.Pass? ==> role == RoleVector(net.mat, topOrder)
    {
      var m := net.mat;
      role := seq(|topOrder|, _ => 0);
      var k := 0;
      while k < |topOrder|
        invariant 0 <= k <= |topOrder| && |role| == |topOrder|
        invariant forall j :: 0 <= j < k && ColumnSum(m, topOrder[j]) == 0 ==> topOrder[j] < |topOrder|
        invariant forall i :: 0 <= i < |role| ==>
                    role[i] == if i in topOrder[..k] && i < |m| && ColumnSum(m, i) == 0 then 1 else 0
      {
        var ii := topOrder[k];
        if ColumnSum(m, ii) == 0 {
          if ii >= |role| {
            out := Fail(IndexOutOfRange);
            return;
          }
          role := role[ii := 1];
        }
        assert topOrder[..k + 1] == topOrder[..k] + [ii];
        k := k + 1;
      }
      assert topOrder[..k] == topOrder;
      out := Pass;
    }

    /** `Multinomial_Select(index1, index2, ii)`: draws once from the distribution the phase
        selects and returns the 1-based position of the drawn category. */
    method MultinomialSelect(key: string, index: int, ii: nat) returns (r: Result<int, Error>)
      ensures var src := DrawSource(net, flag, role, key, index, ii);
              (r.Success? <==> src.Success? && src.value != [])
              && (src.Failure? ==> r == Failure(src.error))
              && (src.Success? && src.value == [] ==> r == Failure(EmptyDistribution))
              && (r.Success? ==> 1 <= r.value <= |src.value|)
    {
      var dist :- DrawSource(net, flag, role, key, index, ii);
      if dist == [] {
        return Failure(EmptyDistribution);
      }
      ghost var single := seq(|dist|, j => if j == 0 then 1 else 0);
      assert single[0] == 1;
      assert OneHot(single, |dist|);
      var num: seq<int> :| OneHot(num, |dist|);
      assert OneHot(num, |dist|);
      assert |num| == |dist|;
      ghost var hot :| 0 <= hot < |dist| && num[hot] == 1;
      assert num[hot] in num;
      var pos := IndexOf(num, 1);
      r := Success(pos.value + 1);
    }

    /** The loopback dictionary of the phase `flag` selects: `loopbacks2` for the
        secondary phase, `loopbacks` otherwise. */
    function Live(): Loopbacks
      reads this`flag, this`loopbacks, this`loopbacks2
    {
      if flag == Secondary then loopbacks2 else loopbacks
    }

    /** The initial phase's parent loop: `all_parents` gets `Node[jj][-1]` and
        `parent_N_level` gets `N_level[jj]` for every listed parent. */
    method LatestParents(ps: seq<nat>) returns (r: Result<Context, Error>)
      requires Valid() && IdsBelow(ps, |net.mat|)
      ensures ParentsInRange(ps, node, net.nLevel)
      ensures r == LatestLevels(ps, node, net.nLevel)
    {
      var values: seq<int> := [];
      var levels: seq<int> := [];
      var k := 0;
      while k < |ps|
        invariant 0 <= k <= |ps| && |values| == |levels| == k
        invariant forall i :: 0 <= i < k ==> node[ps[i]] != []
        invariant forall i :: 0 <= i < k ==>
                    values[i] == LevelOf(node[ps[i]][|node[ps[i]]| - 1]) && levels[i] == net.nLevel[ps[i]]
      {
        var jj := ps[k];
        var x := PyIndex(node[jj], -1);
        if x.Failure? {
          return Failure(x.error);
        }
        values := values + [LevelOf(x.value)];
        levels := levels + [net.nLevel[jj]];
        k := k + 1;
      }
      assert Context(values, levels) == LatestLevels(ps, node, net.nLevel).value;
      r := Success(Context(values, levels));
    }

    /** One turn of the recurring phases' parent loop, for the parent `jj` of the node `ii`
        at position `pos`: a relation with a loopback entry reads one sample per declared lag
        and has its entry deleted from the live dictionary; one without reads the latest
        sample, or nothing for a self-parent. */
    method ConsumeParent(jj: nat, ii: nat, pos: nat) returns (r: Result<seq<int>, Error>)
      requires Valid() && jj < |node|
      modifies this`loopbacks, this`loopbacks2
      ensures Valid()
      ensures var c := Contribution(jj, ii, pos, topOrder, old(Live()), node[jj]);
              (r.Success? <==> c.Success?)
              && (r.Failure? ==> r.error == c.error)
              && (r.Success? ==> r.value == c.value.0 && Live() == c.value.1)
      ensures flag == Secondary ==> loopbacks == old(loopbacks)
      ensures flag != Secondary ==> loopbacks2 == old(loopbacks2)
    {
      var key := LoopbackKey(jj, ii);
      if key in Live() {
        var at := IndexOf(topOrder, jj);
        if at.None? {
          return Failure(NotInOrder);
        }
        r := ReadLags(node[jj], Live()[key], at.value < pos);
        if r.Success? {
          if flag == Secondary {
            loopbacks2 := loopbacks2 - {key};
          } else {
            loopbacks := loopbacks - {key};
          }
        }
      } else if jj != ii {
        var x := PyIndex(node[jj], -1);
        if x.Failure? {
          return Failure(x.error);
        }
        r := Success([LevelOf(x.value)]);
      } else {
        r := Success([]);
      }
    }

    /** Makes `lb` the live dictionary of the current phase. */
    method SetLive(lb: Loopbacks)
      modifies this`loopbacks, this`loopbacks2
      ensures Live() == lb
      ensures flag == Secondary ==> loopbacks == old(loopbacks)
      ensures flag != Secondary ==> loopbacks2 == old(loopbacks2)
    {
      if flag == Secondary {
        loopbacks2 := lb;
      } else {
        loopbacks := lb;
      }
    }

    /** One parent of the recurring phases' loop: its contribution, and with `each` the
        dictionary restored to `saved` right after it. */
    method ParentTurn(jj: nat, ii: nat, pos: nat, each: bool, saved: Loopbacks) returns (r: Result<seq<int>, Error>)
      requires Valid() && jj < |node| && (each ==> Live() == saved)
      modifies this`loopbacks, this`loopbacks2
      ensures Valid()
      ensures var c := Contribution(jj, ii, pos, topOrder, old(Live()), node[jj]);
              (r.Success? <==> c.Success?)
              && (r.Failure? ==> r.error == c.error)
              && (r.Success? ==> r.value == c.value.0 && Live() == if each then saved else c.value.1)
      ensures flag == Secondary ==> loopbacks == old(loopbacks)
      ensures flag != Secondary ==> loopbacks2 == old(loopbacks2)
    {
      r := ConsumeParent(jj, ii, pos);
      if r.Success? && each {
        SetLive(saved);
      }
    }

    /** The recurring phases' parent loop over `ps` for the node `ii` at position `pos`;
        every parent adds its level count. With `each` the dictionary is restored after
        every parent, as the second branch of `BN_sample` does; otherwise the caller
        restores it after the loop. */
    method CollectParents(ps: seq<nat>, ii: nat, pos: nat, each: bool) returns (r: Result<Context, Error>)
      requires Valid() && IdsBelow(ps, |net.mat|)
      modifies this`loopbacks, this`loopbacks2
      ensures Valid()
      ensures ParentsInRange(ps, node, net.nLevel)
      ensures var spec := ResolveMode(each, ps, ii, pos, topOrder, old(Live()), node, net.nLevel);
              (r.Success? <==> spec.Success?)
              && (r.Failure? ==> r.error == spec.error)
              && (r.Success? ==> r.value == Context(spec.value.values, spec.value.levels)
                                 && Live() == spec.value.remaining)
      ensures flag == Secondary ==> loopbacks == old(loopbacks)
      ensures flag != Secondary ==> loopbacks2 == old(loopbacks2)
    {
      ghost var whole := ResolveMode(each, ps, ii, pos, topOrder, Live(), node, net.nLevel);
      var saved := Live();
      var values: seq<int> := [];
      var levels: seq<int> := [];
      var k := 0;
      assert ps[0..] == ps;
      ExtendEmpty(whole);
      while k < |ps|
        invariant 0 <= k <= |ps| && Valid()
        invariant flag == Secondary ==> loopbacks == old(loopbacks)
        invariant flag != Secondary ==> loopbacks2 == old(loopbacks2)
        invariant each ==> Live() == saved
        invariant ParentsInRange(ps[k..], node, net.nLevel)
        invariant whole == Extend(values, levels, ResolveMode(each, ps[k..], ii, pos, topOrder, Live(), node, net.nLevel))
      {
        ghost var lb := Live();
        ResolveModeStep(each, ps, k, ii, pos, topOrder, lb, node, net.nLevel);
        var jj := ps[k];
        var added :- ParentTurn(jj, ii, pos, each, saved);
        ExtendAssoc(values, levels, added, [net.nLevel[jj]],
                    ResolveMode(each, ps[k + 1..], ii, pos, topOrder, Live(), node, net.nLevel));
        values := values + added;
        levels := levels + [net.nLevel[jj]];
        k := k + 1;
      }
      assert ps[k..] == [] && values + [] == values && levels + [] == levels;
      r := Success(Context(values, levels));
    }

    /** Appends the drawn sample `x` to node `ii`'s buffer (`Node[ii].append`/`extend`). */
    method Store(ii: nat, x: Sample)
      requires Valid() && ii < |node|
      requires (x.Level? <==> net.nodeType[ii] == Discrete) && (x.Level? ==> x.level >= 1)
      modifies this`node
      ensures Valid()
      ensures node == old(node)[ii := old(node)[ii] + [x]]
    {
      node := node[ii := node[ii] + [x]];
    }

    /** The draw of node `ii`: `Multinomial_Select(key, index, ii)` for a discrete node,
        giving its 1-based category as a level, and `Gaussian_select` for a continuous one;
        the distribution the phase selects is the one `row` names. */
    method DrawSample(key: string, index: int, ii: nat, row: bool, ghost ctx: Option<Context>)
      returns (r: Result<Sample, Error>)
      requires ii < |net.nodeType|
      requires net.nodeType[ii] == Discrete ==>
                 DrawSource(net, flag, role, key, index, ii)
                   == SelectDistribution(PhaseOf(net, flag).cpd, key, index, row)
      ensures var c := Conclude(PhaseOf(net, flag).cpd, key, net.nodeType[ii] == Discrete, index, row, ctx);
              (r.Success? <==> c.Success? && Drawable(c.value.draw))
              && (c.Failure? ==> r == Failure(c.error))
              && (c.Success? && !Drawable(c.value.draw) ==> r == Failure(EmptyDistribution))
              && (r.Success? ==> Admits(c.value.draw, r.value)
                                 && (r.value.Level? <==> net.nodeType[ii] == Discrete)
                                 && (r.value.Level? ==> r.value.level >= 1))
    {
      if net.nodeType[ii] == Discrete {
        var lvl :- MultinomialSelect(key, index, ii);
        r := Success(Level(lvl));
      } else {
        var x := GaussianSelect();
        r := Success(x);
      }
    }

    /** The end of a node step: the sample is drawn as `Conclude` prescribes and appended
        to the node's buffer; a failed draw leaves the buffers alone. */
    method DrawAndStore(key: string, index: int, ii: nat, row: bool, ghost ctx: Option<Context>)
      returns (out: Outcome<Error>)
      requires Valid() && ii < |net.mat|
      requires net.nodeType[ii] == Discrete ==>
                 DrawSource(net, flag, role, key, index, ii)
                   == SelectDistribution(PhaseOf(net, flag).cpd, key, index, row)
      modifies this`node
      ensures Valid()
      ensures NodeStep(Conclude(PhaseOf(net, flag).cpd, key, net.nodeType[ii] == Discrete, index, row, ctx),
                       out, old(node), node, ii)
    {
      var x := DrawSample(key, index, ii, row, ctx);
      if x.Failure? {
        return Fail(x.error);
      }
      Store(ii, x.value);
      out := Pass;
    }

    /** One node step of `Initial_sample` for the node at position `pos` of the order:
        the parent list is looked up, the conditioning is resolved by `InitialContext` and
        the node draws its sample. */
    method InitialNode(pos: nat) returns (out: Outcome<Error>)
      requires Valid() && flag == Initial && pos < |topOrder|
      requires NodeValid(net.nodeType, net.initial.parents, topOrder[pos])
      modifies this`node, this`allParents, this`parentNLevel, this`levelMultiply
      ensures Valid()
      ensures var p := Prepare(net, flag, role, topOrder, pos, Live(), old(node));
              NodeStep(p, out, old(node), node, topOrder[pos])
              && (out.Pass? && p.value.context.Some? ==>
                    allParents == p.value.context.value.values
                    && parentNLevel == p.value.context.value.levels
                    && levelMultiply == Multipliers(parentNLevel))
    {
      var ii := topOrder[pos];
      var psr := ParentsOf(net.initial, ii);
      if psr.Failure? {
        return Fail(psr.error);
      }
      var ps := psr.value;
      assert IdsBelow(ps, |net.mat|);
      var ctx, index, row := InitialContext(ii, ps);
      if ctx.Failure? {
        return Fail(ctx.error);
      }
      out := DrawAndStore(KeyOf(ps, ii), index, ii, row, ctx.value);
    }

    /** The conditioning of the initial step of node `ii` with parents `ps`: none for a
        root, and an IndexError when `Role` has no entry for the node; any other node
        continues in `InitialParents`. The step then ends as `Conclude` says. */
    method InitialContext(ii: nat, ps: seq<nat>)
      returns (ctx: Result<Option<Context>, Error>, index: int, row: bool)
      requires Valid() && flag == Initial && ii < |net.mat| && IdsBelow(ps, |net.mat|)
      requires NodeValid(net.nodeType, net.initial.parents, ii)
      requires ParentsOf(net.initial, ii) == Success(ps)
      modifies this`allParents, this`parentNLevel, this`levelMultiply
      ensures var p := PrepareInitial(net, role, ii, ps, node);
              (ctx.Failure? ==> p == Failure(ctx.error))
              && (ctx.Success? ==>
                    p == Conclude(net.initial.cpd, KeyOf(ps, ii), net.nodeType[ii] == Discrete,
                                  index, row, ctx.value)
                    && (net.nodeType[ii] == Discrete ==>
                          DrawSource(net, flag, role, KeyOf(ps, ii), index, ii)
                            == SelectDistribution(net.initial.cpd, KeyOf(ps, ii), index, row))
                    && (ctx.value.Some? ==>
                          allParents == ctx.value.value.values
                          && parentNLevel == ctx.value.value.levels
                          && levelMultiply == Multipliers(parentNLevel)))
    {
      var rr := PyIndex(role, ii);
      if rr.Failure? {
        return Failure(rr.error), 0, false;
      }
      row := rr.value != 1;
      if row {
        ctx, index := InitialParents(ii, ps);
      } else {
        ctx, index := Success(None), 0;
      }
    }

    /** The initial step of a node that is not a root: the latest samples of its discrete
        parents (all of them when every parent is discrete) are stored in `all_parents`
        and `parent_N_level`, and `continous_cpd` gives the row; a node without discrete
        parents builds no context. */
    method InitialParents(ii: nat, ps: seq<nat>) returns (ctx: Result<Option<Context>, Error>, index: int)
      requires Valid() && ii < |net.mat| && IdsBelow(ps, |net.mat|)
      requires NatToStr(ii) in net.initial.parents && ps == net.initial.parents[NatToStr(ii)]
      requires NodeValid(net.nodeType, net.initial.parents, ii)
      requires PyIndex(role, ii).Success? && role[ii] != 1
      modifies this`allParents, this`parentNLevel, this`levelMultiply
      ensures var p := PrepareInitial(net, role, ii, ps, node);
              (ctx.Failure? ==> p == Failure(ctx.error))
              && (ctx.Success? ==>
                    p == Conclude(net.initial.cpd, KeyOf(ps, ii), net.nodeType[ii] == Discrete,
                                  index, true, ctx.value)
                    && (ctx.value.Some? ==>
                          allParents == ctx.value.value.values
                          && parentNLevel == ctx.value.value.levels
                          && levelMultiply == Multipliers(parentNLevel)))
    {
      var types := net.nodeType;
      assert !AllDiscrete(types, ps) ==> types[ii] == Continuous;
      if AllDiscrete(types, ps) {
        ctx, index := LatestContext(ps);
      } else if AnyDiscrete(types, ps) {
        ctx, index := LatestContext(DiscreteParents(types, ps));
      } else {
        ctx, index := Success(None), 0;
      }
    }

    /** The latest samples of the parents `ps` go to `all_parents` and their level counts
        to `parent_N_level`; `continous_cpd` gives the row. */
    method LatestContext(ps: seq<nat>) returns (ctx: Result<Option<Context>, Error>, index: int)
      requires Valid() && IdsBelow(ps, |net.mat|)
      modifies this`allParents, this`parentNLevel, this`levelMultiply
      ensures ParentsInRange(ps, node, net.nLevel)
      ensures var c := LatestLevels(ps, node, net.nLevel);
              (ctx.Failure? <==> c.Failure?)
              && (ctx.Failure? ==> ctx.error == c.error)
              && (ctx.Success? ==>
                    ctx.value == Some(c.value) && index == CompositeIndex(c.value.values, c.value.levels)
                    && allParents == c.value.values && parentNLevel == c.value.levels
                    && levelMultiply == Multipliers(parentNLevel))
    {
      var c := LatestParents(ps);
      if c.Failure? {
        return Failure(c.error), 0;
      }
      index := RecordContext(c.value);
      ctx := Success(Some(c.value));
    }

    /** One node step of `BN_sample` (`flag` recurring) or `BN_sample_loopback` (`flag`
        secondary) for the node at position `pos` of the order: the parent list is looked
        up, the discrete parents are resolved by `RecurringContext` and the node draws its
        sample. A completed step leaves both loopback dictionaries as they were. */
    method RecurringNode(pos: nat) returns (out: Outcome<Error>)
      requires Valid() && flag != Initial && pos < |topOrder|
      requires NodeValid(net.nodeType, PhaseOf(net, flag).parents, topOrder[pos])
      modifies this`node, this`loopbacks, this`loopbacks2, this`allParents, this`parentNLevel,
               this`levelMultiply
      ensures Valid()
      ensures var p := Prepare(net, flag, role, topOrder, pos, old(Live()), old(node));
              NodeStep(p, out, old(node), node, topOrder[pos])
              && (out.Pass? && p.value.context.Some? ==>
                    allParents == p.value.context.value.values
                    && parentNLevel == p.value.context.value.levels
                    && levelMultiply == Multipliers(parentNLevel))
      ensures out.Pass? ==> loopbacks == old(loopbacks) && loopbacks2 == old(loopbacks2)
      ensures flag == Secondary ==> loopbacks == old(loopbacks)
      ensures flag != Secondary ==> loopbacks2 == old(loopbacks2)
    {
      var ii := topOrder[pos];
      var psr := ParentsOf(PhaseOf(net, flag), ii);
      if psr.Failure? {
        return Fail(psr.error);
      }
      var ps := psr.value;
      assert IdsBelow(ps, |net.mat|);
      var ctx, index := RecurringContext(pos, ps);
      if ctx.Failure? {
        return Fail(ctx.error);
      }
      out := DrawAndStore(KeyOf(ps, ii), index, ii, |ps| != 0, ctx.value);
    }

    /** The conditioning of a recurring step of the node at position `pos` with parents
        `ps`: the discrete parents (all of them when every parent is discrete) are
        resolved through the live loopback dictionary, which is restored afterwards; their
        values and level counts are stored in `all_parents` and `parent_N_level` and
        `continous_cpd` gives the row. A node without discrete parents builds no context.
        The step then ends as `Conclude` says. */
    method RecurringContext(pos: nat, ps: seq<nat>) returns (ctx: Result<Option<Context>, Error>, index: int)
      requires Valid() && flag != Initial && pos < |topOrder| && IdsBelow(ps, |net.mat|)
      requires ParentsOf(PhaseOf(net, flag), topOrder[pos]) == Success(ps)
      requires NodeValid(net.nodeType, PhaseOf(net, flag).parents, topOrder[pos])
      modifies this`loopbacks, this`loopbacks2, this`allParents, this`parentNLevel, this`levelMultiply
      ensures Valid()
      ensures var ii := topOrder[pos];
              var p := PrepareRecurring(net, flag, topOrder, pos, old(Live()), ps, node);
              (ctx.Failure? ==> p == Failure(ctx.error))
              && (ctx.Success? ==>
                    p == Conclude(PhaseOf(net, flag).cpd, KeyOf(ps, ii), net.nodeType[ii] == Discrete,
                                  index, |ps| != 0, ctx.value)
                    && loopbacks == old(loopbacks) && loopbacks2 == old(loopbacks2)
                    && (ctx.value.Some? ==>
                          allParents == ctx.value.value.values
                          && parentNLevel == ctx.value.value.levels
                          && levelMultiply == Multipliers(parentNLevel)))
      ensures flag == Secondary ==> loopbacks == old(loopbacks)
      ensures flag != Secondary ==> loopbacks2 == old(loopbacks2)
    {
      var types := net.nodeType;
      assert !AllDiscrete(types, ps) ==> types[topOrder[pos]] == Continuous;
      if AllDiscrete(types, ps) {
        ctx, index := DiscreteParentsContext(pos, ps);
      } else if AnyDiscrete(types, ps) {
        ctx, index := MixedParentsContext(pos, ps);
      } else {
        ctx, index := Success(None), 0;
      }
    }

    /** `CollectParents` followed by the restore of the live dictionary from the copy
        taken before the loop. */
    method RestoredParents(ps: seq<nat>, ii: nat, pos: nat, each: bool) returns (r: Result<Context, Error>)
      requires Valid() && IdsBelow(ps, |net.mat|)
      modifies this`loopbacks, this`loopbacks2
      ensures Valid()
      ensures ParentsInRange(ps, node, net.nLevel)
      ensures var spec := ResolveMode(each, ps, ii, pos, topOrder, old(Live()), node, net.nLevel);
              (r.Success? <==> spec.Success?)
              && (r.Failure? ==> r.error == spec.error)
              && (r.Success? ==> r.value == Context(spec.value.values, spec.value.levels)
                                 && loopbacks == old(loopbacks) && loopbacks2 == old(loopbacks2))
      ensures flag == Secondary ==> loopbacks == old(loopbacks)
      ensures flag != Secondary ==> loopbacks2 == old(loopbacks2)
    {
      var saved := Live();
      r := CollectParents(ps, ii, pos, each);
      if r.Success? {
        SetLive(saved);
      }
    }

    /** `all_parents` and `parent_N_level` take the resolved context and `continous_cpd`
        gives its composite index. */
    method RecordContext(c: Context) returns (index: int)
      modifies this`allParents, this`parentNLevel, this`levelMultiply
      ensures allParents == c.values && parentNLevel == c.levels
      ensures levelMultiply == Multipliers(parentNLevel)
      ensures index == CompositeIndex(c.values, c.levels)
    {
      allParents, parentNLevel := c.values, c.levels;
      index := ContinousCpd();
    }

    /** A node whose parents are all discrete: they are resolved through the live loopback
        dictionary, restored after the loop; the context goes to `all_parents` and
        `parent_N_level` and `continous_cpd` gives the row. */
    method DiscreteParentsContext(pos: nat, ps: seq<nat>) returns (ctx: Result<Option<Context>, Error>, index: int)
      requires Valid() && flag != Initial && pos < |topOrder| && IdsBelow(ps, |net.mat|)
      requires AllDiscrete(net.nodeType, ps)
      modifies this`loopbacks, this`loopbacks2, this`allParents, this`parentNLevel, this`levelMultiply
      ensures Valid()
      ensures var ii := topOrder[pos];
              var p := PrepareAllDiscrete(net, flag, topOrder, pos, old(Live()), ps, node);
              (ctx.Failure? ==> p == Failure(ctx.error))
              && (ctx.Success? ==>
                    p == Conclude(PhaseOf(net, flag).cpd, KeyOf(ps, ii), net.nodeType[ii] == Discrete,
                                  index, |ps| != 0, ctx.value)
                    && loopbacks == old(loopbacks) && loopbacks2 == old(loopbacks2)
                    && ctx.value.Some?
                    && allParents == ctx.value.value.values
                    && parentNLevel == ctx.value.value.levels
                    && levelMultiply == Multipliers(parentNLevel))
      ensures flag == Secondary ==> loopbacks == old(loopbacks)
      ensures flag != Secondary ==> loopbacks2 == old(loopbacks2)
    {
      var c := RestoredParents(ps, topOrder[pos], pos, false);
      if c.Failure? {
        return Failure(c.error), 0;
      }
      index := RecordContext(c.value);
      ctx := Success(Some(c.value));
    }

    /** A continuous node with some discrete parents: those are resolved through the live
        loopback dictionary, restored after every parent by `BN_sample` and after the loop
        by `BN_sample_loopback`; the context goes to `all_parents` and `parent_N_level` and
        `continous_cpd` gives the row of the regression coefficients. */
    method MixedParentsContext(pos: nat, ps: seq<nat>) returns (ctx: Result<Option<Context>, Error>, index: int)
      requires Valid() && flag != Initial && pos < |topOrder| && IdsBelow(ps, |net.mat|)
      requires !AllDiscrete(net.nodeType, ps) && AnyDiscrete(net.nodeType, ps)
      requires net.nodeType[topOrder[pos]] == Continuous
      modifies this`loopbacks, this`loopbacks2, this`allParents, this`parentNLevel, this`levelMultiply
      ensures Valid()
      ensures var ii := topOrder[pos];
              var p := PrepareMixed(net, flag, topOrder, pos, old(Live()), ps, node);
              (ctx.Failure? ==> p == Failure(ctx.error))
              && (ctx.Success? ==>
                    p == Conclude(PhaseOf(net, flag).cpd, KeyOf(ps, ii), false, index, |ps| != 0, ctx.value)
                    && loopbacks == old(loopbacks) && loopbacks2 == old(loopbacks2)
                    && ctx.value.Some?
                    && allParents == ctx.value.value.values
                    && parentNLevel == ctx.value.value.levels
                    && levelMultiply == Multipliers(parentNLevel))
      ensures flag == Secondary ==> loopbacks == old(loopbacks)
      ensures flag != Secondary ==> loopbacks2 == old(loopbacks2)
    {
      var c := RestoredParents(DiscreteParents(net.nodeType, ps), topOrder[pos], pos, flag == Recurring);
      if c.Failure? {
        return Failure(c.error), 0;
      }
      index := RecordContext(c.value);
      ctx := Success(Some(c.value));
    }

    /** The turn of the node at position `pos`: `Initial_sample`'s node step in the initial
        phase, the recurring one otherwise. */
    method NodeTurn(pos: nat) returns (out: Outcome<Error>)
      requires Valid() && pos < |topOrder|
      requires NodeValid(net.nodeType, PhaseOf(net, flag).parents, topOrder[pos])
      modifies this`node, this`loopbacks, this`loopbacks2, this`allParents, this`parentNLevel,
               this`levelMultiply
      ensures Valid()
      ensures NodeStep(Prepare(net, flag, role, topOrder, pos, old(Live()), old(node)),
                       out, old(node), node, topOrder[pos])
      ensures out.Pass? ==> loopbacks == old(loopbacks) && loopbacks2 == old(loopbacks2)
      ensures flag == Secondary ==> loopbacks == old(loopbacks)
      ensures flag != Secondary ==> loopbacks2 == old(loopbacks2)
      ensures flag == Initial ==> loopbacks == old(loopbacks)
    {
      if flag == Initial {
        out := InitialNode(pos);
      } else {
        out := RecurringNode(pos);
      }
    }

    /** The loop over `top_order` of one step of the phase `flag` selects, once `Valid_BN`
        has accepted that phase's parent lists: every node draws in turn from the plan its
        turn's buffers give; the step stops at the first node whose plan fails. */
    method SampleAll() returns (out: Outcome<Error>)
      requires Valid() && CheckParents(topOrder, net.nodeType, PhaseOf(net, flag).parents).Pass?
      modifies this`node, this`loopbacks, this`loopbacks2, this`allParents, this`parentNLevel,
               this`levelMultiply
      ensures Valid()
      ensures out.Pass? ==> StepFaithful(net, flag, role, topOrder, old(Live()), old(node), node)
      ensures out.Pass? ==> loopbacks == old(loopbacks) && loopbacks2 == old(loopbacks2)
      ensures out.Fail? ==>
                exists q :: 0 <= q < |topOrder|
                  && DrawnUpTo(net, flag, role, topOrder, old(Live()), old(node), node, q)
                  && StepFails(Prepare(net, flag, role, topOrder, q, old(Live()), node), out.error)
      ensures flag == Secondary ==> loopbacks == old(loopbacks)
      ensures flag != Secondary ==> loopbacks2 == old(loopbacks2)
      ensures flag == Initial ==> loopbacks == old(loopbacks)
    {
      ghost var before := node;
      ghost var lb := Live();
      DrawnStart(net, flag, role, topOrder, lb, before);
      var pos := 0;
      while pos < |topOrder|
        invariant Valid() && pos <= |topOrder|
        invariant DrawnUpTo(net, flag, role, topOrder, lb, before, node, pos)
        invariant loopbacks == old(loopbacks) && loopbacks2 == old(loopbacks2)
      {
        ghost var cur := node;
        assert NodeValid(net.nodeType, PhaseOf(net, flag).parents, topOrder[pos]);
        var step := NodeTurn(pos);
        if step.Fail? {
          return step;
        }
        DrawnStep(net, flag, role, topOrder, lb, before, cur, node, pos);
        pos := pos + 1;
      }
      DrawnDone(net, flag, role, topOrder, lb, before, node);
      out := Pass;
    }

    /** The sampling loop of a phase whose parent lists `Valid_BN` has accepted for the
        current order, with the phase recorded in the trace when every node has drawn. */
    method PhaseStep() returns (out: Outcome<Error>)
      requires Valid() && ordered
      requires CheckParents(topOrder, net.nodeType, PhaseOf(net, flag).parents).Pass?
      modifies this`node, this`loopbacks, this`loopbacks2, this`allParents, this`parentNLevel,
               this`levelMultiply, this`trace
      ensures Valid()
      ensures out.Pass? ==> StepFaithful(net, flag, role, topOrder, Live(), old(node), node)
      ensures out.Pass? ==> loopbacks == old(loopbacks) && loopbacks2 == old(loopbacks2)
      ensures out.Pass? ==> GrewBy(net.mat, old(node), node, 1)
      ensures out.Pass? ==> trace == old(trace) + [flag]
      ensures out.Fail? ==> trace == old(trace)
      ensures flag == Secondary ==> loopbacks == old(loopbacks)
      ensures flag != Secondary ==> loopbacks2 == old(loopbacks2)
      ensures flag == Initial ==> loopbacks == old(loopbacks)
    {
      out := SampleAll();
      if out.Pass? {
        StepLengths(net.mat, topOrder, old(node), node);
        trace := trace + [flag];
      }
    }

    /** The first two calls of `Initial_sample`: `DAG_ordering`, then `Role_Assignment`. */
    method OrderAndRoles() returns (out: Outcome<Error>)
      requires Valid()
      modifies this`topOrder, this`ordered, this`role
      ensures Valid() && ordered && OrderComputed(net.mat, topOrder)
      ensures out.Pass? <==> forall k :: 0 <= k < |topOrder| && ColumnSum(net.mat, topOrder[k]) == 0 ==>
                               topOrder[k] < |topOrder|
      ensures out.Fail? ==> out.error == IndexOutOfRange
      ensures out.Pass? ==> role == RoleVector(net.mat, topOrder)
    {
      var _ := DagOrdering();
      out := RoleAssignment();
    }

    /** `Initial_sample`: orders the nodes and assigns the roles (an IndexError there
        comes before the phase is selected), then selects the initial phase, validates its
        parent lists and draws every ordered node once. */
    method InitialSample() returns (out: Outcome<Error>)
      requires Valid()
      modifies this`topOrder, this`ordered, this`role, this`flag, this`node, this`loopbacks,
               this`loopbacks2, this`allParents, this`parentNLevel, this`levelMultiply, this`trace
      ensures Valid() && ordered && OrderComputed(net.mat, topOrder)
      ensures loopbacks == old(loopbacks) && loopbacks2 == old(loopbacks2)
      ensures (exists k :: 0 <= k < |topOrder| && ColumnSum(net.mat, topOrder[k]) == 0
                           && topOrder[k] >= |topOrder|) ==>
                out == Fail(IndexOutOfRange) && flag == old(flag) && node == old(node)
      ensures out.Pass? ==> flag == Initial && role == RoleVector(net.mat, topOrder)
      ensures out.Pass? ==> CheckParents(topOrder, net.nodeType, net.initial.parents).Pass?
      ensures out.Pass? ==> StepFaithful(net, Initial, role, topOrder, loopbacks, old(node), node)
      ensures out.Pass? ==> GrewBy(net.mat, old(node), node, 1)
      ensures out.Pass? ==> trace == old(trace) + [Initial]
      ensures out.Fail? ==> trace == old(trace)
    {
      out := OrderAndRoles();
      if out.Fail? {
        return;
      }
      out := InitialPhase();
    }

    /** The rest of `Initial_sample` once the roles are assigned: `flag = 0`, `Valid_BN`
        on `Parent`, then one draw per ordered node. */
    method InitialPhase() returns (out: Outcome<Error>)
      requires Valid() && ordered
      modifies this`flag, this`node, this`loopbacks, this`loopbacks2, this`allParents,
               this`parentNLevel, this`levelMultiply, this`trace
      ensures Valid() && flag == Initial
      ensures loopbacks == old(loopbacks) && loopbacks2 == old(loopbacks2)
      ensures CheckParents(topOrder, net.nodeType, net.initial.parents).Fail? ==>
                out == CheckParents(topOrder, net.nodeType, net.initial.parents)
      ensures out.Pass? ==> CheckParents(topOrder, net.nodeType, net.initial.parents).Pass?
      ensures out.Pass? ==> StepFaithful(net, Initial, role, topOrder, loopbacks, old(node), node)
      ensures out.Pass? ==> GrewBy(net.mat, old(node), node, 1)
      ensures out.Pass? ==> trace == old(trace) + [Initial]
      ensures out.Fail? ==> trace == old(trace)
    {
      flag := Initial;
      out := CheckParents(topOrder, net.nodeType, net.initial.parents);
      if out.Fail? {
        return;
      }
      out := PhaseStep();
    }

    /** `BN_sample`: one step of the recurring phase over the current order, after
        `Valid_BN` has accepted `Parent2`; an AttributeError when no order exists yet. */
    method BnSample() returns (out: Outcome<Error>)
      requires Valid()
      modifies this`flag, this`node, this`loopbacks, this`loopbacks2, this`allParents,
               this`parentNLevel, this`levelMultiply, this`trace
      ensures Valid() && flag == Recurring && loopbacks2 == old(loopbacks2)
      ensures !ordered ==> out == Fail(NoOrder)
      ensures ordered && CheckParents(topOrder, net.nodeType, net.recurring.parents).Fail? ==>
                out == CheckParents(topOrder, net.nodeType, net.recurring.parents)
      ensures out.Pass? ==> StepFaithful(net, Recurring, role, topOrder, loopbacks, old(node), node)
      ensures out.Pass? ==> loopbacks == old(loopbacks)
      ensures out.Pass? ==> GrewBy(net.mat, old(node), node, 1)
      ensures out.Pass? ==> trace == old(trace) + [Recurring]
      ensures out.Fail? ==> trace == old(trace)
    {
      flag := Recurring;
      if !ordered {
        return Fail(NoOrder);
      }
      out := CheckParents(topOrder, net.nodeType, net.recurring.parents);
      if out.Fail? {
        return;
      }
      out := PhaseStep();
    }

    /** `BN_sample_loopback`: one step of the secondary phase. `Valid_BN` checks `Parent3`
        against the current order (an AttributeError when none exists yet) before
        `DAG_ordering` recomputes it; the verdict is the same for either order. */
    method BnSampleLoopback() returns (out: Outcome<Error>)
      requires Valid()
      modifies this`topOrder, this`ordered, this`flag, this`node, this`loopbacks, this`loopbacks2,
               this`allParents, this`parentNLevel, this`levelMultiply, this`trace
      ensures Valid() && flag == Secondary && loopbacks == old(loopbacks) && ordered == old(ordered)
      ensures !old(ordered) ==> out == Fail(NoOrder)
      ensures old(ordered) && CheckParents(old(topOrder), net.nodeType, net.secondary.parents).Fail? ==>
                out == CheckParents(old(topOrder), net.nodeType, net.secondary.parents)
      ensures out.Pass? ==> ordered && OrderComputed(net.mat, topOrder)
                            && CheckParents(topOrder, net.nodeType, net.secondary.parents).Pass?
      ensures out.Pass? ==> StepFaithful(net, Secondary, role, topOrder, loopbacks2, old(node), node)
      ensures out.Pass? ==> loopbacks2 == old(loopbacks2)
      ensures out.Pass? ==> GrewBy(net.mat, old(node), node, 1)
      ensures out.Pass? ==> trace == old(trace) + [Secondary]
      ensures out.Fail? ==> trace == old(trace)
    {
      flag := Secondary;
      if !ordered {
        return Fail(NoOrder);
      }
      out := CheckParents(topOrder, net.nodeType, net.secondary.parents);
      if out.Fail? {
        return;
      }
      Reorder();
      out := PhaseStep();
    }

    /** The `DAG_ordering` call of `BN_sample_loopback`: the recomputed order holds the same
        nodes, so the verdict `Valid_BN` gave `Parent3` carries over to it. */
    method Reorder()
      requires Valid() && ordered
      requires CheckParents(topOrder, net.nodeType, net.secondary.parents).Pass?
      modifies this`topOrder, this`ordered
      ensures Valid() && ordered && OrderComputed(net.mat, topOrder)
      ensures CheckParents(topOrder, net.nodeType, net.secondary.parents).Pass?
    {
      ghost var before := topOrder;
      var _ := DagOrdering();
      SameNodes(net.mat, before, topOrder);
      CheckParentsSameNodes(before, topOrder, net.nodeType, net.secondary.parents);
    }

    /** `count` steps of `BN_sample`, as the `for` loops of the series drivers run them. */
    method RepeatedSample(count: nat) returns (out: Outcome<Error>)
      requires Valid() && ordered
      modifies this`flag, this`node, this`loopbacks, this`loopbacks2, this`allParents,
               this`parentNLevel, this`levelMultiply, this`trace
      ensures Valid()
      ensures out.Pass? ==> GrewBy(net.mat, old(node), node, count)
      ensures out.Pass? ==> trace == old(trace) + Repeat(Recurring, count)
      ensures out.Pass? ==> loopbacks == old(loopbacks) && loopbacks2 == old(loopbacks2)
    {
      var k := 0;
      while k < count
        invariant 0 <= k <= count && Valid() && ordered
        invariant GrewBy(net.mat, old(node), node, k)
        invariant trace == old(trace) + Repeat(Recurring, k)
        invariant loopbacks == old(loopbacks) && loopbacks2 == old(loopbacks2)
      {
        ghost var cur := node;
        out := BnSample();
        if out.Fail? {
          return;
        }
        GrowStep(net.mat, old(node), cur, node, k, 1);
        RepeatSnoc(Recurring, k);
        k := k + 1;
      }
      out := Pass;
    }

    /** `count` steps of `BN_sample_loopback`. */
    method RepeatedLoopback(count: nat) returns (out: Outcome<Error>)
      requires Valid() && ordered
      modifies this`topOrder, this`ordered, this`flag, this`node, this`loopbacks, this`loopbacks2,
               this`allParents, this`parentNLevel, this`levelMultiply, this`trace
      ensures Valid() && ordered
      ensures out.Pass? ==> GrewBy(net.mat, old(node), node, count)
      ensures out.Pass? ==> trace == old(trace) + Repeat(Secondary, count)
      ensures out.Pass? ==> loopbacks == old(loopbacks) && loopbacks2 == old(loopbacks2)
    {
      var k := 0;
      while k < count
        invariant 0 <= k <= count && Valid() && ordered
        invariant GrewBy(net.mat, old(node), node, k)
        invariant trace == old(trace) + Repeat(Secondary, k)
        invariant loopbacks == old(loopbacks) && loopbacks2 == old(loopbacks2)
      {
        ghost var cur := node;
        out := BnSampleLoopback();
        if out.Fail? {
          return;
        }
        GrowStep(net.mat, old(node), cur, node, k, 1);
        RepeatSnoc(Secondary, k);
        k := k + 1;
      }
      out := Pass;
    }

    /** The end of a series: `BN_Nodes[jj][ii] = Node[jj]` and `Node[jj] = []` for every
        node. */
    method StoreSeries(ii: nat)
      requires Valid() && |bnNodes| == |node| && forall j :: 0 <= j < |bnNodes| ==> ii < |bnNodes[j]|
      modifies this`bnNodes, this`node
      ensures Valid() && |bnNodes| == |node| == |old(node)|
      ensures forall j :: 0 <= j < |bnNodes| ==> bnNodes[j] == old(bnNodes)[j][ii := old(node)[j]]
      ensures forall j :: 0 <= j < |node| ==> node[j] == []
    {
      var jj := 0;
      while jj < |node|
        invariant 0 <= jj <= |node| == |old(node)| == |bnNodes| && Valid()
        invariant forall j :: 0 <= j < jj ==> bnNodes[j] == old(bnNodes)[j][ii := old(node)[j]] && node[j] == []
        invariant forall j :: jj <= j < |node| ==> bnNodes[j] == old(bnNodes)[j] && node[j] == old(node)[j]
      {
        bnNodes := bnNodes[jj := bnNodes[jj][ii := node[jj]]];
        node := node[jj := []];
        jj := jj + 1;
      }
    }

    /** `BN_Nodes` gets an empty list per series, `[[] for ii in range(self.N)]`, for every
        node. */
    method ResetSeries()
      requires Valid()
      modifies this`bnNodes
      ensures Valid() && bnNodes == seq(|node|, _ => seq(Max0(seriesCount), _ => []))
    {
      bnNodes := seq(|node|, _ => seq(Max0(seriesCount), _ => []));
    }

    /** One series of `BN_data_gen`: `Initial_sample`, then `BN_sample` for the steps of
        `range(1, T)`. */
    method DataGenSeries() returns (out: Outcome<Error>)
      requires Valid()
      modifies this`topOrder, this`ordered, this`role, this`flag, this`node, this`loopbacks,
               this`loopbacks2, this`allParents, this`parentNLevel, this`levelMultiply, this`trace
      ensures Valid()
      ensures out.Pass? ==> GrewBy(net.mat, old(node), node, |DataGenSchedule(seriesLength)|)
      ensures out.Pass? ==> trace == old(trace) + DataGenSchedule(seriesLength)
      ensures out.Pass? ==> loopbacks == old(loopbacks) && loopbacks2 == old(loopbacks2)
    {
      out := InitialSample();
      if out.Fail? {
        return;
      }
      ghost var mid := node;
      out := RepeatedSample(RangeLen(1, seriesLength));
      if out.Pass? {
        GrowStep(net.mat, old(node), mid, node, 1, RangeLen(1, seriesLength));
        assert old(trace) + [Initial] + Repeat(Recurring, RangeLen(1, seriesLength))
            == old(trace) + DataGenSchedule(seriesLength);
      }
    }

    /** One series of `BN_sample_gen_loopback` with switch point `switch`:
        `Initial_sample`, `BN_sample` for the steps of `range(1, switch)`, then
        `BN_sample_loopback` for those of `range(switch, T)`. */
    method GenSeries(switch: int) returns (out: Outcome<Error>)
      requires Valid()
      modifies this`topOrder, this`ordered, this`role, this`flag, this`node, this`loopbacks,
               this`loopbacks2, this`allParents, this`parentNLevel, this`levelMultiply, this`trace
      ensures Valid()
      ensures out.Pass? ==> GrewBy(net.mat, old(node), node, |GenSchedule(seriesLength, switch)|)
      ensures out.Pass? ==> trace == old(trace) + GenSchedule(seriesLength, switch)
      ensures out.Pass? ==> loopbacks == old(loopbacks) && loopbacks2 == old(loopbacks2)
    {
      out := InitialSample();
      if out.Fail? {
        return;
      }
      ghost var mid := node;
      out := RepeatedSample(RangeLen(1, switch));
      if out.Fail? {
        return;
      }
      GrowStep(net.mat, old(node), mid, node, 1, RangeLen(1, switch));
      ghost var mid2 := node;
      out := RepeatedLoopback(RangeLen(switch, seriesLength));
      if out.Pass? {
        GrowStep(net.mat, old(node), mid2, node, 1 + RangeLen(1, switch), RangeLen(switch, seriesLength));
        assert old(trace) + [Initial] + Repeat(Recurring, RangeLen(1, switch))
                 + Repeat(Secondary, RangeLen(switch, seriesLength))
            == old(trace) + GenSchedule(seriesLength, switch);
      }
    }

    /** `BN_data_gen`: `BN_Nodes` gets an empty list per series for every node, then `N`
        series are generated, each stored in `BN_Nodes` and cleared from `Node`. */
    method BnDataGen() returns (out: Outcome<Error>)
      requires Valid()
      modifies this`bnNodes, this`topOrder, this`ordered, this`role, this`flag, this`node,
               this`loopbacks, this`loopbacks2, this`allParents, this`parentNLevel,
               this`levelMultiply, this`trace
      ensures Valid()
      ensures out.Pass? ==> SeriesStored(net.mat, old(node), bnNodes, Max0(seriesCount),
                                         |DataGenSchedule(seriesLength)|)
      ensures out.Pass? && seriesCount >= 1 ==> forall j :: 0 <= j < |node| ==> node[j] == []
      ensures out.Pass? ==> trace == old(trace) + Cycle(DataGenSchedule(seriesLength), Max0(seriesCount))
      ensures out.Pass? ==> loopbacks == old(loopbacks) && loopbacks2 == old(loopbacks2)
    {
      ResetSeries();
      out := Pass;
      var ii := 0;
      while ii < seriesCount
        invariant 0 <= ii <= Max0(seriesCount) && Valid() && out.Pass? && |bnNodes| == |node|
        invariant SeriesUpTo(net.mat, old(node), bnNodes, Max0(seriesCount), ii, |DataGenSchedule(seriesLength)|)
        invariant SeriesBuffers(old(node), node, ii)
        invariant trace == old(trace) + Cycle(DataGenSchedule(seriesLength), ii)
        invariant loopbacks == old(loopbacks) && loopbacks2 == old(loopbacks2)
      {
        ghost var store, cur := bnNodes, node;
        out := DataGenSeries();
        if out.Fail? {
          return;
        }
        ghost var grown := node;
        StoreSeries(ii);
        SeriesAdvance(net.mat, old(node), store, cur, grown, bnNodes, node, Max0(seriesCount), ii,
                      |DataGenSchedule(seriesLength)|);
        ii := ii + 1;
      }
    }

    /** `BN_sample_gen_loopback`: `BN_Nodes` gets an empty list per series for every node;
        the switch point is the largest lag of `loopbacks2` (a ValueError when none is
        declared, raised even when `custom_time` is set), or `custom_time` when that is
        non-zero; then `N` series are generated and stored. */
    method BnSampleGenLoopback() returns (out: Outcome<Error>, switch: int)
      requires Valid()
      modifies this`bnNodes, this`topOrder, this`ordered, this`role, this`flag, this`node,
               this`loopbacks, this`loopbacks2, this`allParents, this`parentNLevel,
               this`levelMultiply, this`trace
      ensures Valid()
      ensures (forall key :: key in old(loopbacks2) ==> old(loopbacks2)[key] == []) ==>
                out == Fail(NoLags) && bnNodes == seq(|node|, _ => seq(Max0(seriesCount), _ => []))
                && node == old(node) && trace == old(trace)
      ensures (exists key :: key in old(loopbacks2) && old(loopbacks2)[key] != []) && customTime != 0 ==>
                switch == customTime
      ensures (exists key :: key in old(loopbacks2) && old(loopbacks2)[key] != []) && customTime == 0 ==>
                (exists key :: key in old(loopbacks2) && switch in old(loopbacks2)[key])
                && forall key, x :: key in old(loopbacks2) && x in old(loopbacks2)[key] ==> x <= switch
      ensures out.Pass? ==> SeriesStored(net.mat, old(node), bnNodes, Max0(seriesCount),
                                         |GenSchedule(seriesLength, switch)|)
      ensures out.Pass? && seriesCount >= 1 ==> forall j :: 0 <= j < |node| ==> node[j] == []
      ensures out.Pass? ==> trace == old(trace) + Cycle(GenSchedule(seriesLength, switch), Max0(seriesCount))
      ensures out.Pass? ==> loopbacks == old(loopbacks) && loopbacks2 == old(loopbacks2)
    {
      ResetSeries();
      var maxLag := MaxLag(loopbacks2);
      if maxLag.Failure? {
        return Fail(maxLag.error), 0;
      }
      switch := SwitchPoint(customTime, maxLag.value);
      out := GenAllSeries(switch);
    }

    /** The series loop of `BN_sample_gen_loopback` once the switch point is known. */
    method GenAllSeries(switch: int) returns (out: Outcome<Error>)
      requires Valid()
      requires SeriesUpTo(net.mat, node, bnNodes, Max0(seriesCount), 0, |GenSchedule(seriesLength, switch)|)
      modifies this`bnNodes, this`topOrder, this`ordered, this`role, this`flag, this`node,
               this`loopbacks, this`loopbacks2, this`allParents, this`parentNLevel,
               this`levelMultiply, this`trace
      ensures Valid()
      ensures out.Pass? ==> SeriesStored(net.mat, old(node), bnNodes, Max0(seriesCount),
                                         |GenSchedule(seriesLength, switch)|)
      ensures out.Pass? && seriesCount >= 1 ==> forall j :: 0 <= j < |node| ==> node[j] == []
      ensures out.Pass? ==> trace == old(trace) + Cycle(GenSchedule(seriesLength, switch), Max0(seriesCount))
      ensures out.Pass? ==> loopbacks == old(loopbacks) && loopbacks2 == old(loopbacks2)
    {
      out := Pass;
      var ii := 0;
      while ii < seriesCount
        invariant 0 <= ii <= Max0(seriesCount) && Valid() && out.Pass? && |bnNodes| == |node|
        invariant SeriesUpTo(net.mat, old(node), bnNodes, Max0(seriesCount), ii, |GenSchedule(seriesLength, switch)|)
        invariant SeriesBuffers(old(node), node, ii)
        invariant trace == old(trace) + Cycle(GenSchedule(seriesLength, switch), ii)
        invariant loopbacks == old(loopbacks) && loopbacks2 == old(loopbacks2)
      {
        ghost var store, cur := bnNodes, node;
        out := GenSeries(switch);
        if out.Fail? {
          return;
        }
        ghost var grown := node;
        StoreSeries(ii);
        SeriesAdvance(net.mat, old(node), store, cur, grown, bnNodes, node, Max0(seriesCount), ii,
                      |GenSchedule(seriesLength, switch)|);
        ii := ii + 1;
      }
    }

    /** `Gaussian_select`: a real drawn from a normal distribution whose parameters are
        not modelled. */
    method GaussianSelect() returns (x: Sample)
      ensures x.Value?
    {
      var v: real :| true;
      x := Value(v);
    }

    /** `continous_cpd`: stores the place values of `parent_N_level` in `level_multiply`
        and returns the composite row index of `all_parents`. */
    method ContinousCpd() returns (index: int)
      modifies this`levelMultiply
      ensures levelMultiply == Multipliers(parentNLevel)
      ensures index == CompositeIndex(allParents, parentNLevel)
    {
      levelMultiply := LevelMultiplied(parentNLevel);
      index := WeightedSum(allParents, levelMultiply);
    }
  }
}
