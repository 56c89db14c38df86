/** `Valid_BN`: the check that no discrete node of a phase has a continuous parent. */
module Validation {
  import opened Wrappers
  import opened BnTypes
  import opened Keys
  import opened Seqs

  /** Some listed parent is continuous (`any(Node_Type[jj] == 'C' for jj in ps)`). */
  predicate AnyContinuous(types: seq<NodeType>, ps: seq<nat>)
    requires forall k :: 0 <= k < |ps| ==> ps[k] < |types|
  {
    exists k :: 0 <= k < |ps| && types[ps[k]] == Continuous
  }

  /** The condition `Valid_BN` enforces for node `v`: a discrete node has a parent list and
      no continuous parent on it. */
  ghost predicate NodeValid(types: seq<NodeType>, parents: ParentMap, v: nat): (b: bool)
    requires v < |types| && ParentIdsBelow(parents, |types|)
    ensures types[v] == Continuous ==> b
    ensures b && types[v] == Discrete ==>
              NatToStr(v) in parents
              && forall k :: 0 <= k < |parents[NatToStr(v)]| ==> types[parents[NatToStr(v)][k]] == Discrete
  {
    types[v] == Discrete ==>
      NatToStr(v) in parents && !AnyContinuous(types, parents[NatToStr(v)])
  }

  /** `Valid_BN(parent)`: visits `top_order` in order; for a discrete node it looks up the
      node's parent list (a KeyError when absent) and raises when a parent is continuous.
      A continuous node is skipped without a lookup, since `and` short-circuits. */
  function CheckParents(order: seq<nat>, types: seq<NodeType>, parents: ParentMap): (r: Outcome<Error>)
    requires forall k :: 0 <= k < |order| ==> order[k] < |types|
    requires ParentIdsBelow(parents, |types|)
    ensures r.Pass? <==> forall k :: 0 <= k < |order| ==> NodeValid(types, parents, order[k])
    ensures r.Fail? ==> r.error in {ContinuousParentOfDiscrete, MissingParentList}
    ensures r == Fail(ContinuousParentOfDiscrete) ==>
              exists k :: 0 <= k < |order| && types[order[k]] == Discrete
                && NatToStr(order[k]) in parents && AnyContinuous(types, parents[NatToStr(order[k])])
    ensures (forall k :: 0 <= k < |order| ==> NatToStr(order[k]) in parents) && r.Fail? ==>
              r.error == ContinuousParentOfDiscrete
  {
    if order == [] then Pass
    else
      var ii := order[0];
      var rest := CheckParents(order[1..], types, parents);
      assert forall k :: 1 <= k < |order| ==> order[k] == order[1..][k - 1];
      if types[ii] == Continuous then rest
      else if NatToStr(ii) !in parents then Fail(MissingParentList)
      else if AnyContinuous(types, parents[NatToStr(ii)]) then Fail(ContinuousParentOfDiscrete)
      else rest
  }

  /** The verdict depends only on which nodes the order holds: `Valid_BN` gives the same
      answer before and after `DAG_ordering` recomputes the order. */
  lemma CheckParentsSameNodes(o1: seq<nat>, o2: seq<nat>, types: seq<NodeType>, parents: ParentMap)
    requires forall k :: 0 <= k < |o1| ==> o1[k] < |types|
    requires forall k :: 0 <= k < |o2| ==> o2[k] < |types|
    requires ParentIdsBelow(parents, |types|)
    requires forall v :: v in o1 <==> v in o2
    ensures CheckParents(o1, types, parents).Pass? <==> CheckParents(o2, types, parents).Pass?
  {
    if CheckParents(o1, types, parents).Pass? {
      forall k | 0 <= k < |o2|
        ensures NodeValid(types, parents, o2[k])
      {
        assert o2[k] in o2;
        var j :| 0 <= j < |o1| && o1[j] == o2[k];
      }
    }
    if CheckParents(o2, types, parents).Pass? {
      forall k | 0 <= k < |o1|
        ensures NodeValid(types, parents, o1[k])
      {
        assert o1[k] in o1;
        var j :| 0 <= j < |o2| && o2[j] == o1[k];
      }
    }
  }

  /** A discrete node with a continuous parent is rejected: the example of a node 1 of type
      'D' whose only parent, node 0, is of type 'C'. */
  lemma CheckParentsRejects()
    ensures CheckParents([0, 1], [Continuous, Discrete], map["0" := [], "1" := [0]])
         == Fail(ContinuousParentOfDiscrete)
  {
    assert NatToStr(1) == "1" && NatToStr(0) == "0";
    var types := [Continuous, Discrete];
    assert AnyContinuous(types, [0]) by {
      assert types[[0][0]] == Continuous;
    }
  }
}
