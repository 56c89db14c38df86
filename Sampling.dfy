/** What drawing one node's sample depends on: the phase's parent list and CPD, the
    node's role, the phase's loopback dictionary and the sample buffers as they stand when
    the node's turn comes. `Prepare` is the reference the generator's node step is proved
    against. */
module Sampling {
  import opened Wrappers
  import opened BnTypes
  import opened Keys
  import opened Seqs
  import opened Topology
  import opened MixedRadix
  import opened Lag
  import opened Validation

  /** The configuration the generator never changes: the adjacency matrix, the node types,
      the level counts and the three phases (`Parent`/`CPD`, `Parent2`/`CPD2`,
      `Parent3`/`CPD3`). */
  datatype Network = Network(mat: Matrix, nodeType: seq<NodeType>, nLevel: seq<int>,
                             initial: Phase, recurring: Phase, secondary: Phase)

  ghost predicate NetworkValid(net: Network) {
    IsSquare(net.mat) && |net.nodeType| == |net.mat| && |net.nLevel| == |net.mat|
    && ParentIdsBelow(net.initial.parents, |net.mat|)
    && ParentIdsBelow(net.recurring.parents, |net.mat|)
    && ParentIdsBelow(net.secondary.parents, |net.mat|)
  }

  /** The phase `flag` selects. */
  function PhaseOf(net: Network, tag: PhaseTag): Phase {
    match tag
    case Initial => net.initial
    case Recurring => net.recurring
    case Secondary => net.secondary
  }

  /** `parent[str(ii)]`, a KeyError when the node has no entry. */
  function ParentsOf(ph: Phase, ii: nat): (r: Result<seq<nat>, Error>)
    ensures r.Success? <==> NatToStr(ii) in ph.parents
    ensures r.Success? ==> r.value == ph.parents[NatToStr(ii)]
    ensures r.Failure? ==> r.error == MissingParentList
  {
    if NatToStr(ii) in ph.parents then Success(ph.parents[NatToStr(ii)])
    else Failure(MissingParentList)
  }

  ghost predicate IdsBelow(ps: seq<nat>, n: nat) {
    forall k :: 0 <= k < |ps| ==> ps[k] < n
  }

  /** `[kk for kk in ps if Node_Type[kk] == 'D']`: the discrete parents, in order. */
  function DiscreteParents(types: seq<NodeType>, ps: seq<nat>): (r: seq<nat>)
    requires IdsBelow(ps, |types|)
    ensures |r| <= |ps| && IdsBelow(r, |types|)
    ensures forall x :: x in r <==> x in ps && types[x] == Discrete
    ensures Distinct(ps) ==> Distinct(r)
  {
    if ps == [] then []
    else
      var rest := DiscreteParents(types, ps[1..]);
      assert forall x :: x in ps <==> x == ps[0] || x in ps[1..];
      if types[ps[0]] == Discrete then [ps[0]] + rest else rest
  }

  /** `all(Node_Type[jj] == 'D' for jj in ps)`, true of an empty list. */
  predicate AllDiscrete(types: seq<NodeType>, ps: seq<nat>)
    requires IdsBelow(ps, |types|)
  {
    forall k :: 0 <= k < |ps| ==> types[ps[k]] == Discrete
  }

  /** `any(Node_Type[jj] == 'D' for jj in ps)`. */
  predicate AnyDiscrete(types: seq<NodeType>, ps: seq<nat>)
    requires IdsBelow(ps, |types|)
  {
    exists k :: 0 <= k < |ps| && types[ps[k]] == Discrete
  }

  /** The discrete parents' values (`all_parents`) and level counts (`parent_N_level`)
      a draw is conditioned on. */
  datatype Context = Context(values: seq<int>, levels: seq<int>)

  /** The initial phase's parent loop: every parent contributes its latest sample
      (`Node[jj][-1]`, an IndexError on an empty buffer) and its level count. */
  function LatestLevels(ps: seq<nat>, bufs: seq<seq<Sample>>, nLevel: seq<int>): (r: Result<Context, Error>)
    requires ParentsInRange(ps, bufs, nLevel)
    ensures r.Success? <==> forall k :: 0 <= k < |ps| ==> bufs[ps[k]] != []
    ensures r.Failure? ==> r.error == IndexOutOfRange
    ensures r.Success? ==> |r.value.values| == |r.value.levels| == |ps|
    ensures r.Success? ==> forall k :: 0 <= k < |ps| ==>
              r.value.values[k] == LevelOf(bufs[ps[k]][|bufs[ps[k]]| - 1])
              && r.value.levels[k] == nLevel[ps[k]]
  {
    if ps == [] then Success(Context([], []))
    else
      var x :- PyIndex(bufs[ps[0]], -1);
      assert forall k :: 1 <= k < |ps| ==> ps[k] == ps[1..][k - 1];
      var rest :- LatestLevels(ps[1..], bufs, nLevel);
      Success(Context([LevelOf(x)] + rest.values, [nLevel[ps[0]]] + rest.levels))
  }

  /** The parents already processed, in front of the context of the rest. */
  function ExtendContext(values: seq<int>, levels: seq<int>, r: Result<Context, Error>): Result<Context, Error> {
    match r
    case Success(c) => Success(Context(values + c.values, levels + c.levels))
    case Failure(e) => Failure(e)
  }

  lemma ExtendContextEmpty(r: Result<Context, Error>)
    ensures ExtendContext([], [], r) == r
  {
    if r.Success? {
      assert [] + r.value.values == r.value.values && [] + r.value.levels == r.value.levels;
    }
  }

  /** One turn of the initial phase's parent loop. */
  lemma LatestLevelsStep(ps: seq<nat>, k: nat, bufs: seq<seq<Sample>>, nLevel: seq<int>)
    requires ParentsInRange(ps, bufs, nLevel) && k < |ps|
    ensures ParentsInRange(ps[k..], bufs, nLevel) && ParentsInRange(ps[k + 1..], bufs, nLevel)
    ensures var x := PyIndex(bufs[ps[k]], -1);
            LatestLevels(ps[k..], bufs, nLevel)
              == if x.Failure? then Failure(x.error)
                 else ExtendContext([LevelOf(x.value)], [nLevel[ps[k]]], LatestLevels(ps[k + 1..], bufs, nLevel))
  {
    assert ps[k..][0] == ps[k] && ps[k..][1..] == ps[k + 1..];
  }

  /** The categorical distribution `Multinomial_Select` hands to the multinomial draw:
      the entry under `key` itself, or its row `index` when the node has parents in the
      phase (`row`). A missing key is a KeyError, a row outside the table an IndexError. */
  function SelectDistribution(cpd: Cpd, key: string, index: int, row: bool): (r: Result<seq<real>, Error>)
    ensures key !in cpd ==> r == Failure(MissingCpdEntry)
    ensures r.Success? && row ==> cpd[key].Table? && -|cpd[key].rows| <= index < |cpd[key].rows|
                                  && r.value == PyIndex(cpd[key].rows, index).value
    ensures r.Success? && !row ==> cpd[key] == Distribution(r.value)
    ensures key in cpd && row && cpd[key].Table? ==> r == PyIndex(cpd[key].rows, index)
    ensures key in cpd && !row && cpd[key].Distribution? ==> r == Success(cpd[key].probs)
  {
    if key !in cpd then Failure(MissingCpdEntry)
    else
      match cpd[key]
      case Table(rows) => if row then PyIndex(rows, index) else Failure(MalformedCpdEntry)
      case Distribution(probs) => if row then Failure(MalformedCpdEntry) else Success(probs)
      case Regression => Failure(MalformedCpdEntry)
  }

  /** The distribution `Multinomial_Select` picks for CPD key `key` and row `index` of node
      `ii`: in the initial phase the whole entry for a root (`Role[ii] == 1`) and the row
      otherwise; in the recurring phases the row when the node has parents in the phase
      and the whole entry when it has none. */
  function DrawSource(net: Network, tag: PhaseTag, role: seq<int>, key: string, index: int,
                      ii: nat): (r: Result<seq<real>, Error>)
    ensures key !in PhaseOf(net, tag).cpd ==> r.Failure?
    ensures tag == Initial && PyIndex(role, ii).Failure? ==> r.Failure?
    ensures tag != Initial && NatToStr(ii) !in PhaseOf(net, tag).parents ==> r == Failure(MissingParentList)
  {
    if tag == Initial then
      var r :- PyIndex(role, ii);
      SelectDistribution(net.initial.cpd, key, index, r != 1)
    else
      var ps :- ParentsOf(PhaseOf(net, tag), ii);
      SelectDistribution(PhaseOf(net, tag).cpd, key, index, |ps| != 0)
  }

  /** `np.random.multinomial(1, dist)[0]`: a single draw, so exactly one category counts 1. */
  predicate OneHot(s: seq<int>, n: nat) {
    |s| == n && exists i :: 0 <= i < n && s[i] == 1 && forall j :: 0 <= j < n && j != i ==> s[j] == 0
  }

  /** A draw of a discrete node from a categorical distribution, or of a continuous node
      from a Gaussian (whose parameters are not modelled). */
  datatype Draw = Categorical(dist: seq<real>) | Gaussian

  /** What one node step decides before it draws: the distribution and, on the branches
      that build one, the conditioning context. */
  datatype Plan = Plan(draw: Draw, context: Option<Context>)

  /** A multinomial draw needs at least one category. */
  predicate Drawable(d: Draw) {
    d.Categorical? ==> d.dist != []
  }

  /** The sample a draw can give: `Pos + 1` for the drawn category `Pos`, or a real. */
  ghost predicate Admits(d: Draw, x: Sample) {
    match d
    case Categorical(dist) => x.Level? && 1 <= x.level <= |dist|
    case Gaussian => x.Value?
  }

  /** The CPD dictionary key: the parents' digits followed by the node's. */
  function KeyOf(ps: seq<nat>, ii: nat): string {
    ContextKey(ps, ii)
  }

  /** The end of a node step: a discrete node draws from the categorical distribution
      `SelectDistribution` picks, a continuous one from a Gaussian; `ctx` is the context the
      step built, if any. */
  function Conclude(cpd: Cpd, key: string, discrete: bool, index: int, row: bool,
                    ctx: Option<Context>): (r: Result<Plan, Error>)
    ensures r.Success? ==> r.value.context == ctx && (r.value.draw.Categorical? <==> discrete)
    ensures discrete && key !in cpd ==> r == Failure(MissingCpdEntry)
    ensures !discrete ==> r.Success?
  {
    if discrete then
      var d :- SelectDistribution(cpd, key, index, row);
      Success(Plan(Categorical(d), ctx))
    else Success(Plan(Gaussian, ctx))
  }

  /** One node step of `Initial_sample`, `BN_sample` or `BN_sample_loopback`, for the node
      at position `pos` of `order`, up to the draw itself. The parent list is looked up
      first (a KeyError when absent). */
  function Prepare(net: Network, tag: PhaseTag, role: seq<int>, order: seq<nat>, pos: nat,
                   lb: Loopbacks, bufs: seq<seq<Sample>>): (r: Result<Plan, Error>)
    requires NetworkValid(net) && pos < |order| && order[pos] < |net.mat| && |bufs| == |net.mat|
    ensures NatToStr(order[pos]) !in PhaseOf(net, tag).parents ==> r == Failure(MissingParentList)
    ensures r.Success? && r.value.draw.Categorical? ==> net.nodeType[order[pos]] == Discrete
  {
    var ps :- ParentsOf(PhaseOf(net, tag), order[pos]);
    if tag == Initial then PrepareInitial(net, role, order[pos], ps, bufs)
    else PrepareRecurring(net, tag, order, pos, lb, ps, bufs)
  }

  /** The initial phase: a root reads the unconditional distribution (an IndexError when
      `Role` has no entry for the node), a node with only discrete parents the row of their
      latest samples, and a node with some discrete parents builds their context for its
      Gaussian. */
  function PrepareInitial(net: Network, role: seq<int>, ii: nat, ps: seq<nat>,
                          bufs: seq<seq<Sample>>): (r: Result<Plan, Error>)
    requires NetworkValid(net) && ii < |net.mat| && |bufs| == |net.mat| && IdsBelow(ps, |net.mat|)
    ensures PyIndex(role, ii).Failure? ==> r.Failure?
    ensures r.Success? && r.value.draw.Categorical? ==> net.nodeType[ii] == Discrete
    ensures r.Success? && PyIndex(role, ii).value == 1 ==> r.value.context == None
  {
    var types := net.nodeType;
    var cpd := net.initial.cpd;
    var r :- PyIndex(role, ii);
    if r == 1 then Conclude(cpd, KeyOf(ps, ii), types[ii] == Discrete, 0, false, None)
    else if AllDiscrete(types, ps) then
      var c :- LatestLevels(ps, bufs, net.nLevel);
      Conclude(cpd, KeyOf(ps, ii), types[ii] == Discrete, CompositeIndex(c.values, c.levels), true, Some(c))
    else if AnyDiscrete(types, ps) then
      var c :- LatestLevels(DiscreteParents(types, ps), bufs, net.nLevel);
      Success(Plan(Gaussian, Some(c)))
    else Success(Plan(Gaussian, None))
  }

  /** The recurring phases: the discrete parents are resolved through the loopback
      dictionary; `BN_sample` restores the dictionary after every parent when the node also
      has continuous parents, everywhere else it is restored after the loop. The row is
      read when the node has parents in the phase and the whole entry when it has none. */
  function PrepareRecurring(net: Network, tag: PhaseTag, order: seq<nat>, pos: nat, lb: Loopbacks,
                            ps: seq<nat>, bufs: seq<seq<Sample>>): (r: Result<Plan, Error>)
    requires NetworkValid(net) && pos < |order| && order[pos] < |net.mat| && |bufs| == |net.mat|
    requires IdsBelow(ps, |net.mat|)
    ensures r.Success? && r.value.draw.Categorical? ==>
              net.nodeType[order[pos]] == Discrete && AllDiscrete(net.nodeType, ps)
  {
    if AllDiscrete(net.nodeType, ps) then PrepareAllDiscrete(net, tag, order, pos, lb, ps, bufs)
    else if AnyDiscrete(net.nodeType, ps) then PrepareMixed(net, tag, order, pos, lb, ps, bufs)
    else Success(Plan(Gaussian, None))
  }

  /** A recurring-phase node whose parents are all discrete: every parent is resolved
      (none restored in between) and the composite index selects the row. */
  function PrepareAllDiscrete(net: Network, tag: PhaseTag, order: seq<nat>, pos: nat, lb: Loopbacks,
                              ps: seq<nat>, bufs: seq<seq<Sample>>): (r: Result<Plan, Error>)
    requires NetworkValid(net) && pos < |order| && order[pos] < |net.mat| && |bufs| == |net.mat|
    requires IdsBelow(ps, |net.mat|)
    ensures r.Success? ==> r.value.context.Some?
    ensures r.Success? && r.value.draw.Categorical? ==> net.nodeType[order[pos]] == Discrete
  {
    var ii := order[pos];
    var res :- Resolve(ps, ii, pos, order, lb, bufs, net.nLevel);
    Conclude(PhaseOf(net, tag).cpd, KeyOf(ps, ii), net.nodeType[ii] == Discrete,
             CompositeIndex(res.values, res.levels), |ps| != 0, Some(Context(res.values, res.levels)))
  }

  /** A recurring-phase node with discrete and continuous parents: only the discrete ones
      are resolved, the dictionary restored after each one in `BN_sample`, and a Gaussian
      is drawn. */
  function PrepareMixed(net: Network, tag: PhaseTag, order: seq<nat>, pos: nat, lb: Loopbacks,
                        ps: seq<nat>, bufs: seq<seq<Sample>>): (r: Result<Plan, Error>)
    requires NetworkValid(net) && pos < |order| && order[pos] < |net.mat| && |bufs| == |net.mat|
    requires IdsBelow(ps, |net.mat|)
    ensures r.Success? ==> r.value.draw == Gaussian && r.value.context.Some?
  {
    var res :- ResolveMode(tag == Recurring, DiscreteParents(net.nodeType, ps), order[pos], pos, order,
                           lb, bufs, net.nLevel);
    Success(Plan(Gaussian, Some(Context(res.values, res.levels))))
  }

  /** The recurring phases as written: the branch of `BN_sample` for a node whose parents
      are all continuous passes `temp + sintercept` to `Gaussian_select`, and `sintercept`
      is never bound (the line before binds `intercept`), so that branch always raises
      NameError. `BN_sample_loopback`'s branch reads `intercept` and is unaffected. */
  function PrepareRecurringAsWritten(net: Network, tag: PhaseTag, order: seq<nat>, pos: nat,
                                     lb: Loopbacks, ps: seq<nat>, bufs: seq<seq<Sample>>): (r: Result<Plan, Error>)
    requires NetworkValid(net) && pos < |order| && order[pos] < |net.mat| && |bufs| == |net.mat|
    requires IdsBelow(ps, |net.mat|)
    ensures tag == Secondary ==> r == PrepareRecurring(net, tag, order, pos, lb, ps, bufs)
    ensures r.Success? ==> r == PrepareRecurring(net, tag, order, pos, lb, ps, bufs)
  {
    if !AllDiscrete(net.nodeType, ps) && !AnyDiscrete(net.nodeType, ps) && tag == Recurring
    then Failure(UndefinedName)
    else PrepareRecurring(net, tag, order, pos, lb, ps, bufs)
  }

  /** Node 1's only parent, node 0, is continuous: as written its recurring step raises
      NameError, while with `intercept` read it draws a Gaussian without context. */
  lemma SinterceptExample(bufs: seq<seq<Sample>>)
    requires |bufs| == 2
    ensures var net := Network([[0, 1], [0, 0]], [Continuous, Continuous], [0, 0],
                               Phase(map[], map[]), Phase(map["0" := [], "1" := [0]], map[]),
                               Phase(map[], map[]));
            PrepareRecurringAsWritten(net, Recurring, [0, 1], 1, map[], [0], bufs) == Failure(UndefinedName)
            && PrepareRecurring(net, Recurring, [0, 1], 1, map[], [0], bufs) == Success(Plan(Gaussian, None))
  {
    var types := [Continuous, Continuous];
    assert !AllDiscrete(types, [0]) by {
      assert types[[0][0]] == Continuous;
    }
  }

  /** The intended all-continuous branch: whatever the buffers and the loopback dictionary
      hold, a node whose parents are all continuous draws a Gaussian and builds no context
      in either recurring phase, and the two readings agree everywhere else. */
  lemma AllContinuousDrawsGaussian(net: Network, tag: PhaseTag, order: seq<nat>, pos: nat,
                                   lb: Loopbacks, ps: seq<nat>, bufs: seq<seq<Sample>>)
    requires NetworkValid(net) && pos < |order| && order[pos] < |net.mat| && |bufs| == |net.mat|
    requires IdsBelow(ps, |net.mat|)
    ensures (ps != [] && forall k :: 0 <= k < |ps| ==> net.nodeType[ps[k]] == Continuous) ==>
              PrepareRecurring(net, tag, order, pos, lb, ps, bufs) == Success(Plan(Gaussian, None))
    ensures (tag == Secondary || AnyDiscrete(net.nodeType, ps) || AllDiscrete(net.nodeType, ps)) ==>
              PrepareRecurringAsWritten(net, tag, order, pos, lb, ps, bufs)
                == PrepareRecurring(net, tag, order, pos, lb, ps, bufs)
  {
    if ps != [] && forall k :: 0 <= k < |ps| ==> net.nodeType[ps[k]] == Continuous {
      assert net.nodeType[ps[0]] == Continuous;
    }
  }

  /** Once `Valid_BN` has accepted the phase for this node, the draw matches the node's
      type: a discrete node always draws from a categorical distribution and a continuous
      one from a Gaussian. */
  lemma PrepareMatchesType(net: Network, tag: PhaseTag, role: seq<int>, order: seq<nat>,
                           pos: nat, lb: Loopbacks, bufs: seq<seq<Sample>>)
    requires NetworkValid(net) && pos < |order| && order[pos] < |net.mat| && |bufs| == |net.mat|
    requires NodeValid(net.nodeType, PhaseOf(net, tag).parents, order[pos])
    requires Prepare(net, tag, role, order, pos, lb, bufs).Success?
    ensures Prepare(net, tag, role, order, pos, lb, bufs).value.draw.Categorical?
        <==> net.nodeType[order[pos]] == Discrete
  {
    var ii := order[pos];
    var types := net.nodeType;
    if types[ii] == Discrete {
      var ps := PhaseOf(net, tag).parents[NatToStr(ii)];
      assert AllDiscrete(types, ps);
    }
  }

  /** Example: in the initial phase a discrete root draws from its unconditional
      distribution, whatever the buffers hold. */
  lemma PrepareRootExample(bufs: seq<seq<Sample>>)
    requires |bufs| == 1
    ensures var net := Network([[0]], [Discrete], [2],
                               Phase(map["0" := []], map["0" := Distribution([0.5, 0.5])]),
                               Phase(map[], map[]), Phase(map[], map[]));
            Prepare(net, Initial, [1], [0], 0, map[], bufs)
              == Success(Plan(Categorical([0.5, 0.5]), None))
  {
    assert NatToStr(0) == "0";
    assert KeyOf([], 0) == "0" by {
      assert IntToStr([]) == "";
    }
  }

  /** In the middle of step `t` of a recurring phase, a discrete node whose parents are all
      discrete and all different reads the row of exactly the samples its declared lags
      name: the plan's context is the reference values of the lag semantics, paired with
      the parents' level counts. */
  lemma PrepareAtStep(net: Network, tag: PhaseTag, role: seq<int>, order: seq<nat>, pos: nat,
                      lb: Loopbacks, bufs: seq<seq<Sample>>, t: nat)
    requires NetworkValid(net) && pos < |order| && order[pos] < |net.mat| && |bufs| == |net.mat|
    requires tag != Initial && net.nodeType[order[pos]] == Discrete
    requires NatToStr(order[pos]) in PhaseOf(net, tag).parents
    requires var ps := PhaseOf(net, tag).parents[NatToStr(order[pos])];
             AllDiscrete(net.nodeType, ps) && Distinct(ps)
             && StepReady(ps, order[pos], pos, order, lb, bufs, t)
    ensures var ps := PhaseOf(net, tag).parents[NatToStr(order[pos])];
            var values := StepValuesAll(ps, order[pos], pos, order, lb, bufs, t);
            var levels := seq(|ps|, k requires 0 <= k < |ps| => net.nLevel[ps[k]]);
            var d := SelectDistribution(PhaseOf(net, tag).cpd, KeyOf(ps, order[pos]),
                                        CompositeIndex(values, levels), |ps| != 0);
            var p := Prepare(net, tag, role, order, pos, lb, bufs);
            (p.Success? <==> d.Success?)
            && (p.Success? ==> p.value == Plan(Categorical(d.value), Some(Context(values, levels))))
  {
    var ii := order[pos];
    var ps := PhaseOf(net, tag).parents[NatToStr(ii)];
    ResolveAtStep(ps, ii, pos, order, lb, bufs, net.nLevel, t);
    ResolveShape(ps, ii, pos, order, lb, bufs, net.nLevel);
    var res := Resolve(ps, ii, pos, order, lb, bufs, net.nLevel).value;
    var levels := seq(|ps|, k requires 0 <= k < |ps| => net.nLevel[ps[k]]);
    assert res.levels == levels;
  }

  /** Node `ii` received one sample, admitted by `d`, and no other buffer changed. */
  ghost predicate NodeDrawn(before: seq<seq<Sample>>, after: seq<seq<Sample>>, ii: nat, d: Draw) {
    |after| == |before| && ii < |before|
    && |after[ii]| == |before[ii]| + 1 && after[ii][..|before[ii]|] == before[ii]
    && Admits(d, after[ii][|before[ii]|])
    && forall v :: 0 <= v < |before| && v != ii ==> after[v] == before[v]
  }

  /** The outcome of one node step against the plan `p` prepared for node `ii`: the step
      succeeds exactly when the plan does and has a category to draw from, fails with the
      plan's error otherwise, and on success appends one sample the plan admits; a failed
      step leaves the buffers alone. */
  ghost predicate NodeStep(p: Result<Plan, Error>, out: Outcome<Error>, before: seq<seq<Sample>>,
                           after: seq<seq<Sample>>, ii: nat) {
    (out.Pass? <==> p.Success? && Drawable(p.value.draw))
    && (p.Failure? ==> out == Fail(p.error))
    && (p.Success? && !Drawable(p.value.draw) ==> out == Fail(EmptyDistribution))
    && (out.Pass? ==> NodeDrawn(before, after, ii, p.value.draw))
    && (out.Fail? ==> after == before)
  }

  /** The buffers as they stand when the node at position `pos` of the order is drawn:
      the nodes before it already hold this step's sample (`after`), the others do not
      (`before`). */
  ghost function Mid(before: seq<seq<Sample>>, after: seq<seq<Sample>>, order: seq<nat>,
                     pos: nat): (r: seq<seq<Sample>>)
    requires |after| == |before| && pos <= |order|
    ensures |r| == |before|
  {
    seq(|before|, v requires 0 <= v < |before| => if v in order[..pos] then after[v] else before[v])
  }

  /** The step appended exactly one sample to every node of the order and left every other
      buffer alone. */
  ghost predicate Appended(before: seq<seq<Sample>>, after: seq<seq<Sample>>, order: seq<nat>) {
    |after| == |before|
    && forall v :: 0 <= v < |before| ==>
         if v in order then |after[v]| == |before[v]| + 1 && after[v][..|before[v]|] == before[v]
         else after[v] == before[v]
  }

  /** A whole step of phase `tag` in the order: every node received one sample, admitted
      by the plan prepared from the buffers as they stood at its turn. */
  ghost predicate StepFaithful(net: Network, tag: PhaseTag, role: seq<int>, order: seq<nat>,
                               lb: Loopbacks, before: seq<seq<Sample>>, after: seq<seq<Sample>>)
  {
    NetworkValid(net) && |before| == |net.mat| && IdsBelow(order, |net.mat|)
    && Appended(before, after, order)
    && forall pos :: 0 <= pos < |order| ==>
         var p := Prepare(net, tag, role, order, pos, lb, Mid(before, after, order, pos));
         p.Success? && Drawable(p.value.draw)
         && Admits(p.value.draw, after[order[pos]][|before[order[pos]]|])
  }

  /** Partway through a step: the first `k` nodes of the order have each received one
      sample, admitted by the plan prepared from the buffers as they stood at their turn,
      and no other buffer has changed. */
  ghost predicate DrawnUpTo(net: Network, tag: PhaseTag, role: seq<int>, order: seq<nat>,
                            lb: Loopbacks, before: seq<seq<Sample>>, cur: seq<seq<Sample>>, k: nat)
  {
    NetworkValid(net) && |before| == |net.mat| && IdsBelow(order, |net.mat|) && Distinct(order)
    && k <= |order| && |cur| == |before|
    && (forall v :: 0 <= v < |before| ==>
          if v in order[..k] then |cur[v]| == |before[v]| + 1 && cur[v][..|before[v]|] == before[v]
          else cur[v] == before[v])
    && forall q :: 0 <= q < k ==>
         var p := Prepare(net, tag, role, order, q, lb, Mid(before, cur, order, q));
         p.Success? && Drawable(p.value.draw)
         && Admits(p.value.draw, cur[order[q]][|before[order[q]]|])
  }

  /** The error a node step stops with when its plan fails or has nothing to draw from. */
  ghost predicate StepFails(p: Result<Plan, Error>, e: Error) {
    (p.Failure? && e == p.error) || (p.Success? && !Drawable(p.value.draw) && e == EmptyDistribution)
  }

  /** Before the first node nothing has been drawn. */
  lemma DrawnStart(net: Network, tag: PhaseTag, role: seq<int>, order: seq<nat>, lb: Loopbacks,
                   before: seq<seq<Sample>>)
    requires NetworkValid(net) && |before| == |net.mat| && IdsBelow(order, |net.mat|) && Distinct(order)
    ensures DrawnUpTo(net, tag, role, order, lb, before, before, 0)
  {
  }

  /** The buffers as they stand at the turn of the node at position `k`: the nodes before it
      hold their new sample, the others their old buffer. */
  lemma MidCurrent(net: Network, tag: PhaseTag, role: seq<int>, order: seq<nat>, lb: Loopbacks,
                   before: seq<seq<Sample>>, cur: seq<seq<Sample>>, k: nat)
    requires DrawnUpTo(net, tag, role, order, lb, before, cur, k)
    ensures Mid(before, cur, order, k) == cur
  {
  }

  /** A node step that succeeds extends the prefix by one node. */
  lemma DrawnStep(net: Network, tag: PhaseTag, role: seq<int>, order: seq<nat>,
                  lb: Loopbacks, before: seq<seq<Sample>>, cur: seq<seq<Sample>>,
                  next: seq<seq<Sample>>, k: nat)
    requires DrawnUpTo(net, tag, role, order, lb, before, cur, k) && k < |order|
    requires NodeStep(Prepare(net, tag, role, order, k, lb, cur), Pass, cur, next, order[k])
    ensures DrawnUpTo(net, tag, role, order, lb, before, next, k + 1)
  {
    var ii := order[k];
    MidCurrent(net, tag, role, order, lb, before, cur, k);
    NotEarlier(order, k);
    DrawnBuffers(before, cur, next, order, k);
    MidStable(before, cur, next, order, k);
    forall q | 0 <= q < k + 1
      ensures var p := Prepare(net, tag, role, order, q, lb, Mid(before, next, order, q));
              p.Success? && Drawable(p.value.draw)
              && Admits(p.value.draw, next[order[q]][|before[order[q]]|])
    {
      if q < k {
        assert order[q] != ii;
      }
    }
  }

  /** In an order without repeats the node at position `k` comes at no earlier position. */
  lemma NotEarlier(order: seq<nat>, k: nat)
    requires Distinct(order) && k < |order|
    ensures forall q, v :: 0 <= q <= k && v in order[..q] ==> v != order[k]
    ensures order[..k + 1] == order[..k] + [order[k]]
  {
    forall q, v | 0 <= q <= k && v in order[..q]
      ensures v != order[k]
    {
      var j :| 0 <= j < q && order[..q][j] == v;
      assert order[j] == v;
    }
  }

  /** Appending the `k`-th node's sample extends the per-node picture by that node. */
  lemma DrawnBuffers(before: seq<seq<Sample>>, cur: seq<seq<Sample>>, next: seq<seq<Sample>>,
                     order: seq<nat>, k: nat)
    requires |cur| == |before| && k < |order| && order[k] < |before|
    requires order[..k + 1] == order[..k] + [order[k]] && order[k] !in order[..k]
    requires forall v :: 0 <= v < |before| ==>
               if v in order[..k] then |cur[v]| == |before[v]| + 1 && cur[v][..|before[v]|] == before[v]
               else cur[v] == before[v]
    requires |next| == |cur| && |next[order[k]]| == |cur[order[k]]| + 1
    requires next[order[k]][..|cur[order[k]]|] == cur[order[k]]
    requires forall v :: 0 <= v < |before| && v != order[k] ==> next[v] == cur[v]
    ensures |next| == |before|
    ensures forall v :: 0 <= v < |before| ==>
              if v in order[..k + 1] then |next[v]| == |before[v]| + 1 && next[v][..|before[v]|] == before[v]
              else next[v] == before[v]
  {
    var ii := order[k];
    forall v | 0 <= v < |before|
      ensures if v in order[..k + 1] then |next[v]| == |before[v]| + 1 && next[v][..|before[v]|] == before[v]
              else next[v] == before[v]
    {
      if v == ii {
        assert cur[v] == before[v];
      }
    }
  }

  /** Drawing the `k`-th node changes none of the picture the earlier nodes saw. */
  lemma MidStable(before: seq<seq<Sample>>, cur: seq<seq<Sample>>, next: seq<seq<Sample>>,
                  order: seq<nat>, k: nat)
    requires |cur| == |before| == |next| && k < |order|
    requires forall q, v :: 0 <= q <= k && v in order[..q] ==> v != order[k]
    requires forall v :: 0 <= v < |before| && v != order[k] ==> next[v] == cur[v]
    ensures forall q :: 0 <= q <= k ==> Mid(before, next, order, q) == Mid(before, cur, order, q)
  {
    forall q | 0 <= q <= k
      ensures Mid(before, next, order, q) == Mid(before, cur, order, q)
    {
      forall v | 0 <= v < |before|
        ensures Mid(before, next, order, q)[v] == Mid(before, cur, order, q)[v]
      {
      }
    }
  }

  /** When every node of the order has drawn, the step is faithful. */
  lemma DrawnDone(net: Network, tag: PhaseTag, role: seq<int>, order: seq<nat>, lb: Loopbacks,
                  before: seq<seq<Sample>>, after: seq<seq<Sample>>)
    requires DrawnUpTo(net, tag, role, order, lb, before, after, |order|)
    ensures StepFaithful(net, tag, role, order, lb, before, after)
  {
    assert order[..|order|] == order;
  }

  /** Every entry of a discrete node's buffer is a level of at least 1 and every entry of
      a continuous node's buffer is a real. */
  ghost predicate TypedBuffer(t: NodeType, buf: seq<Sample>) {
    forall i :: 0 <= i < |buf| ==>
      (buf[i].Level? <==> t == Discrete) && (buf[i].Level? ==> buf[i].level >= 1)
  }

  ghost predicate Typed(types: seq<NodeType>, bufs: seq<seq<Sample>>) {
    |bufs| == |types| && forall v :: 0 <= v < |bufs| ==> TypedBuffer(types[v], bufs[v])
  }

  /** A typed draw keeps the buffers typed. */
  lemma TypedAppend(types: seq<NodeType>, bufs: seq<seq<Sample>>, v: nat, d: Draw, x: Sample)
    requires Typed(types, bufs) && v < |bufs|
    requires d.Categorical? <==> types[v] == Discrete
    requires Admits(d, x)
    ensures Typed(types, bufs[v := bufs[v] + [x]])
  {
  }
}
