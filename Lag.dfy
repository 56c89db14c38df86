/** Loopback lag resolution: which past sample of each discrete parent a node reads in the
    recurring phases, built from the per-node sample buffers `Node[jj]` and the loopback
    dictionary, whose consumed entries are deleted while the node is processed. */
module Lag {
  import opened Wrappers
  import opened BnTypes
  import opened Keys
  import opened Seqs

  /** Python subscription `s[i]`: a negative position counts from the end, and a position
      outside `-len(s) .. len(s) - 1` raises IndexError. */
  function PyIndex<T>(s: seq<T>, i: int): (r: Result<T, Error>)
    ensures r.Success? <==> -|s| <= i < |s|
    ensures r.Success? && i >= 0 ==> r.value == s[i]
    ensures r.Success? && i < 0 ==> r.value == s[|s| + i]
    ensures r.Failure? ==> r.error == IndexOutOfRange
  {
    if 0 <= i < |s| then Success(s[i])
    else if -|s| <= i < 0 then Success(s[|s| + i])
    else Failure(IndexOutOfRange)
  }

  /** The level a discrete buffer entry holds (a continuous entry has none; 0 stands in). */
  function LevelOf(x: Sample): int {
    if x.Level? then x.level else 0
  }

  /** The buffer subscript lag `mm` reads: `-1 - mm` for a parent earlier in the order than
      the child, `-1 - (mm - 1)` otherwise. */
  function LagOffset(mm: int, earlier: bool): int {
    if earlier then -1 - mm else -1 - (mm - 1)
  }

  /** The loop over the declared lags of one relation: one value per lag, in order. */
  function LaggedReads(buf: seq<Sample>, lags: seq<int>, earlier: bool): (r: Result<seq<int>, Error>)
    ensures r.Success? <==> forall k :: 0 <= k < |lags| ==> -|buf| <= LagOffset(lags[k], earlier) < |buf|
    ensures r.Success? ==> |r.value| == |lags|
    ensures r.Success? ==> forall k :: 0 <= k < |lags| ==>
              r.value[k] == LevelOf(PyIndex(buf, LagOffset(lags[k], earlier)).value)
    ensures r.Failure? ==> r.error == IndexOutOfRange
  {
    if lags == [] then Success([])
    else
      var x :- PyIndex(buf, LagOffset(lags[0], earlier));
      var rest :- LaggedReads(buf, lags[1..], earlier);
      assert forall k :: 1 <= k < |lags| ==> lags[k] == lags[1..][k - 1];
      Success([LevelOf(x)] + rest)
  }

  /** A single declared lag reads a single sample. */
  lemma SingleLagRead(buf: seq<Sample>, mm: int, earlier: bool)
    requires -|buf| <= LagOffset(mm, earlier) < |buf|
    ensures LaggedReads(buf, [mm], earlier)
         == Success([LevelOf(PyIndex(buf, LagOffset(mm, earlier)).value)])
  {
    var r := LaggedReads(buf, [mm], earlier);
    assert -|buf| <= LagOffset([mm][0], earlier) < |buf|;
    assert r.value == [LevelOf(PyIndex(buf, LagOffset(mm, earlier)).value)];
  }

  /** What one parent `jj` of `child` (at position `pos` of `order`) adds to `all_parents`,
      and the loopback dictionary afterwards: with an entry, one value per declared lag and
      the entry deleted; without one, the latest sample, or nothing for a self-parent. */
  function Contribution(jj: nat, child: nat, pos: nat, order: seq<nat>, lb: Loopbacks,
                        buf: seq<Sample>): (r: Result<(seq<int>, Loopbacks), Error>)
    ensures LoopbackKey(jj, child) in lb && jj !in order ==> r == Failure(NotInOrder)
    ensures r.Success? && LoopbackKey(jj, child) in lb ==>
              |r.value.0| == |lb[LoopbackKey(jj, child)]| && r.value.1 == lb - {LoopbackKey(jj, child)}
    ensures r.Success? && LoopbackKey(jj, child) !in lb ==>
              |r.value.0| == (if jj != child then 1 else 0) && r.value.1 == lb
  {
    var key := LoopbackKey(jj, child);
    if key in lb then
      match IndexOf(order, jj)
      case None => Failure(NotInOrder)
      case Some(at) =>
        var vals :- LaggedReads(buf, lb[key], at < pos);
        Success((vals, lb - {key}))
    else if jj != child then
      var x :- PyIndex(buf, -1);
      Success(([LevelOf(x)], lb))
    else Success(([], lb))
  }

  /** The resolved parent values, their level counts and the dictionary left behind. */
  datatype Resolution = Resolution(values: seq<int>, levels: seq<int>, remaining: Loopbacks)

  ghost predicate ParentsInRange(parents: seq<nat>, bufs: seq<seq<Sample>>, nLevel: seq<int>) {
    forall k :: 0 <= k < |parents| ==> parents[k] < |bufs| && parents[k] < |nLevel|
  }

  /** The loop over a node's discrete parents, as `BN_sample_loopback` and the first branch
      of `BN_sample` run it: the dictionary is threaded from parent to parent, so a consumed
      entry stays deleted until the restore after the loop. */
  function Resolve(parents: seq<nat>, child: nat, pos: nat, order: seq<nat>, lb: Loopbacks,
                   bufs: seq<seq<Sample>>, nLevel: seq<int>): (r: Result<Resolution, Error>)
    requires ParentsInRange(parents, bufs, nLevel)
    ensures r.Success? ==> r.value.remaining.Keys <= lb.Keys
    decreases |parents|
  {
    if parents == [] then Success(Resolution([], [], lb))
    else
      var c :- Contribution(parents[0], child, pos, order, lb, bufs[parents[0]]);
      var rest :- Resolve(parents[1..], child, pos, order, c.1, bufs, nLevel);
      Success(Resolution(c.0 + rest.values, [nLevel[parents[0]]] + rest.levels, rest.remaining))
  }

  /** The same loop as the second branch of `BN_sample` runs it: the dictionary is restored
      inside the loop, so every parent sees the full dictionary. */
  function ResolveEach(parents: seq<nat>, child: nat, pos: nat, order: seq<nat>, lb: Loopbacks,
                       bufs: seq<seq<Sample>>, nLevel: seq<int>): (r: Result<Resolution, Error>)
    requires ParentsInRange(parents, bufs, nLevel)
    ensures r.Success? ==> r.value.remaining == lb
    decreases |parents|
  {
    if parents == [] then Success(Resolution([], [], lb))
    else
      var c :- Contribution(parents[0], child, pos, order, lb, bufs[parents[0]]);
      var rest :- ResolveEach(parents[1..], child, pos, order, lb, bufs, nLevel);
      Success(Resolution(c.0 + rest.values, [nLevel[parents[0]]] + rest.levels, lb))
  }

  /** The values already collected, in front of what the rest of the lag loop reads. */
  function Prefixed(read: seq<int>, r: Result<seq<int>, Error>): Result<seq<int>, Error> {
    match r
    case Success(vals) => Success(read + vals)
    case Failure(e) => Failure(e)
  }

  /** One turn of the lag loop: the lag at position `m` is read, then the rest. */
  lemma LaggedReadsStep(buf: seq<Sample>, lags: seq<int>, m: nat, earlier: bool)
    requires m < |lags|
    ensures var x := PyIndex(buf, LagOffset(lags[m], earlier));
            LaggedReads(buf, lags[m..], earlier)
              == if x.Failure? then Failure(x.error)
                 else Prefixed([LevelOf(x.value)], LaggedReads(buf, lags[m + 1..], earlier))
  {
    assert lags[m..][0] == lags[m] && lags[m..][1..] == lags[m + 1..];
  }

  /** The parents already processed, in front of the resolution of the rest. */
  function Extend(values: seq<int>, levels: seq<int>, r: Result<Resolution, Error>): Result<Resolution, Error> {
    match r
    case Success(t) => Success(Resolution(values + t.values, levels + t.levels, t.remaining))
    case Failure(e) => Failure(e)
  }

  lemma ExtendEmpty(r: Result<Resolution, Error>)
    ensures Extend([], [], r) == r
  {
    if r.Success? {
      assert [] + r.value.values == r.value.values && [] + r.value.levels == r.value.levels;
    }
  }

  lemma PrefixedEmpty(r: Result<seq<int>, Error>)
    ensures Prefixed([], r) == r
  {
    if r.Success? {
      assert [] + r.value == r.value;
    }
  }

  lemma ExtendAssoc(a: seq<int>, b: seq<int>, c: seq<int>, d: seq<int>, r: Result<Resolution, Error>)
    ensures Extend(a, b, Extend(c, d, r)) == Extend(a + c, b + d, r)
  {
    if r.Success? {
      assert a + (c + r.value.values) == (a + c) + r.value.values;
      assert b + (d + r.value.levels) == (b + d) + r.value.levels;
    }
  }

  /** One turn of the threaded parent loop. */
  lemma ResolveStep(parents: seq<nat>, k: nat, child: nat, pos: nat, order: seq<nat>,
                    lb: Loopbacks, bufs: seq<seq<Sample>>, nLevel: seq<int>)
    requires ParentsInRange(parents, bufs, nLevel) && k < |parents|
    ensures ParentsInRange(parents[k..], bufs, nLevel) && ParentsInRange(parents[k + 1..], bufs, nLevel)
    ensures var c := Contribution(parents[k], child, pos, order, lb, bufs[parents[k]]);
            Resolve(parents[k..], child, pos, order, lb, bufs, nLevel)
              == if c.Failure? then Failure(c.error)
                 else Extend(c.value.0, [nLevel[parents[k]]],
                             Resolve(parents[k + 1..], child, pos, order, c.value.1, bufs, nLevel))
  {
    assert parents[k..][0] == parents[k] && parents[k..][1..] == parents[k + 1..];
  }

  /** One turn of the restoring parent loop. */
  lemma ResolveEachStep(parents: seq<nat>, k: nat, child: nat, pos: nat, order: seq<nat>,
                        lb: Loopbacks, bufs: seq<seq<Sample>>, nLevel: seq<int>)
    requires ParentsInRange(parents, bufs, nLevel) && k < |parents|
    ensures ParentsInRange(parents[k..], bufs, nLevel) && ParentsInRange(parents[k + 1..], bufs, nLevel)
    ensures var c := Contribution(parents[k], child, pos, order, lb, bufs[parents[k]]);
            ResolveEach(parents[k..], child, pos, order, lb, bufs, nLevel)
              == if c.Failure? then Failure(c.error)
                 else Extend(c.value.0, [nLevel[parents[k]]],
                             ResolveEach(parents[k + 1..], child, pos, order, lb, bufs, nLevel))
  {
    assert parents[k..][0] == parents[k] && parents[k..][1..] == parents[k + 1..];
  }

  /** The parent loop with the restore after it (`each` false) or inside it (`each` true). */
  function ResolveMode(each: bool, parents: seq<nat>, child: nat, pos: nat, order: seq<nat>,
                       lb: Loopbacks, bufs: seq<seq<Sample>>, nLevel: seq<int>): (r: Result<Resolution, Error>)
    requires ParentsInRange(parents, bufs, nLevel)
    ensures r.Success? ==> r.value.remaining.Keys <= lb.Keys
    ensures each && r.Success? ==> r.value.remaining == lb
  {
    if each then ResolveEach(parents, child, pos, order, lb, bufs, nLevel)
    else Resolve(parents, child, pos, order, lb, bufs, nLevel)
  }

  /** One turn of either parent loop: the dictionary the rest of the loop sees is the one
      the turn left behind, or the full one again when it is restored inside the loop. */
  lemma ResolveModeStep(each: bool, parents: seq<nat>, k: nat, child: nat, pos: nat,
                        order: seq<nat>, lb: Loopbacks, bufs: seq<seq<Sample>>, nLevel: seq<int>)
    requires ParentsInRange(parents, bufs, nLevel) && k < |parents|
    ensures ParentsInRange(parents[k..], bufs, nLevel) && ParentsInRange(parents[k + 1..], bufs, nLevel)
    ensures var c := Contribution(parents[k], child, pos, order, lb, bufs[parents[k]]);
            ResolveMode(each, parents[k..], child, pos, order, lb, bufs, nLevel)
              == if c.Failure? then Failure(c.error)
                 else Extend(c.value.0, [nLevel[parents[k]]],
                             ResolveMode(each, parents[k + 1..], child, pos, order,
                                         if each then lb else c.value.1, bufs, nLevel))
  {
    if each {
      ResolveEachStep(parents, k, child, pos, order, lb, bufs, nLevel);
    } else {
      ResolveStep(parents, k, child, pos, order, lb, bufs, nLevel);
    }
  }

  /** The loopback keys of a node's parent relations. */
  function KeysOf(parents: seq<nat>, child: nat): set<string> {
    if parents == [] then {} else {LoopbackKey(parents[0], child)} + KeysOf(parents[1..], child)
  }

  /** `parent_N_level` gains exactly one entry per parent, `N_level[jj]`, whether or not the
      parent added a value; the loop deletes exactly the entries of the node's relations. */
  lemma {:induction false} ResolveShape(parents: seq<nat>, child: nat, pos: nat, order: seq<nat>,
                                        lb: Loopbacks, bufs: seq<seq<Sample>>, nLevel: seq<int>)
    requires ParentsInRange(parents, bufs, nLevel)
    ensures var r := Resolve(parents, child, pos, order, lb, bufs, nLevel);
            r.Success? ==>
              |r.value.levels| == |parents|
              && (forall k :: 0 <= k < |parents| ==> r.value.levels[k] == nLevel[parents[k]])
              && r.value.remaining == lb - KeysOf(parents, child)
    decreases |parents|
  {
    var r := Resolve(parents, child, pos, order, lb, bufs, nLevel);
    if parents != [] && r.Success? {
      var key := LoopbackKey(parents[0], child);
      var c := Contribution(parents[0], child, pos, order, lb, bufs[parents[0]]).value;
      ResolveShape(parents[1..], child, pos, order, c.1, bufs, nLevel);
      var rest := Resolve(parents[1..], child, pos, order, c.1, bufs, nLevel).value;
      assert forall k :: 1 <= k < |parents| ==> parents[k] == parents[1..][k - 1];
      assert r.value.levels == [nLevel[parents[0]]] + rest.levels;
      assert KeysOf(parents, child) == {key} + KeysOf(parents[1..], child);
      if key in lb {
        assert c.1 == lb - {key};
      } else {
        assert c.1 == lb;
      }
      assert (lb - {key}) - KeysOf(parents[1..], child) == lb - KeysOf(parents, child);
    } else if parents == [] {
      assert lb - {} == lb;
    }
  }

  /** The loopback dictionaries `a` and `b` say the same about every key in `keys`. */
  ghost predicate AgreeOn(a: Loopbacks, b: Loopbacks, keys: set<string>) {
    forall k :: k in keys ==> (k in a <==> k in b) && (k in a ==> a[k] == b[k])
  }

  lemma ContributionAgree(jj: nat, child: nat, pos: nat, order: seq<nat>, a: Loopbacks,
                          b: Loopbacks, buf: seq<Sample>)
    requires AgreeOn(a, b, {LoopbackKey(jj, child)})
    ensures Contribution(jj, child, pos, order, a, buf).Success?
        <==> Contribution(jj, child, pos, order, b, buf).Success?
    ensures Contribution(jj, child, pos, order, a, buf).Success? ==>
              (Contribution(jj, child, pos, order, a, buf).value.0
               == Contribution(jj, child, pos, order, b, buf).value.0)
  {
    assert LoopbackKey(jj, child) in {LoopbackKey(jj, child)};
  }

  /** For a node whose parents are all different, deleting consumed entries changes
      nothing: threading the dictionary and restoring it after every parent resolve the
      same values and levels. The two placements of the restore differ only when a parent
      is listed twice. */
  lemma {:induction false} ResolveDistinctParents(parents: seq<nat>, child: nat, pos: nat,
                                                  order: seq<nat>, a: Loopbacks, b: Loopbacks,
                                                  bufs: seq<seq<Sample>>, nLevel: seq<int>)
    requires ParentsInRange(parents, bufs, nLevel) && Distinct(parents)
    requires AgreeOn(a, b, KeysOf(parents, child))
    ensures Resolve(parents, child, pos, order, a, bufs, nLevel).Success?
        <==> ResolveEach(parents, child, pos, order, b, bufs, nLevel).Success?
    ensures Resolve(parents, child, pos, order, a, bufs, nLevel).Success? ==>
              Resolve(parents, child, pos, order, a, bufs, nLevel).value.values
                == ResolveEach(parents, child, pos, order, b, bufs, nLevel).value.values
              && Resolve(parents, child, pos, order, a, bufs, nLevel).value.levels
                == ResolveEach(parents, child, pos, order, b, bufs, nLevel).value.levels
    decreases |parents|
  {
    if parents != [] {
      var jj := parents[0];
      var key := LoopbackKey(jj, child);
      assert KeysOf(parents, child) == {key} + KeysOf(parents[1..], child);
      ContributionAgree(jj, child, pos, order, a, b, bufs[jj]);
      var ca := Contribution(jj, child, pos, order, a, bufs[jj]);
      if ca.Success? {
        var a' := ca.value.1;
        assert a' == a - {key} || a' == a;
        forall k | k in KeysOf(parents[1..], child)
          ensures (k in a' <==> k in b) && (k in a' ==> a'[k] == b[k])
        {
          KeysOfMember(parents[1..], child, k);
          var i :| 0 <= i < |parents[1..]| && k == LoopbackKey(parents[1..][i], child);
          LoopbackKeyInjective(jj, parents[1..][i], child);
          assert parents[1..][i] == parents[i + 1];
        }
        assert Distinct(parents[1..]);
        ResolveDistinctParents(parents[1..], child, pos, order, a', b, bufs, nLevel);
      }
    }
  }

  lemma {:induction false} KeysOfMember(parents: seq<nat>, child: nat, k: string)
    requires k in KeysOf(parents, child)
    ensures exists i :: 0 <= i < |parents| && k == LoopbackKey(parents[i], child)
    decreases |parents|
  {
    if k != LoopbackKey(parents[0], child) {
      KeysOfMember(parents[1..], child, k);
      var i :| 0 <= i < |parents[1..]| && k == LoopbackKey(parents[1..][i], child);
      assert parents[1..][i] == parents[i + 1];
    }
  }

  /** A listed-twice parent is where the two placements differ: node 0 is listed twice
      for node 1 with the relation "01" declaring lag [1]; the threaded loop reads the
      lag once and then the latest sample, the restoring loop reads the lag twice. */
  lemma RepeatedParentDiffers()
    ensures var bufs := [[Level(1), Level(2)], [Level(1)]];
            var lb := map["01" := [1]];
            Resolve([0, 0], 1, 1, [0, 1], lb, bufs, [2, 2]).Success?
            && Resolve([0, 0], 1, 1, [0, 1], lb, bufs, [2, 2]).value.values == [1, 2]
            && ResolveEach([0, 0], 1, 1, [0, 1], lb, bufs, [2, 2]).value.values == [1, 1]
  {
    assert LoopbackKey(0, 1) == "01" by {
      assert NatToStr(0) == "0" && NatToStr(1) == "1";
    }
    var bufs := [[Level(1), Level(2)], [Level(1)]];
    var lb := map["01" := [1]];
    assert IndexOf([0, 1], 0) == Some(0);
    assert [0, 0][1..] == [0] && [1][1..] == [];
    SingleLagRead(bufs[0], 1, true);
    assert PyIndex(bufs[0], LagOffset(1, true)) == Success(Level(1));
    assert lb - {"01"} == map[];
    assert Contribution(0, 1, 1, [0, 1], lb, bufs[0]) == Success(([1], map[]));
    assert PyIndex(bufs[0], -1) == Success(Level(2));
    assert Contribution(0, 1, 1, [0, 1], map[], bufs[0]) == Success(([2], map[]));
    assert Contribution(0, 1, 1, [0, 1], lb, bufs[0]) == Success(([1], map[]));
  }

  /** Where the buffers stand while the node at position `pos` of the order is processed
      during step `t` (0-based): the nodes before it have `t + 1` samples, the others `t`. */
  ghost predicate MidStep(order: seq<nat>, pos: nat, bufs: seq<seq<Sample>>, t: nat) {
    pos <= |order|
    && forall v :: 0 <= v < |bufs| ==> |bufs[v]| == (if v in order[..pos] then t + 1 else t)
  }

  /** The declared lags of the relation `jj -> child` name samples of the series so far:
      each lag is between 0 and `t`, and lag 0 is declared only for an earlier parent. */
  ghost predicate LagsHistoric(jj: nat, child: nat, earlier: bool, lb: Loopbacks, t: nat) {
    var key := LoopbackKey(jj, child);
    key in lb ==> forall k :: 0 <= k < |lb[key]| ==>
      0 <= lb[key][k] <= t && (lb[key][k] == 0 ==> earlier)
  }

  /** The reference meaning of a relation during step `t`: lag `mm` names the parent's sample
      of step `t - mm`; without an entry, the parent's sample of this step if it is already
      drawn and of the previous step otherwise, and nothing for a self-parent. */
  ghost function StepValues(jj: nat, child: nat, earlier: bool, lb: Loopbacks,
                            buf: seq<Sample>, t: nat): (r: seq<int>)
    requires LagsHistoric(jj, child, earlier, lb, t)
    requires |buf| == (if earlier then t + 1 else t)
    requires LoopbackKey(jj, child) !in lb && jj != child ==> earlier || t >= 1
    ensures LoopbackKey(jj, child) in lb ==> |r| == |lb[LoopbackKey(jj, child)]|
    ensures LoopbackKey(jj, child) !in lb ==> |r| == (if jj != child then 1 else 0)
  {
    var key := LoopbackKey(jj, child);
    if key in lb then
      seq(|lb[key]|, k requires 0 <= k < |lb[key]| => LevelOf(buf[t - lb[key][k]]))
    else if jj != child then
      [LevelOf(buf[if earlier then t else t - 1])]
    else []
  }

  /** Lag resolution relative to the topological position: in the middle of step `t`, an
      earlier parent's subscript `-1 - mm` and a later parent's `-1 - (mm - 1)` both reach
      the sample of step `t - mm`, and an entry-less parent contributes its latest sample. */
  lemma ContributionAtStep(jj: nat, child: nat, pos: nat, order: seq<nat>, lb: Loopbacks,
                           buf: seq<Sample>, t: nat)
    requires Distinct(order) && pos < |order| && order[pos] == child && jj in order
    requires |buf| == (if jj in order[..pos] then t + 1 else t)
    requires LagsHistoric(jj, child, jj in order[..pos], lb, t)
    requires LoopbackKey(jj, child) !in lb && jj != child ==> jj in order[..pos] || t >= 1
    ensures Contribution(jj, child, pos, order, lb, buf).Success?
    ensures Contribution(jj, child, pos, order, lb, buf).value.0
         == StepValues(jj, child, jj in order[..pos], lb, buf, t)
  {
    var key := LoopbackKey(jj, child);
    var earlier := jj in order[..pos];
    if key in lb {
      var at := IndexOf(order, jj).value;
      assert at < pos <==> earlier by {
        if earlier {
          var i :| 0 <= i < pos && order[..pos][i] == jj;
          IndexOfDistinct(order, i);
        } else {
          assert order[at] == jj;
          assert forall i :: 0 <= i < pos ==> order[..pos][i] == order[i];
        }
      }
      var lags := lb[key];
      forall k | 0 <= k < |lags|
        ensures -|buf| <= LagOffset(lags[k], earlier) < |buf|
        ensures LevelOf(PyIndex(buf, LagOffset(lags[k], earlier)).value) == LevelOf(buf[t - lags[k]])
      {
      }
    }
  }

  /** Every listed parent of `child` is in the order and has a relation whose lags name
      samples of the series so far. */
  ghost predicate StepReady(parents: seq<nat>, child: nat, pos: nat, order: seq<nat>,
                            lb: Loopbacks, bufs: seq<seq<Sample>>, t: nat) {
    Distinct(order) && pos < |order| && order[pos] == child && MidStep(order, pos, bufs, t)
    && forall k :: 0 <= k < |parents| ==>
         parents[k] in order && parents[k] < |bufs|
         && LagsHistoric(parents[k], child, parents[k] in order[..pos], lb, t)
         && (LoopbackKey(parents[k], child) !in lb && parents[k] != child ==>
               parents[k] in order[..pos] || t >= 1)
  }

  /** The reference meaning of a whole parent list: the relations' values, in order. */
  ghost function StepValuesAll(parents: seq<nat>, child: nat, pos: nat, order: seq<nat>,
                               lb: Loopbacks, bufs: seq<seq<Sample>>, t: nat): seq<int>
    requires StepReady(parents, child, pos, order, lb, bufs, t)
    decreases |parents|
  {
    if parents == [] then []
    else
      var jj := parents[0];
      assert StepReady(parents[1..], child, pos, order, lb, bufs, t) by {
        assert forall k :: 0 <= k < |parents| - 1 ==> parents[1..][k] == parents[k + 1];
      }
      StepValues(jj, child, jj in order[..pos], lb, bufs[jj], t)
        + StepValuesAll(parents[1..], child, pos, order, lb, bufs, t)
  }

  /** In the middle of step `t`, the parent loop of a node whose parents are all different
      succeeds and reads, for every relation, exactly the samples its lags name. */
  lemma ResolveAtStep(parents: seq<nat>, child: nat, pos: nat, order: seq<nat>, lb: Loopbacks,
                      bufs: seq<seq<Sample>>, nLevel: seq<int>, t: nat)
    requires ParentsInRange(parents, bufs, nLevel) && Distinct(parents)
    requires StepReady(parents, child, pos, order, lb, bufs, t)
    ensures Resolve(parents, child, pos, order, lb, bufs, nLevel).Success?
    ensures Resolve(parents, child, pos, order, lb, bufs, nLevel).value.values
         == StepValuesAll(parents, child, pos, order, lb, bufs, t)
  {
    ResolveDistinctParents(parents, child, pos, order, lb, lb, bufs, nLevel);
    ResolveEachAtStep(parents, child, pos, order, lb, bufs, nLevel, t);
  }

  lemma {:induction false} ResolveEachAtStep(parents: seq<nat>, child: nat, pos: nat,
                                             order: seq<nat>, lb: Loopbacks,
                                             bufs: seq<seq<Sample>>, nLevel: seq<int>, t: nat)
    requires ParentsInRange(parents, bufs, nLevel)
    requires StepReady(parents, child, pos, order, lb, bufs, t)
    ensures ResolveEach(parents, child, pos, order, lb, bufs, nLevel).Success?
    ensures ResolveEach(parents, child, pos, order, lb, bufs, nLevel).value.values
         == StepValuesAll(parents, child, pos, order, lb, bufs, t)
    decreases |parents|
  {
    if parents != [] {
      var jj := parents[0];
      assert forall k :: 0 <= k < |parents| - 1 ==> parents[1..][k] == parents[k + 1];
      ContributionAtStep(jj, child, pos, order, lb, bufs[jj], t);
      ResolveEachAtStep(parents[1..], child, pos, order, lb, bufs, nLevel, t);
    }
  }

  /** The worked examples: an earlier parent with lags [2] reads the sample from exactly two
      steps back; an at-or-after parent with lags [1] reads its latest completed sample. */
  lemma LagExamples(buf: seq<Sample>, t: nat)
    requires t >= 2 && |buf| == t + 1
    ensures LaggedReads(buf, [2], true) == Success([LevelOf(buf[t - 2])])
    ensures LaggedReads(buf[..t], [1], false) == Success([LevelOf(buf[t - 1])])
  {
    SingleLagRead(buf, 2, true);
    SingleLagRead(buf[..t], 1, false);
  }

  /** The lag-0 quirk: for a parent at or after the child, lag 0 becomes subscript `-0`,
      which is the first sample of the series rather than a sample of this step. */
  lemma LagZeroAtOrAfterReadsFirst(buf: seq<Sample>)
    requires |buf| >= 1
    ensures LaggedReads(buf, [0], false) == Success([LevelOf(buf[0])])
  {
    SingleLagRead(buf, 0, false);
  }
}
