/** The values the sampling engine works on: node types, buffer entries, CPD entries,
    phase configurations and the errors the engine can raise. */
module BnTypes {

  /** `Node_Type` entries: 'D' (discrete) or 'C' (continuous). */
  datatype NodeType = Discrete | Continuous

  /** One entry of a node's sample buffer `Node[ii]`: a 1-based level for a discrete
      node, an (opaque) real for a continuous one. */
  datatype Sample = Level(level: int) | Value(x: real)

  /** What a CPD dictionary holds under one context key: an unconditional categorical
      distribution, a table of distributions indexed by the composite parent index, or a
      linear-Gaussian record, whose contents are not modelled. */
  datatype CpdEntry =
    | Distribution(probs: seq<real>)
    | Table(rows: seq<seq<real>>)
    | Regression

  /** A CPD dictionary, keyed by the concatenated parent-and-node string. */
  type Cpd = map<string, CpdEntry>

  /** A loopback dictionary: key `str(parent) + str(child)` to the list of declared lags. */
  type Loopbacks = map<string, seq<int>>

  /** A parent dictionary: `str(node id)` to the node's ordered parent list. */
  type ParentMap = map<string, seq<nat>>

  /** The configuration of one phase: `Parent`/`CPD`, `Parent2`/`CPD2` or `Parent3`/`CPD3`. */
  datatype Phase = Phase(parents: ParentMap, cpd: Cpd)

  /** The phase selector `flag`: 0 (initial), 1 (recurring), 2 (secondary recurring). */
  datatype PhaseTag = Initial | Recurring | Secondary

  /** The exceptions the engine can raise. */
  datatype Error =
    | ContinuousParentOfDiscrete  // the exception raised by Valid_BN
    | IndexOutOfRange             // IndexError on a sample buffer, on Role or on a CPD table
    | NotInOrder                  // ValueError from top_order.index
    | MissingParentList           // KeyError on a parent dictionary
    | MissingCpdEntry             // KeyError on a CPD dictionary
    | MalformedCpdEntry           // a CPD entry of the wrong shape for the draw
    | EmptyDistribution           // no category to draw from
    | NoLags                      // ValueError from max() over no declared lag
    | NoOrder                     // AttributeError: top_order read before DAG_ordering ran
    | UndefinedName               // NameError: a name read before any assignment binds it

  /** Every listed parent is a node id below `n`. */
  ghost predicate ParentIdsBelow(parents: ParentMap, n: nat) {
    forall key, k :: key in parents && 0 <= k < |parents[key]| ==> parents[key][k] < n
  }
}
