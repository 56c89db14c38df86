/** The composite CPD index: `Level_multiplied` builds the mixed-radix place values of the
    discrete parents' level counts, and `continous_cpd` folds the 1-based parent values
    into one 0-based row index. */
module MixedRadix {

  /** `reduce(lambda x, y: x * y, s)`, with the empty product taken as 1. */
  function Product(s: seq<int>): int {
    if s == [] then 1 else s[0] * Product(s[1..])
  }

  /** The place values `continous_cpd` multiplies by: entry `i` is the product of the
      level counts after position `i`; with no level at all the list is `[1]`. */
  function Multipliers(levels: seq<int>): seq<int>
  {
    if levels == [] then [1]
    else seq(|levels|, i requires 0 <= i < |levels| => Product(levels[i + 1..]))
  }

  /** `sum((v - 1) * m for v, m in zip(values, mults))`; `zip` stops at the shorter list. */
  function WeightedSum(values: seq<int>, mults: seq<int>): int
  {
    if values == [] || mults == [] then 0
    else (values[0] - 1) * mults[0] + WeightedSum(values[1..], mults[1..])
  }

  /** The row index `continous_cpd` returns for parent values `values` whose level counts
      are `levels`. */
  function CompositeIndex(values: seq<int>, levels: seq<int>): int
  {
    WeightedSum(values, Multipliers(levels))
  }

  /** `list.insert(i, x)` for a non-negative position: past the end it appends. */
  function PyInsert(s: seq<int>, i: nat, x: int): (r: seq<int>)
    ensures |r| == |s| + 1
    ensures i >= |s| ==> r == s + [x]
  {
    if i >= |s| then s + [x] else s[..i] + [x] + s[i..]
  }

  /** `Level_multiplied`: one product per position, the leading one dropped, then a 1
      inserted at position `len(levels)`, which is past the end and so appended. */
  method LevelMultiplied(levels: seq<int>) returns (mult: seq<int>)
    ensures |levels| == 0 ==> mult == [1]
    ensures |levels| > 0 ==> |mult| == |levels|
    ensures forall i :: 0 <= i < |levels| ==> mult[i] == Product(levels[i + 1..])
    ensures mult[|mult| - 1] == 1
    ensures mult == Multipliers(levels)
  {
    mult := [];
    var temp := levels;
    for ii := 0 to |levels|
      invariant temp == levels[ii..]
      invariant |mult| == ii
      invariant forall k :: 0 <= k < ii ==> mult[k] == Product(levels[k..])
    {
      var a1 := Product(temp);
      mult := mult + [a1];
      temp := temp[1..];
    }
    mult := if mult == [] then [] else mult[1..];
    assert forall i :: 0 <= i < |mult| ==> mult[i] == Product(levels[i + 1..]);
    mult := PyInsert(mult, |levels|, 1);
    assert levels != [] ==> levels[|levels|..] == [];
  }

  /** Every value is a 1-based level within its parent's level count. */
  ghost predicate InRange(values: seq<int>, levels: seq<int>) {
    |values| == |levels| && forall i :: 0 <= i < |values| ==> 1 <= values[i] <= levels[i]
  }

  ghost predicate Positive(levels: seq<int>) {
    forall i :: 0 <= i < |levels| ==> levels[i] >= 1
  }

  lemma {:induction false} ProductPositive(levels: seq<int>)
    requires Positive(levels)
    ensures Product(levels) >= 1
  {
    if levels != [] {
      ProductPositive(levels[1..]);
      MulAtLeast(levels[0], Product(levels[1..]));
    }
  }

  lemma MulAtLeast(a: int, b: int)
    requires a >= 1 && b >= 1
    ensures a * b >= b
  {
    assert a * b == (a - 1) * b + b;
  }

  /** Unfolding `continous_cpd` once: the first parent's value weighs the product of all
      later level counts. */
  lemma CompositeIndexCons(values: seq<int>, levels: seq<int>)
    requires |values| == |levels| >= 1
    ensures CompositeIndex(values, levels)
         == (values[0] - 1) * Product(levels[1..]) + CompositeIndex(values[1..], levels[1..])
  {
    var m := Multipliers(levels);
    assert m[0] == Product(levels[1..]);
    if |levels| == 1 {
      assert values[1..] == [] && levels[1..] == [] && m == [1] && m[1..] == [];
      assert WeightedSum(values[1..], m[1..]) == 0;
      assert CompositeIndex([], []) == WeightedSum([], [1]) == 0;
    } else {
      assert m[1..] == Multipliers(levels[1..]) by {
        forall i | 0 <= i < |levels| - 1
          ensures m[1..][i] == Multipliers(levels[1..])[i]
        {
          assert levels[1..][i + 1..] == levels[i + 2..];
        }
      }
    }
  }

  /** For values within their level counts the index selects a row in `[0, prod(levels))`. */
  lemma {:induction false} CompositeIndexBounds(values: seq<int>, levels: seq<int>)
    requires InRange(values, levels)
    ensures 0 <= CompositeIndex(values, levels) < Product(levels)
  {
    if levels == [] {
      assert values == [];
    } else {
      CompositeIndexCons(values, levels);
      var p := Product(levels[1..]);
      var rest := CompositeIndex(values[1..], levels[1..]);
      CompositeIndexBounds(values[1..], levels[1..]);
      assert 0 <= (values[0] - 1) * p <= (levels[0] - 1) * p by {
        MulMonotone(values[0] - 1, levels[0] - 1, p);
      }
      assert (levels[0] - 1) * p + p == levels[0] * p;
    }
  }

  lemma MulMonotone(a: int, b: int, c: int)
    requires 0 <= a <= b && c >= 0
    ensures 0 <= a * c <= b * c
  {
    assert b * c == a * c + (b - a) * c;
  }

  lemma DivModUnique(q: int, r: int, d: int)
    requires d > 0 && 0 <= r < d
    ensures (q * d + r) / d == q && (q * d + r) % d == r
  {
    var x := q * d + r;
    var k := q - x / d;
    assert k * d == x % d - r;
    if k >= 1 {
      MulAtLeast(k, d);
    } else if k <= -1 {
      MulAtLeast(-k, d);
    }
  }

  lemma QuotientBelow(x: int, p: int, l: int)
    requires p >= 1 && 0 <= x < l * p
    ensures 0 <= x / p < l
  {
    if x / p >= l {
      MulMonotone(l, x / p, p);
    }
  }

  /** The inverse of the composite index: the 1-based value vector a row index stands for. */
  function Decode(index: int, levels: seq<int>): (values: seq<int>)
    requires Positive(levels)
    ensures |values| == |levels|
    decreases |levels|
  {
    if levels == [] then []
    else
      ProductPositive(levels[1..]);
      var p := Product(levels[1..]);
      [index / p + 1] + Decode(index % p, levels[1..])
  }

  /** Round trip: decoding the index of in-range values gives back those values. */
  lemma {:induction false} DecodeCompositeIndex(values: seq<int>, levels: seq<int>)
    requires InRange(values, levels)
    ensures Positive(levels) && Decode(CompositeIndex(values, levels), levels) == values
  {
    if levels != [] {
      CompositeIndexCons(values, levels);
      ProductPositive(levels[1..]);
      var p := Product(levels[1..]);
      var rest := CompositeIndex(values[1..], levels[1..]);
      CompositeIndexBounds(values[1..], levels[1..]);
      DivModUnique(values[0] - 1, rest, p);
      DecodeCompositeIndex(values[1..], levels[1..]);
    }
  }

  /** Every row of a table with `prod(levels)` rows is the index of exactly the decoded values. */
  lemma CompositeIndexDecode(index: int, levels: seq<int>)
    requires Positive(levels) && 0 <= index < Product(levels)
    ensures InRange(Decode(index, levels), levels)
    ensures CompositeIndex(Decode(index, levels), levels) == index
  {
    DecodeInRange(index, levels);
    DecodeIndex(index, levels);
  }

  /** Decoding a row below `prod(levels)` gives values within their level counts. */
  lemma {:induction false} DecodeInRange(index: int, levels: seq<int>)
    requires Positive(levels) && 0 <= index < Product(levels)
    ensures InRange(Decode(index, levels), levels)
  {
    if levels != [] {
      ProductPositive(levels[1..]);
      var p := Product(levels[1..]);
      DivModDecompose(index, p);
      DecodeInRange(index % p, levels[1..]);
      QuotientBelow(index, p, levels[0]);
      DecodeUnfold(index, levels);
      InRangeCons(index / p + 1, Decode(index % p, levels[1..]), levels);
    }
  }

  /** Encoding the decoded values of a row gives the row back. */
  lemma {:induction false} DecodeIndex(index: int, levels: seq<int>)
    requires Positive(levels) && 0 <= index < Product(levels)
    ensures CompositeIndex(Decode(index, levels), levels) == index
  {
    if levels != [] {
      ProductPositive(levels[1..]);
      var p := Product(levels[1..]);
      DivModDecompose(index, p);
      DecodeIndex(index % p, levels[1..]);
      DecodeStep(index, levels);
    }
  }

  /** One level of the decoding: the leading value weighs `prod(levels[1:])` and the rest
      encodes the remainder's decoding. */
  lemma DecodeStep(index: int, levels: seq<int>)
    requires Positive(levels) && levels != []
    ensures Product(levels[1..]) >= 1
    ensures CompositeIndex(Decode(index, levels), levels)
         == (index / Product(levels[1..])) * Product(levels[1..])
            + CompositeIndex(Decode(index % Product(levels[1..]), levels[1..]), levels[1..])
  {
    ProductPositive(levels[1..]);
    var p := Product(levels[1..]);
    DecodeUnfold(index, levels);
    IndexOfCons(index / p, Decode(index % p, levels[1..]), levels);
  }

  lemma DecodeUnfold(index: int, levels: seq<int>)
    requires Positive(levels) && levels != []
    ensures Product(levels[1..]) >= 1
    ensures Decode(index, levels) == [index / Product(levels[1..]) + 1] + Decode(index % Product(levels[1..]), levels[1..])
  {
    ProductPositive(levels[1..]);
  }

  /** The weight of a leading value `q + 1`. */
  lemma IndexOfCons(q: int, rest: seq<int>, levels: seq<int>)
    requires |rest| + 1 == |levels|
    ensures CompositeIndex([q + 1] + rest, levels) == q * Product(levels[1..]) + CompositeIndex(rest, levels[1..])
  {
    var values := [q + 1] + rest;
    assert values[0] - 1 == q && values[1..] == rest;
    CompositeIndexCons(values, levels);
  }

  lemma DivModDecompose(x: int, p: int)
    requires p > 0
    ensures x == (x / p) * p + x % p && 0 <= x % p < p
  {
  }

  lemma InRangeCons(x: int, rest: seq<int>, levels: seq<int>)
    requires |levels| >= 1 && 1 <= x <= levels[0] && InRange(rest, levels[1..])
    ensures InRange([x] + rest, levels)
  {
    var values := [x] + rest;
    forall i | 1 <= i < |values|
      ensures 1 <= values[i] <= levels[i]
    {
      assert values[i] == rest[i - 1] && levels[i] == levels[1..][i - 1];
    }
  }

  /** Distinct in-range parent assignments select distinct CPD rows. */
  lemma CompositeIndexInjective(v1: seq<int>, v2: seq<int>, levels: seq<int>)
    requires InRange(v1, levels) && InRange(v2, levels)
    requires CompositeIndex(v1, levels) == CompositeIndex(v2, levels)
    ensures v1 == v2
  {
    DecodeCompositeIndex(v1, levels);
    DecodeCompositeIndex(v2, levels);
  }

  /** With no discrete parent the place values are `[1]` and the index is 0; levels [2, 3]
      map values [1, 2] to row 1 and values [2, 3] to row 5. */
  lemma CompositeIndexExamples()
    ensures Multipliers([]) == [1] && CompositeIndex([], []) == 0
    ensures Multipliers([2, 3]) == [3, 1]
    ensures CompositeIndex([1, 2], [2, 3]) == 1
    ensures CompositeIndex([2, 3], [2, 3]) == 5
  {
    assert [2, 3][1..] == [3] && [2, 3][2..] == [];
    assert Multipliers([2, 3]) == [3, 1];
  }

  /** `zip` truncation: values beyond the last level count do not affect the index. */
  lemma {:induction false} ExtraValuesIgnored(values: seq<int>, mults: seq<int>)
    requires |values| >= |mults|
    ensures WeightedSum(values, mults) == WeightedSum(values[..|mults|], mults)
  {
    if mults != [] {
      assert values[..|mults|][1..] == values[1..][..|mults| - 1];
      ExtraValuesIgnored(values[1..], mults[1..]);
    }
  }
}
