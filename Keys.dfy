/** The string keys of the CPD and loopback dictionaries: `str`, `int_to_str` and the
    concatenations built from them. */
module Keys {

  function Digit(d: nat): (c: char)
    requires d < 10
    ensures '0' <= c <= '9'
  {
    ('0' as int + d) as char
  }

  function DigitValue(c: char): nat {
    if '0' <= c <= '9' then c as int - '0' as int else 0
  }

  /** `str(n)` for a non-negative integer: its decimal digits, most significant first. */
  function NatToStr(n: nat): (s: string)
    ensures |s| >= 1
    ensures forall k :: 0 <= k < |s| ==> '0' <= s[k] <= '9'
  {
    if n < 10 then [Digit(n)] else NatToStr(n / 10) + [Digit(n % 10)]
  }

  /** `int(s)` for a string of decimal digits: the inverse of `NatToStr`. */
  function ParseNat(s: string): nat {
    if s == [] then 0 else ParseNat(s[..|s| - 1]) * 10 + DigitValue(s[|s| - 1])
  }

  lemma {:induction false} ParseNatToStr(n: nat)
    ensures ParseNat(NatToStr(n)) == n
  {
    if n >= 10 {
      var s := NatToStr(n);
      assert s[..|s| - 1] == NatToStr(n / 10);
      ParseNatToStr(n / 10);
    }
  }

  lemma NatToStrInjective(a: nat, b: nat)
    ensures NatToStr(a) == NatToStr(b) ==> a == b
  {
    ParseNatToStr(a);
    ParseNatToStr(b);
  }

  /** `int_to_str(List)`: the `str` of each element, concatenated. */
  function IntToStr(xs: seq<nat>): (r: string)
    ensures r == "" <==> xs == []
    ensures |r| >= |xs|
    ensures forall k :: 0 <= k < |r| ==> '0' <= r[k] <= '9'
  {
    if xs == [] then "" else NatToStr(xs[0]) + IntToStr(xs[1..])
  }

  lemma {:induction false} IntToStrAppend(xs: seq<nat>, ys: seq<nat>)
    ensures IntToStr(xs + ys) == IntToStr(xs) + IntToStr(ys)
  {
    if xs != [] {
      assert (xs + ys)[0] == xs[0] && (xs + ys)[1..] == xs[1..] + ys;
      IntToStrAppend(xs[1..], ys);
      assert IntToStr(xs + ys) == NatToStr(xs[0]) + (IntToStr(xs[1..]) + IntToStr(ys));
    } else {
      assert xs + ys == ys;
    }
  }

  /** `int_to_str` is not injective: `[1, 11]` and `[11, 1]` give the same key. */
  lemma IntToStrNotInjective()
    ensures IntToStr([1, 11]) == IntToStr([11, 1]) == "111"
  {
    assert NatToStr(1) == "1";
    assert NatToStr(11) == NatToStr(1) + [Digit(1)] == "11";
    assert IntToStr([1, 11]) == "1" + IntToStr([11]);
    assert IntToStr([11, 1]) == "11" + IntToStr([1]);
  }

  /** The CPD context key of a node: `int_to_str(parents) + str(node)`. */
  function ContextKey(parents: seq<nat>, node: nat): (r: string)
    ensures |r| >= |parents| + 1
    ensures forall k :: 0 <= k < |r| ==> '0' <= r[k] <= '9'
  {
    IntToStr(parents) + NatToStr(node)
  }

  /** The loopback key of a relation: `int_to_str(parent) + str(child)`; `int_to_str` of a
      single integer splits it into digits and joins them back, which is `str(parent)`. */
  function LoopbackKey(parent: nat, child: nat): (r: string)
    ensures |r| >= 2
    ensures forall k :: 0 <= k < |r| ==> '0' <= r[k] <= '9'
  {
    NatToStr(parent) + NatToStr(child)
  }

  /** For one child, distinct parents have distinct loopback keys. */
  lemma LoopbackKeyInjective(a: nat, b: nat, child: nat)
    ensures LoopbackKey(a, child) == LoopbackKey(b, child) ==> a == b
  {
    if LoopbackKey(a, child) == LoopbackKey(b, child) {
      var s := NatToStr(child);
      assert |NatToStr(a)| == |NatToStr(b)|;
      assert NatToStr(a) == LoopbackKey(a, child)[..|NatToStr(a)|];
      assert NatToStr(b) == LoopbackKey(b, child)[..|NatToStr(b)|];
      NatToStrInjective(a, b);
    }
  }

  /** Across children the keys collide: relation 1 -> 11 and relation 11 -> 1 share "111". */
  lemma LoopbackKeyCollision()
    ensures LoopbackKey(1, 11) == LoopbackKey(11, 1) == "111"
  {
    assert NatToStr(1) == "1";
    assert NatToStr(11) == NatToStr(1) + [Digit(1)] == "11";
  }
}
