/** The phase schedule of one series: step 0 is the initial phase, the steps of
    `range(1, switch)` the recurring phase and the steps of `range(switch, T)` the secondary
    recurring phase; `switch` is the largest lag of the secondary loopback dictionary, or
    `custom_time` when that is non-zero. */
module Schedule {
  import opened Wrappers
  import opened BnTypes

  /** `len(range(lo, hi))`. */
  function RangeLen(lo: int, hi: int): nat {
    if hi > lo then hi - lo else 0
  }

  function Repeat<T>(x: T, n: nat): (r: seq<T>)
    ensures |r| == n && forall i :: 0 <= i < n ==> r[i] == x
  {
    seq(n, _ => x)
  }

  /** The phase tags `BN_sample_gen_loopback` serves in one series, one per step. */
  function GenSchedule(T: int, switch: int): (r: seq<PhaseTag>)
    ensures |r| >= 1
    ensures forall t :: 0 <= t < |r| ==> (r[t] == Initial <==> t == 0)
  {
    [Initial] + Repeat(Recurring, RangeLen(1, switch)) + Repeat(Secondary, RangeLen(switch, T))
  }

  /** The phase tags `BN_data_gen` serves in one series: `range(1, T)` recurring steps. */
  function DataGenSchedule(T: int): (r: seq<PhaseTag>)
    ensures |r| >= 1
    ensures forall t :: 0 <= t < |r| ==> (r[t] == Initial <==> t == 0)
    ensures Secondary !in r
  {
    [Initial] + Repeat(Recurring, RangeLen(1, T))
  }

  /** The switch point: `custom_time` when non-zero, otherwise the largest declared lag. */
  function SwitchPoint(customTime: int, maxLag: int): (r: int)
    ensures r == 0 <==> customTime == 0 && maxLag == 0
  {
    if customTime == 0 then maxLag else customTime
  }

  /** The phase `BN_sample_gen_loopback`'s loops give step `t`: `Initial_sample` at 0,
      `BN_sample` for the steps of `range(1, switch)` and `BN_sample_loopback` for those of
      `range(switch, T)`. */
  function PhaseAt(t: nat, switch: int): PhaseTag {
    if t == 0 then Initial else if t < switch then Recurring else Secondary
  }

  function Max0(x: int): nat {
    if x > 0 then x else 0
  }

  /** One step per tag: the initial step, `switch - 1` recurring steps when positive and
      `T - switch` secondary steps when positive. */
  lemma GenScheduleLength(T: int, switch: int)
    ensures |GenSchedule(T, switch)| == 1 + Max0(switch - 1) + Max0(T - switch)
  {
  }

  /** With `1 <= switch <= T` a series has exactly `T` steps, and step `t` is served by
      `Initial_sample` when it is 0, by `BN_sample` when it is below `switch` and by
      `BN_sample_loopback` otherwise. */
  lemma GenScheduleMatchesPhases(T: int, switch: int)
    requires 1 <= switch <= T
    ensures |GenSchedule(T, switch)| == T
    ensures forall t :: 0 <= t < T ==> GenSchedule(T, switch)[t] == PhaseAt(t, switch)
  {
    var s := GenSchedule(T, switch);
    var a := Repeat(Recurring, RangeLen(1, switch));
    var b := Repeat(Secondary, RangeLen(switch, T));
    forall t | 0 <= t < T
      ensures s[t] == PhaseAt(t, switch)
    {
      if t == 0 {
      } else if t < switch {
        assert s[t] == a[t - 1];
      } else {
        assert s[t] == b[t - switch];
      }
    }
  }

  /** Outside `1 <= switch <= T` a series is longer than `T`: with all lags 0 the switch
      point is 0 and an extra step is taken; a switch point beyond `T` adds recurring
      steps up to it. */
  lemma GenScheduleOverrun()
    ensures |GenSchedule(5, 0)| == 6
    ensures |GenSchedule(5, 7)| == 7
  {
  }

  /** `BN_data_gen` serves the recurring phase after the first step and gives a series of
      `T` steps whenever `T >= 1`. */
  lemma DataGenScheduleShape(T: int)
    ensures |DataGenSchedule(T)| == if T >= 1 then T else 1
    ensures forall t :: 1 <= t < |DataGenSchedule(T)| ==> DataGenSchedule(T)[t] == Recurring
    ensures DataGenSchedule(T)[0] == Initial
  {
  }

  /** One more step of the same phase. */
  lemma RepeatSnoc<T>(x: T, n: nat)
    ensures Repeat(x, n) + [x] == Repeat(x, n + 1)
  {
  }

  /** `n` series, each served the phases of `schedule`. */
  function Cycle(schedule: seq<PhaseTag>, n: nat): (r: seq<PhaseTag>)
    ensures |r| == n * |schedule|
  {
    if n == 0 then [] else Cycle(schedule, n - 1) + schedule
  }

  /** The largest element of a non-empty list. */
  function SeqMax(s: seq<int>): (r: int)
    requires s != []
    ensures r in s && forall x :: x in s ==> x <= r
  {
    if |s| == 1 then s[0]
    else
      var m := SeqMax(s[1..]);
      assert forall x :: x in s ==> x == s[0] || x in s[1..];
      if s[0] >= m then s[0] else m
  }

  /** `max(sum(loopbacks2.values(), []))`: the largest declared lag over all relations,
      taken one relation at a time; ValueError when no relation declares a lag. */
  method MaxLag(lb: Loopbacks) returns (r: Result<int, Error>)
    ensures r.Failure? <==> forall key :: key in lb ==> lb[key] == []
    ensures r.Failure? ==> r.error == NoLags
    ensures r.Success? ==> exists key :: key in lb && r.value in lb[key]
    ensures r.Success? ==> forall key, x :: key in lb && x in lb[key] ==> x <= r.value
  {
    var rest := lb.Keys;
    var found := false;
    var best := 0;
    while rest != {}
      invariant rest <= lb.Keys
      invariant found <==> exists key :: key in lb.Keys - rest && lb[key] != []
      invariant found ==> exists key :: key in lb.Keys - rest && best in lb[key]
      invariant forall key, x :: key in lb.Keys - rest && x in lb[key] ==> x <= best
      decreases rest
    {
      var key :| key in rest;
      var lags := lb[key];
      if lags != [] {
        var m := SeqMax(lags);
        if !found || m > best {
          best := m;
        }
        found := true;
      }
      rest := rest - {key};
    }
    if found {
      r := Success(best);
    } else {
      r := Failure(NoLags);
    }
  }
}
