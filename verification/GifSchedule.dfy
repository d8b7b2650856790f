/** The frame scheduler of an animated image: it picks the coarsest refresh interval whose loss of frames is
    tolerable and lists, tick by tick, which frame is on screen. Times are real numbers. */
module GifSchedule {
  import opened Options

  const FACTORS: seq<int> := [60, 30, 20, 15, 12, 10, 6, 5, 4, 3, 2, 1]
  const MAX_FRAMES_PER_SECOND := 60

  /** Seconds per tick for the i-th refresh factor. */
  function TickTime(i: nat): (r: real)
    requires i < |FACTORS|
    ensures r > 0.0
  {
    1.0 / (MAX_FRAMES_PER_SECOND / FACTORS[i]) as real
  }

  /** Conversion to an integer drops the fraction. */
  function Truncate(x: real): (n: int)
    ensures x >= 0.0 ==> n >= 0 && n as real <= x < (n + 1) as real
    ensures x < 0.0 ==> n <= 0 && (n - 1) as real < x <= n as real
  {
    if x >= 0.0 then x.Floor else -(-x).Floor
  }

  // ---------------------------------------------------------------- specification

  function Sum(delays: seq<real>): real {
    if delays == [] then 0.0 else Sum(delays[..|delays| - 1]) + delays[|delays| - 1]
  }

  /** The tick at whose end each frame has been shown long enough. */
  function Positions(delays: seq<real>, i: nat): (pos: seq<int>)
    requires i < |FACTORS|
    ensures |pos| == |delays|
  {
    seq(|delays|, j requires 0 <= j < |delays| => Truncate(Sum(delays[..j + 1]) / TickTime(i)))
  }

  /** A frame whose position does not advance gets no tick. */
  predicate Skipped(pos: seq<int>, j: nat)
    requires j < |pos|
  {
    pos[j] == if j == 0 then 0 else pos[j - 1]
  }

  function Lost(pos: seq<int>, n: nat): nat
    requires n <= |pos|
  {
    if n == 0 then 0 else Lost(pos, n - 1) + if Skipped(pos, n - 1) then 1 else 0
  }

  /** At most the share 1 - level of n frames. */
  predicate WithinShare(lost: nat, n: nat, level: real) {
    lost as real <= n as real * (1.0 - level)
  }

  predicate Tolerable(delays: seq<real>, level: real, i: nat)
    requires i < |FACTORS|
  {
    WithinShare(Lost(Positions(delays, i), |delays|), |delays|, level)
  }

  /** The first factor in the list that loses few enough frames, or the last one. */
  predicate Chooses(delays: seq<real>, level: real, i: nat) {
    && i < |FACTORS|
    && (i == |FACTORS| - 1 || Tolerable(delays, level, i))
    && forall k :: 0 <= k < i ==> !Tolerable(delays, level, k)
  }

  function LastOf(pos: seq<int>): Option<int> {
    if pos == [] then None else Some(pos[|pos| - 1])
  }

  function Ticks(pos: seq<int>): nat {
    if pos == [] || pos[|pos| - 1] < 0 then 0 else pos[|pos| - 1]
  }

  /** The first frame from j on that stays on screen until tick t or later. */
  function FirstReaching(pos: seq<int>, t: int, j: nat): (k: nat)
    requires j < |pos| && t <= pos[|pos| - 1]
    ensures j <= k < |pos| && t <= pos[k] && forall m :: j <= m < k ==> pos[m] < t
    decreases |pos| - j
  {
    if t <= pos[j] then j else FirstReaching(pos, t, j + 1)
  }

  /** Tick t shows the first frame whose position has not been passed. */
  function Schedule(pos: seq<int>): (order: seq<nat>)
    ensures |order| == Ticks(pos)
  {
    seq(Ticks(pos), t requires 0 <= t < Ticks(pos) => FirstReaching(pos, t + 1, 0))
  }

  // ---------------------------------------------------------------- the scheduler

  class GifImage {
    var imageCount: Option<int>
    var displayRefreshFactor: Option<int>
    var displayOrder: Option<seq<nat>>

    constructor ()
      ensures imageCount == None && displayRefreshFactor == None && displayOrder == None
    {
      imageCount, displayRefreshFactor, displayOrder := None, None, None;
    }

    /** The delays become the times at which each frame ends. */
    method Accumulate(delays: array<real>)
      modifies delays
      ensures forall j :: 0 <= j < delays.Length ==> delays[j] == Sum(old(delays[..])[..j + 1])
    {
      ghost var was := delays[..];
      if delays.Length > 0 { assert was[..1] == [was[0]] && Sum(was[..1]) == Sum([]) + was[0]
          by { assert was[..1][..0] == []; } }
      var i := 1;
      while i < delays.Length
        invariant 1 <= i && (delays.Length > 0 ==> i <= delays.Length)
        invariant forall j :: 0 <= j < i && j < delays.Length ==> delays[j] == Sum(was[..j + 1])
        invariant forall j :: i <= j < delays.Length ==> delays[j] == was[j]
      {
        assert was[..i + 1][..i] == was[..i];
        delays[i] := delays[i] + delays[i - 1];
        i := i + 1;
      }
    }

    method CountLost(pos: seq<int>) returns (lost: nat)
      ensures lost == Lost(pos, |pos|)
    {
      lost := 0;
      var j := 1;
      ghost var first := if |pos| > 0 && pos[0] == 0 then 1 else 0;
      while j < |pos|
        invariant 1 <= j && (|pos| > 0 ==> j <= |pos| && lost + first == Lost(pos, j))
        invariant |pos| == 0 ==> lost == 0
      {
        if pos[j] == pos[j - 1] { lost := lost + 1; }
        j := j + 1;
      }
      if |pos| > 0 && pos[0] == 0 { lost := lost + 1; }
    }

    /** The loop that merges ticks and frames: one of the two indices advances in every round. */
    method FillOrder(pos: seq<int>)
      modifies `displayOrder
      ensures displayOrder == Some(Schedule(pos))
    {
      var order: seq<nat> := [];
      var oldIndex, newIndex := 0, 1;
      var count := if pos == [] then 0 else pos[|pos| - 1];
      while newIndex <= count && oldIndex < |pos|
        invariant 0 <= oldIndex <= |pos| && newIndex == |order| + 1 && |order| <= Ticks(pos)
        invariant forall m :: 0 <= m < oldIndex ==> pos[m] < newIndex
        invariant order == Schedule(pos)[..|order|]
        decreases Ticks(pos) - |order| + |pos| - oldIndex
      {
        if newIndex <= pos[oldIndex] {
          assert Schedule(pos)[|order|] == oldIndex;
          order := order + [oldIndex];
          newIndex := newIndex + 1;
        } else {
          oldIndex := oldIndex + 1;
        }
      }
      assert order == Schedule(pos);
      displayOrder := Some(order);
    }

    /** calculateFrameDelay. */
    method CalculateFrameDelay(delaysArray: seq<real>, levelOfIntegrity: real) returns (ghost chosen: nat)
      modifies this
      ensures levelOfIntegrity < 0.0 ==> Chooses(delaysArray, 0.0, chosen)
      ensures levelOfIntegrity > 1.0 ==> Chooses(delaysArray, 1.0, chosen)
      ensures 0.0 <= levelOfIntegrity <= 1.0 ==> Chooses(delaysArray, levelOfIntegrity, chosen)
      ensures displayRefreshFactor == Some(FACTORS[chosen])
      ensures imageCount == LastOf(Positions(delaysArray, chosen))
      ensures displayOrder == Some(Schedule(Positions(delaysArray, chosen)))
      ensures NonNegative(delaysArray) ==> KeepsTime(delaysArray, displayRefreshFactor.value, displayOrder.value)
    {
      hide TickTime, Truncate, Sum, Lost, Schedule, WithinShare, KeepsTime;
      var level := if levelOfIntegrity < 0.0 then 0.0 else if levelOfIntegrity > 1.0 then 1.0 else levelOfIntegrity;
      var delays := new real[|delaysArray|](j requires 0 <= j < |delaysArray| => delaysArray[j]);
      assert delays[..] == delaysArray;
      Accumulate(delays);
      var i := 0;
      while true
        invariant 0 <= i < |FACTORS|
        invariant forall j :: 0 <= j < delays.Length ==> delays[j] == Sum(delaysArray[..j + 1])
        invariant forall k :: 0 <= k < i ==> !Tolerable(delaysArray, level, k)
        decreases |FACTORS| - i
      {
        var pos := seq(delays.Length,
            j requires 0 <= j < delays.Length reads delays => Truncate(delays[j] / TickTime(i)));
        assert pos == Positions(delaysArray, i);
        var lost := CountLost(pos);
        if WithinShare(lost, |pos|, level) || i == |FACTORS| - 1 {
          imageCount := LastOf(pos);
          displayRefreshFactor := Some(FACTORS[i]);
          FillOrder(pos);
          if NonNegative(delaysArray) { ScheduleKeepsTime(delaysArray, i); }
          return i;
        }
        i := i + 1;
      }
    }
  }

  // ---------------------------------------------------------------- what a schedule guarantees

  predicate NonNegative(delays: seq<real>) {
    forall j :: 0 <= j < |delays| ==> delays[j] >= 0.0
  }

  /** Positions start at or after 0 and never go back. */
  predicate Ascending(pos: seq<int>) {
    (|pos| > 0 ==> pos[0] >= 0) && forall j :: 0 < j < |pos| ==> pos[j - 1] <= pos[j]
  }

  lemma {:induction false} SumNonNegative(delays: seq<real>)
    requires NonNegative(delays)
    ensures Sum(delays) >= 0.0
  {
    if delays != [] { SumNonNegative(delays[..|delays| - 1]); }
  }

  lemma QuotientGrows(a: real, b: real, d: real)
    requires 0.0 <= a <= b && d > 0.0
    ensures 0 <= Truncate(a / d) <= Truncate(b / d)
  {
    assert b / d - a / d == (b - a) / d;
    assert (b - a) / d >= 0.0 && a / d >= 0.0;
  }

  lemma PositionsAscend(delays: seq<real>, i: nat)
    requires NonNegative(delays) && i < |FACTORS|
    ensures Ascending(Positions(delays, i))
  {
    var pos := Positions(delays, i);
    forall j | 0 <= j < |pos| ensures pos[j] >= 0 && (j > 0 ==> pos[j - 1] <= pos[j]) {
      SumNonNegative(delays[..j + 1]);
      SumNonNegative(delays[..j]);
      assert delays[..j + 1][..j] == delays[..j];
      QuotientGrows(Sum(delays[..j]), Sum(delays[..j + 1]), TickTime(i));
    }
  }

  lemma {:induction false} AscendingFrom(pos: seq<int>, j: nat, k: nat)
    requires Ascending(pos) && j <= k < |pos|
    ensures 0 <= pos[j] <= pos[k]
    decreases k - j, j
  {
    if j < k { AscendingFrom(pos, j, k - 1); } else if j > 0 { AscendingFrom(pos, j - 1, j - 1); }
  }

  /** Where the ticks of frame j begin. */
  function StartOf(pos: seq<int>, j: nat): int
    requires j < |pos|
  {
    if j == 0 then 0 else pos[j - 1]
  }

  /** The schedule never goes back to an earlier frame. */
  lemma ScheduleAscends(pos: seq<int>, s: nat, t: nat)
    requires s <= t < Ticks(pos)
    ensures Schedule(pos)[s] <= Schedule(pos)[t] < |pos|
  {
  }

  function Min(a: int, b: int): int {
    if a < b then a else b
  }

  /** Tick t belongs to frame j when it comes after the frame's start and not after its position. */
  lemma TickBelongs(pos: seq<int>, j: nat, t: nat)
    requires Ascending(pos) && j < |pos| && 0 < t <= Ticks(pos)
    ensures Schedule(pos)[t - 1] == j <==> StartOf(pos, j) < t <= pos[j]
    ensures 0 <= StartOf(pos, j) <= pos[j]
  {
    var k := FirstReaching(pos, t, 0);
    assert Schedule(pos)[t - 1] == k;
    AscendingFrom(pos, j, j);
    if j > 0 { AscendingFrom(pos, j - 1, j); }
    if k < j { AscendingFrom(pos, k, j - 1); }
  }

  lemma {:induction false} ShownSoFar(pos: seq<int>, j: nat, t: nat)
    requires Ascending(pos) && j < |pos| && t <= Ticks(pos)
    ensures multiset(Schedule(pos)[..t])[j] == Min(t, pos[j]) - Min(t, StartOf(pos, j))
  {
    hide Ascending;
    var order := Schedule(pos);
    if t > 0 {
      ShownSoFar(pos, j, t - 1);
      assert order[..t] == order[..t - 1] + [order[t - 1]];
      TickBelongs(pos, j, t);
    } else {
      assert order[..0] == [];
      AscendingFrom(pos, j, j);
      if j > 0 { AscendingFrom(pos, j - 1, j - 1); }
    }
  }

  /** Frame j is on screen for exactly as many ticks as its position advances. */
  lemma FrameGetsItsTicks(pos: seq<int>, j: nat)
    requires Ascending(pos) && j < |pos|
    ensures multiset(Schedule(pos))[j] == pos[j] - StartOf(pos, j)
  {
    var order := Schedule(pos);
    ShownSoFar(pos, j, Ticks(pos));
    assert order[..Ticks(pos)] == order;
    AscendingFrom(pos, j, |pos| - 1);
    if j > 0 { AscendingFrom(pos, j - 1, |pos| - 1); }
  }

  /** The frames among the first n that get no tick. */
  function NeverShown(order: seq<nat>, n: nat): set<nat> {
    set j: nat | j < n && j !in order
  }

  /** The number the scheduler calls lost is the number of frames that are never shown. */
  lemma {:induction false} LostAreNeverShown(pos: seq<int>, n: nat)
    requires Ascending(pos) && n <= |pos|
    ensures Lost(pos, n) == |NeverShown(Schedule(pos), n)|
  {
    var order := Schedule(pos);
    if n == 0 {
      assert NeverShown(order, 0) == {};
    } else {
      LostAreNeverShown(pos, n - 1);
      FrameGetsItsTicks(pos, n - 1);
      assert n - 1 in multiset(order) <==> n - 1 in order;
      assert NeverShown(order, n) == NeverShown(order, n - 1) + if Skipped(pos, n - 1) then {n - 1} else {};
    }
  }

  /** Whether the schedule for a factor hides at most the tolerated share of the frames. */
  predicate HidesFew(delays: seq<real>, level: real, i: nat)
    requires i < |FACTORS|
  {
    |NeverShown(Schedule(Positions(delays, i)), |delays|)| as real <= |delays| as real * (1.0 - level)
  }

  lemma TolerableHidesFew(delays: seq<real>, level: real, i: nat)
    requires NonNegative(delays) && i < |FACTORS|
    ensures Tolerable(delays, level, i) <==> HidesFew(delays, level, i)
  {
    hide TickTime, Truncate, Sum, Lost, Schedule, Ascending, NeverShown;
    PositionsAscend(delays, i);
    LostAreNeverShown(Positions(delays, i), |delays|);
  }

  lemma FactorsDescend(i: nat, k: nat)
    requires i < |FACTORS| && k < |FACTORS| && FACTORS[i] > FACTORS[k]
    ensures i < k
  {
  }

  /** For non-negative delays the chosen factor is the largest listed one whose schedule hides at most the
      tolerated share of the frames, or 1 if there is none. Its schedule has imageCount ticks, never goes
      back, and shows every frame for its share of them. */
  lemma ScheduleGuarantee(delays: seq<real>, level: real, chosen: nat)
    requires delays != [] && NonNegative(delays) && Chooses(delays, level, chosen)
    ensures HidesFew(delays, level, chosen) || FACTORS[chosen] == 1
    ensures forall i :: 0 <= i < |FACTORS| && FACTORS[i] > FACTORS[chosen] ==> !HidesFew(delays, level, i)
    ensures var pos := Positions(delays, chosen); var order := Schedule(pos);
            && LastOf(pos) == Some(|order|)
            && (forall s, t :: 0 <= s <= t < |order| ==> order[s] <= order[t])
            && (forall j :: 0 <= j < |delays| ==> multiset(order)[j] == pos[j] - StartOf(pos, j))
  {
    hide TickTime, Truncate, Sum, Lost, Schedule, Tolerable, HidesFew, NeverShown;
    TolerableHidesFew(delays, level, chosen);
    forall i | 0 <= i < |FACTORS| && FACTORS[i] > FACTORS[chosen] ensures !HidesFew(delays, level, i) {
      TolerableHidesFew(delays, level, i);
      FactorsDescend(i, chosen);
    }
    var pos := Positions(delays, chosen);
    var order := Schedule(pos);
    PositionsAscend(delays, chosen);
    AscendingFrom(pos, |pos| - 1, |pos| - 1);
    forall s, t | 0 <= s <= t < |order| ensures order[s] <= order[t] { ScheduleAscends(pos, s, t); }
    forall j | 0 <= j < |delays| ensures multiset(order)[j] == pos[j] - StartOf(pos, j) { FrameGetsItsTicks(pos, j); }
  }

  // ---------------------------------------------------------------- the schedule keeps time

  /** The listed factors are the divisors of 60. */
  lemma FactorsAreDivisors(k: nat)
    requires k > 0
    ensures k in FACTORS <==> 60 % k == 0
  {
    if 60 % k == 0 {
      var q := 60 / k;
      assert k * q == 60;
      if k > 7 { assert q <= 7; }
    }
  }

  /** How many ticks show one of the frames 0 to j. */
  function TicksUpTo(order: seq<nat>, j: nat): nat {
    if order == [] then 0
    else TicksUpTo(order[..|order| - 1], j) + if order[|order| - 1] <= j then 1 else 0
  }

  /** What p ticks take of k sixtieths of a second each, in sixtieths of a second. */
  function Duration(p: int, k: int): real {
    p as real * k as real
  }

  /** With a tick of k sixtieths of a second, the frames up to j have as many ticks as fit into their delays. */
  predicate KeepsTime(delays: seq<real>, k: int, order: seq<nat>) {
    forall j :: 0 <= j < |delays| ==>
      var p := TicksUpTo(order, j);
      Duration(p, k) <= 60.0 * Sum(delays[..j + 1]) < Duration(p + 1, k)
  }

  lemma {:induction false} TicksUpToPosition(pos: seq<int>, j: nat, t: nat)
    requires Ascending(pos) && j < |pos| && t <= Ticks(pos)
    ensures TicksUpTo(Schedule(pos)[..t], j) == Min(t, pos[j])
  {
    hide Ascending;
    var order := Schedule(pos);
    AscendingFrom(pos, j, j);
    if t > 0 {
      TicksUpToPosition(pos, j, t - 1);
      assert order[..t][..t - 1] == order[..t - 1];
      var k := FirstReaching(pos, t, 0);
      assert order[..t][t - 1] == k;
      if k <= j { AscendingFrom(pos, k, j); }
    }
  }

  /** A tick takes a whole number of sixtieths of a second. */
  lemma TickIsSixtieths(i: nat)
    requires i < |FACTORS|
    ensures 60.0 * TickTime(i) == FACTORS[i] as real
  {
    var k := FACTORS[i];
    var q := 60 / k;
    assert q * k == 60;
    assert q as real * k as real == 60.0;
  }

  lemma TimesGrows(a: real, b: real, c: real)
    requires a < b && c > 0.0
    ensures a * c < b * c
  {
  }

  lemma Scaled(x: real, d: real, q: real, r: real)
    requires d > 0.0 && q == x / d && r == 60.0 * d
    ensures 60.0 * x == q * r
  {
    assert q * d == x;
    assert q * r == 60.0 * (q * d);
  }

  lemma DurationGrows(p: int, k: int, q: real)
    requires k > 0
    ensures p as real <= q ==> Duration(p, k) <= q * k as real
    ensures q < p as real ==> q * k as real < Duration(p, k)
  {
    if p as real < q { TimesGrows(p as real, q, k as real); }
    if q < p as real { TimesGrows(q, p as real, k as real); }
  }

  lemma RoundedDown(x: real, d: real, k: int, p: int)
    requires x >= 0.0 && d > 0.0 && 60.0 * d == k as real && p == Truncate(x / d)
    ensures Duration(p, k) <= 60.0 * x < Duration(p + 1, k)
  {
    hide Duration;
    var q := x / d;
    assert q >= 0.0;
    Scaled(x, d, q, k as real);
    DurationGrows(p, k, q);
    DurationGrows(p + 1, k, q);
  }

  /** For non-negative delays every frame ends on time or less than a tick early. */
  lemma ScheduleKeepsTime(delays: seq<real>, i: nat)
    requires NonNegative(delays) && i < |FACTORS|
    ensures KeepsTime(delays, FACTORS[i], Schedule(Positions(delays, i)))
  {
    hide Schedule, TickTime, Truncate, Ascending, TicksUpTo, Duration;
    var pos := Positions(delays, i);
    var order := Schedule(pos);
    PositionsAscend(delays, i);
    TickIsSixtieths(i);
    forall j | 0 <= j < |delays|
      ensures var p := TicksUpTo(order, j);
              Duration(p, FACTORS[i]) <= 60.0 * Sum(delays[..j + 1]) < Duration(p + 1, FACTORS[i])
    {
      TicksUpToPosition(pos, j, Ticks(pos));
      AscendingFrom(pos, j, |pos| - 1);
      assert order[..Ticks(pos)] == order;
      SumNonNegative(delays[..j + 1]);
      RoundedDown(Sum(delays[..j + 1]), TickTime(i), FACTORS[i], pos[j]);
    }
  }
}
