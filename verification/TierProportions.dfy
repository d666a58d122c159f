/** The three-segment context bar (components/agents/TierProportionBar.tsx), over real numbers. */
module TierProportions {

  const MIN_SEGMENT: int := 5
  const MAX_SEGMENT_END: int := 95

  datatype Weights = Weights(hot: real, warm: real, facts: real)

  datatype Percents = Percents(hot: int, warm: int, facts: int)

  datatype Handle = HotWarm | WarmFacts

  /** Math.round: halves go up. */
  function Round(x: real): int { (x + 0.5).Floor }

  function Clamp(n: real, min: real, max: real): real {
    var low := if max <= n then max else n;
    if min >= low then min else low
  }

  function Sum(v: Weights): real { v.hot + v.warm + v.facts }

  function Share(part: real, sum: real): real
    requires sum != 0.0
  {
    part / sum * 100.0
  }

  /** normaliseToHundred: the facts segment takes what rounding leaves. */
  function Normalise(v: Weights): Percents {
    if Sum(v) <= 0.0 then Percents(60, 25, 15)
    else
      var hot := Round(Share(v.hot, Sum(v)));
      var warm := Round(Share(v.warm, Sum(v)));
      Percents(hot, warm, 100 - hot - warm)
  }

  function Lowest(handle: Handle, p: Percents): int {
    if handle.HotWarm? then MIN_SEGMENT else p.hot + MIN_SEGMENT
  }

  function Highest(handle: Handle, p: Percents): int {
    if handle.HotWarm? then 100 - p.facts - MIN_SEGMENT else MAX_SEGMENT_END
  }

  /** The bar with the handle's boundary at position `at`; the tier away from the handle stays. */
  function PlaceAt(handle: Handle, at: int, p: Percents): Percents {
    if handle.HotWarm? then Percents(at, 100 - at - p.facts, p.facts)
    else Percents(p.hot, at - p.hot, 100 - at)
  }

  /** updateAt. */
  function UpdateAt(handle: Handle, end: real, p: Percents): Percents {
    PlaceAt(handle, Round(Clamp(end, Lowest(handle, p) as real, Highest(handle, p) as real)), p)
  }

  predicate Valid(p: Percents) {
    p.hot + p.warm + p.facts == 100 && p.hot >= MIN_SEGMENT && p.warm >= MIN_SEGMENT && p.facts >= MIN_SEGMENT
  }

  function Third(handle: Handle, p: Percents): int { if handle.HotWarm? then p.facts else p.hot }

  function Boundary(handle: Handle, p: Percents): int { if handle.HotWarm? then p.hot else p.hot + p.warm }

  function AsWeights(p: Percents): Weights { Weights(p.hot as real, p.warm as real, p.facts as real) }

  function Distance(a: real, b: real): real { if a >= b then a - b else b - a }

  // ---------- Normalising ----------

  lemma RoundIsNear(x: real)
    ensures Round(x) as real - 0.5 <= x < Round(x) as real + 0.5
  {
  }

  lemma SharesAddUp(v: Weights)
    requires Sum(v) > 0.0
    ensures Share(v.hot, Sum(v)) + Share(v.warm, Sum(v)) + Share(v.facts, Sum(v)) == 100.0
    ensures v.facts >= 0.0 <==> Share(v.facts, Sum(v)) >= 0.0
    ensures v.facts == 0.0 <==> Share(v.facts, Sum(v)) == 0.0
  {
    var s := Sum(v);
    assert v.hot / s + v.warm / s + v.facts / s == (v.hot + v.warm + v.facts) / s == 1.0;
    assert v.facts / s * s == v.facts;
  }

  /** The percents are integers that sum to exactly 100, hot and warm within one half and facts within one
      of the exact share. */
  lemma NormaliseIsClose(v: Weights)
    requires Sum(v) > 0.0
    ensures var p, s := Normalise(v), Sum(v);
            && p.hot + p.warm + p.facts == 100
            && Distance(p.hot as real, Share(v.hot, s)) <= 0.5
            && Distance(p.warm as real, Share(v.warm, s)) <= 0.5
            && Distance(p.facts as real, Share(v.facts, s)) <= 1.0
  {
    SharesAddUp(v);
    RoundIsNear(Share(v.hot, Sum(v)));
    RoundIsNear(Share(v.warm, Sum(v)));
  }

  /** Whatever the weights, the percents sum to 100; without a positive sum they are the defaults. */
  lemma PercentsAddUp(v: Weights)
    ensures var p := Normalise(v);
            p.hot + p.warm + p.facts == 100 && (v.hot + v.warm + v.facts <= 0.0 ==> p == Percents(60, 25, 15))
  {
  }

  /** For weights that are not negative, no percent is negative but facts, which can only be -1, and is so
      exactly when there are no facts and the other two shares both end in one half. */
  lemma OnlyFactsCanBeNegative(v: Weights)
    requires v.hot >= 0.0 && v.warm >= 0.0 && v.facts >= 0.0 && Sum(v) > 0.0
    ensures var p, hot := Normalise(v), Share(v.hot, Sum(v));
            && p.hot >= 0 && p.warm >= 0 && p.facts >= -1
            && (p.facts == -1 <==> v.facts == 0.0 && hot - hot.Floor as real == 0.5)
  {
    SharesAddUp(v);
    var s := Sum(v);
    var h, w := Share(v.hot, s), Share(v.warm, s);
    NonNegativeShare(v.hot, s);
    NonNegativeShare(v.warm, s);
    if v.facts == 0.0 && h - h.Floor as real == 0.5 {
      assert w == (99 - h.Floor) as real + 0.5;
      assert Round(h) == h.Floor + 1 && Round(w) == 100 - h.Floor;
    }
    if Normalise(v).facts == -1 {
      assert Round(h) as real + Round(w) as real == 101.0;
      assert h == Round(h) as real - 0.5;
      assert h.Floor == Round(h) - 1;
    }
  }

  lemma NonNegativeShare(part: real, sum: real)
    requires part >= 0.0 && sum > 0.0
    ensures Share(part, sum) >= 0.0
  {
    assert part / sum >= 0.0;
  }

  /** One half of hot and warm each in odd percents: facts comes out as -1. */
  lemma FactsReachesMinusOne()
    ensures Normalise(Weights(101.0, 99.0, 0.0)) == Percents(51, 50, -1)
  {
    assert Share(101.0, 200.0) == 50.5 && Share(99.0, 200.0) == 49.5;
  }

  /** Integer percents that sum to 100 are left as they are. */
  lemma NormaliseFixesPercents(p: Percents)
    requires p.hot + p.warm + p.facts == 100
    ensures Normalise(AsWeights(p)) == p
  {
    assert Sum(AsWeights(p)) == 100.0;
    assert Share(p.hot as real, 100.0) == p.hot as real;
    assert Share(p.warm as real, 100.0) == p.warm as real;
  }

  // ---------- Moving a handle ----------

  lemma RoundOfInt(n: int)
    ensures Round(n as real) == n
  {
  }

  lemma RoundMonotone(x: real, y: real)
    requires x <= y
    ensures Round(x) <= Round(y)
  {
  }

  /** A move gives a valid bar if and only if the tier it leaves alone has between 5 and 90 percent. */
  lemma MoveIsValidIff(handle: Handle, end: real, p: Percents)
    requires p.hot + p.warm + p.facts == 100
    ensures Valid(UpdateAt(handle, end, p)) <==> MIN_SEGMENT <= Third(handle, p) <= 100 - 2 * MIN_SEGMENT
    ensures Third(handle, UpdateAt(handle, end, p)) == Third(handle, p)
  {
    var low, high := Lowest(handle, p), Highest(handle, p);
    RoundOfInt(low);
    RoundOfInt(high);
    var at := Clamp(end, low as real, high as real);
    RoundMonotone(low as real, at);
    if low <= high { RoundMonotone(at, high as real); }
  }

  /** The handle lands as near to the pointer as any valid position with the third tier in place. */
  lemma MoveIsNearest(handle: Handle, end: real, p: Percents, other: int)
    requires Valid(p) && Valid(PlaceAt(handle, other, p))
    ensures var moved := UpdateAt(handle, end, p);
            && Valid(moved)
            && Distance(Boundary(handle, moved) as real, end) <= Distance(other as real, end)
  {
    MoveIsValidIff(handle, end, p);
    var low, high := Lowest(handle, p), Highest(handle, p);
    assert low <= other <= high;
    var at := Clamp(end, low as real, high as real);
    RoundOfInt(low);
    RoundOfInt(high);
    RoundIsNear(at);
    if at == end {
      var r := Round(at);
      assert other <= r - 1 || other == r || other >= r + 1;
    }
  }

  // ---------- Histories ----------

  /** A pointer drag to a position of the bar, or an arrow key of 1 or 5 percent. */
  datatype Move = Drag(handle: Handle, x: real) | Nudge(handle: Handle, up: bool, shift: bool)

  function Step(n: Move): int
    requires n.Nudge?
  {
    (if n.up then 1 else -1) * (if n.shift then 5 else 1)
  }

  /** The component normalises its value, applies the move and hands the result back as its value. */
  function Next(v: Weights, m: Move): Weights {
    var p := Normalise(v);
    match m
    case Drag(handle, x) => AsWeights(UpdateAt(handle, Clamp(x, 0.0, 100.0), p))
    case Nudge(handle, _, _) => AsWeights(UpdateAt(handle, (Boundary(handle, p) + Step(m)) as real, p))
  }

  function Play(v: Weights, moves: seq<Move>): Weights
    decreases |moves|
  {
    if moves == [] then v else Play(Next(v, moves[0]), moves[1..])
  }

  lemma MoveKeepsValid(p: Percents, m: Move)
    requires Valid(p)
    ensures var q := Normalise(Next(AsWeights(p), m));
            && Next(AsWeights(p), m) == AsWeights(q) && Valid(q)
            && Third(m.handle, q) == Third(m.handle, p)
  {
    NormaliseFixesPercents(p);
    var end := match m
      case Drag(_, x) => Clamp(x, 0.0, 100.0)
      case Nudge(handle, _, _) => (Boundary(handle, p) + Step(m)) as real;
    MoveIsValidIff(m.handle, end, p);
    NormaliseFixesPercents(UpdateAt(m.handle, end, p));
  }

  /** Wherever the pointer is dragged, in the bar or out of it, the boundary lands at least as near to it as in any
      valid bar with the same third tier. */
  lemma DragsLandNearest(p: Percents, handle: Handle, x: real, other: Percents) returns (q: Percents)
    requires Valid(p) && Valid(other) && Third(handle, other) == Third(handle, p)
    ensures Next(AsWeights(p), Drag(handle, x)) == AsWeights(q) && Valid(q) && Third(handle, q) == Third(handle, p)
    ensures Distance(Boundary(handle, q) as real, x) <= Distance(Boundary(handle, other) as real, x)
  {
    var end := Clamp(x, 0.0, 100.0);
    q := UpdateAt(handle, end, p);
    NormaliseFixesPercents(p);
    assert other == PlaceAt(handle, Boundary(handle, other), p);
    MoveIsValidIff(handle, end, p);
    MoveIsNearest(handle, end, p, Boundary(handle, other));
    BoundaryInside(handle, q);
    BoundaryInside(handle, other);
    if x < 0.0 {
      assert Distance(Boundary(handle, q) as real, 0.0) <= Distance(Boundary(handle, other) as real, 0.0);
    } else if x > 100.0 {
      assert Distance(Boundary(handle, q) as real, 100.0) <= Distance(Boundary(handle, other) as real, 100.0);
    }
  }

  lemma BoundaryInside(handle: Handle, p: Percents)
    requires Valid(p)
    ensures 0.0 <= Boundary(handle, p) as real <= 100.0
  {
  }

  /** From a valid bar every history of drags and key presses leads to a valid bar, which normalising
      leaves as it is; and a tier that no handle of the history touches keeps its percent. */
  lemma {:induction false} EveryHistoryStaysValid(p: Percents, moves: seq<Move>)
    requires Valid(p)
    ensures var q := Normalise(Play(AsWeights(p), moves));
            && Play(AsWeights(p), moves) == AsWeights(q) && Valid(q)
            && ((forall m | m in moves :: m.handle.HotWarm?) ==> q.facts == p.facts)
            && ((forall m | m in moves :: m.handle.WarmFacts?) ==> q.hot == p.hot)
    decreases |moves|
  {
    NormaliseFixesPercents(p);
    if moves != [] {
      MoveKeepsValid(p, moves[0]);
      assert moves == [moves[0]] + moves[1..];
      EveryHistoryStaysValid(Normalise(Next(AsWeights(p), moves[0])), moves[1..]);
    }
  }

  /** An arrow key and its opposite cancel if and only if the first press was not cut off at a limit, or
      the handle stood at the opposite limit, where the second press is cut off too. */
  lemma OppositeNudgesCancelIff(p: Percents, handle: Handle, up: bool, shift: bool)
    requires Valid(p)
    ensures var there := Nudge(handle, up, shift);
            var back := Nudge(handle, !up, shift);
            Next(Next(AsWeights(p), there), back) == AsWeights(p)
            <==> Lowest(handle, p) <= Boundary(handle, p) + Step(there) <= Highest(handle, p)
                 || Boundary(handle, p) == if up then Lowest(handle, p) else Highest(handle, p)
  {
    var there, back := Nudge(handle, up, shift), Nudge(handle, !up, shift);
    var q := NudgeLands(p, there);
    var r := NudgeLands(q, back);
    var low, high := Lowest(handle, p), Highest(handle, p);
    assert Lowest(handle, q) == low && Highest(handle, q) == high;
    SameBoundary(handle, r, p);
    assert Step(back) == -Step(there);
    ThereAndBack(Boundary(handle, p), Step(there), low, high);
    AsWeightsInjective(r, p);
  }

  lemma SameBoundary(handle: Handle, r: Percents, p: Percents)
    requires Valid(r) && Valid(p) && Third(handle, r) == Third(handle, p)
    ensures r == p <==> Boundary(handle, r) == Boundary(handle, p)
  {
  }

  function Within(x: int, low: int, high: int): int { if x < low then low else if x > high then high else x }

  lemma ThereAndBack(x: int, step: int, low: int, high: int)
    requires low <= x <= high && step != 0
    ensures Within(Within(x + step, low, high) - step, low, high) == x
            <==> low <= x + step <= high || x == if step > 0 then low else high
  {
  }

  lemma AsWeightsInjective(p: Percents, q: Percents)
    ensures AsWeights(p) == AsWeights(q) <==> p == q
  {
    NumbersInjective(p.hot, q.hot);
    NumbersInjective(p.warm, q.warm);
    NumbersInjective(p.facts, q.facts);
  }

  lemma NumbersInjective(m: int, n: int)
    ensures m as real == n as real <==> m == n
  {
  }

  /** Where a key press puts the boundary: one step on, or at the limit. */
  lemma NudgeLands(p: Percents, m: Move) returns (q: Percents)
    requires Valid(p) && m.Nudge?
    ensures Next(AsWeights(p), m) == AsWeights(q) && Valid(q)
    ensures Third(m.handle, q) == Third(m.handle, p)
    ensures var jump := if m.shift then 5 else 1;
            var target := Boundary(m.handle, p) + if m.up then jump else -jump;
            var low, high := Lowest(m.handle, p), Highest(m.handle, p);
            Boundary(m.handle, q) == Within(target, low, high)
  {
    q := Normalise(Next(AsWeights(p), m));
    MoveKeepsValid(p, m);
    NormaliseFixesPercents(p);
    var target := Boundary(m.handle, p) + Step(m);
    var low, high := Lowest(m.handle, p), Highest(m.handle, p);
    RoundOfInt(low);
    RoundOfInt(high);
    RoundOfInt(target);
    var moved := UpdateAt(m.handle, target as real, p);
    NormaliseFixesPercents(moved);
    assert low <= high;
  }
}
