/** A gradient's colour stops, fixed up before they are drawn: each where it is, in order, hints made stops. */
module Gradient {
  import opened Optional

  type Channel = n: nat | n < 256

  datatype Color = Color(alpha: Channel, red: Channel, green: Channel, blue: Channel)

  datatype Place = Point(value: real) | Percent(value: real) | Auto

  /** A stop as it is declared; a hint has no colour. */
  datatype ColorStop = ColorStop(color: Option<Color>, place: Place)

  datatype Stop = Stop(color: Option<Color>, position: Option<real>)

  function Max(a: real, b: real): real { if a < b then b else a }

  function Over(a: real, b: real): real
    requires b != 0.0
  {
    a / b
  }

  function Times(a: real, b: real): real { a * b }

  function Resolve(place: Place, length: real): Option<real>
    requires length > 0.0
  {
    match place
    case Point(value) => Some(Over(value, length))
    case Percent(value) => Some(Over(value, 100.0))
    case Auto => None
  }

  /** A percentage is that share of the gradient line's length. */
  lemma PercentOfLength(value: real, length: real)
    requires length > 0.0
    ensures Resolve(Percent(value), length) == Resolve(Point(value * length / 100.0), length)
    ensures Resolve(Percent(100.0), length) == Some(1.0) == Resolve(Point(length), length)
  {
    var share := Over(value, 100.0);
    ShareOfLength(share, length);
    ShareOfLength(1.0, length);
    assert share * 100.0 == value;
    Hundredth(value, share, length);
    var at := value * length / 100.0;
    SameOver(at, share * length, length);
  }

  lemma SameOver(a: real, b: real, c: real)
    requires a == b && c != 0.0
    ensures Over(a, c) == Over(b, c)
  {
  }

  lemma Hundredth(value: real, share: real, length: real)
    requires value == share * 100.0
    ensures value * length / 100.0 == share * length
  {
  }

  lemma ShareOfLength(share: real, length: real)
    requires length > 0.0
    ensures Over(share * length, length) == share
  {
  }

  /** A stop's own position; the first is at 0 and the last at 1 unless they say. */
  function Own(stops: seq<ColorStop>, i: nat, length: real): Option<real>
    requires i < |stops| && length > 0.0
  {
    var position := Resolve(stops[i].place, length);
    if position.Some? then position else if i == 0 then Some(0.0) else if i == |stops| - 1 then Some(1.0) else None
  }

  /** The furthest any of the first stops is. */
  function Furthest(stops: seq<ColorStop>, n: nat, length: real): real
    requires 0 < n <= |stops| && length > 0.0
  {
    if n == 1 then Own(stops, 0, length).value
    else
      var before := Furthest(stops, n - 1, length);
      if Own(stops, n - 1, length).None? then before else Max(Own(stops, n - 1, length).value, before)
  }

  /** A stop that says where it is, never before one before it. */
  function Kept(stops: seq<ColorStop>, i: nat, length: real): Stop
    requires i < |stops| && length > 0.0
  {
    Stop(stops[i].color, if Own(stops, i, length).None? then None else Some(Furthest(stops, i + 1, length)))
  }

  /** Positions given are in order. */
  predicate Ordered(fixed: seq<Stop>) {
    forall i, j :: 0 <= i <= j < |fixed| && fixed[i].position.Some? && fixed[j].position.Some? ==>
      fixed[i].position.value <= fixed[j].position.value
  }

  predicate Positioned(fixed: seq<Stop>) { forall i :: 0 <= i < |fixed| ==> fixed[i].position.Some? }

  lemma {:induction false} FurthestGrows(stops: seq<ColorStop>, m: nat, n: nat, length: real)
    requires 0 < m <= n <= |stops| && length > 0.0
    ensures Furthest(stops, m, length) <= Furthest(stops, n, length)
    decreases n
  {
    if m < n { FurthestGrows(stops, m, n - 1, length); }
  }

  lemma KeptOrdered(stops: seq<ColorStop>, fixed: seq<Stop>, length: real)
    requires length > 0.0 && |fixed| == |stops| && forall i :: 0 <= i < |stops| ==> fixed[i] == Kept(stops, i, length)
    ensures Ordered(fixed)
  {
    forall i, j | 0 <= i <= j < |fixed| && fixed[i].position.Some? && fixed[j].position.Some?
      ensures fixed[i].position.value <= fixed[j].position.value
    {
      FurthestGrows(stops, i + 1, j + 1, length);
    }
  }

  // Positions missing.

  function Between(start: real, end: real, j: nat, n: nat): real
    requires n > 0
  {
    start + Times(Over(end - start, n as real), j as real)
  }

  /** The nearest stop positioned at or before `i`. */
  function Before(fixed: seq<Stop>, i: nat): (a: nat)
    requires i < |fixed| && fixed[0].position.Some?
    ensures a <= i && fixed[a].position.Some? && forall k :: a < k <= i ==> fixed[k].position.None?
  {
    if fixed[i].position.Some? then i else Before(fixed, i - 1)
  }

  /** The nearest at or after it. */
  function After(fixed: seq<Stop>, i: nat): (b: nat)
    requires i < |fixed| && fixed[|fixed| - 1].position.Some?
    ensures i <= b < |fixed| && fixed[b].position.Some? && forall k :: i <= k < b ==> fixed[k].position.None?
    decreases |fixed| - i
  {
    if fixed[i].position.Some? then i else After(fixed, i + 1)
  }

  predicate EndsPositioned(fixed: seq<Stop>) {
    fixed == [] || (fixed[0].position.Some? && fixed[|fixed| - 1].position.Some?)
  }

  /** Between two stops positioned, those not are spread evenly. */
  function Spread(fixed: seq<Stop>, i: nat): Stop
    requires i < |fixed| && EndsPositioned(fixed)
  {
    if fixed[i].position.Some? then fixed[i]
    else
      var a, b := Before(fixed, i), After(fixed, i);
      fixed[i].(position := Some(Between(fixed[a].position.value, fixed[b].position.value, i - a, b - a)))
  }

  function SpreadAll(fixed: seq<Stop>): (out: seq<Stop>)
    requires EndsPositioned(fixed)
    ensures |out| == |fixed| && forall i :: 0 <= i < |fixed| ==> out[i] == Spread(fixed, i)
  {
    seq(|fixed|, i requires 0 <= i < |fixed| => Spread(fixed, i))
  }

  /** Every stop is where it is, none before one before it. */
  predicate Sorted(out: seq<Stop>) {
    Positioned(out) && forall i, j :: 0 <= i <= j < |out| ==> out[i].position.value <= out[j].position.value
  }

  lemma SpreadIn(fixed: seq<Stop>, a: nat, b: nat, k: nat)
    requires a < b < |fixed| && EndsPositioned(fixed) && a <= k <= b && fixed[a].position.Some? &&
      fixed[b].position.Some?
    requires forall i :: a < i < b ==> fixed[i].position.None?
    ensures Spread(fixed, k).position == Some(Between(fixed[a].position.value, fixed[b].position.value, k - a, b - a))
  {
    var start, end := fixed[a].position.value, fixed[b].position.value;
    var step := Over(end - start, (b - a) as real);
    assert Times(step, 0.0) == 0.0 && Times(step, (b - a) as real) == end - start;
  }

  lemma SpreadNext(fixed: seq<Stop>, i: nat)
    requires i + 1 < |fixed| && EndsPositioned(fixed) && Ordered(fixed)
    ensures Spread(fixed, i).position.Some? && Spread(fixed, i + 1).position.Some?
    ensures Spread(fixed, i).position.value <= Spread(fixed, i + 1).position.value
  {
    var a, b := Before(fixed, i), After(fixed, i + 1);
    SpreadIn(fixed, a, b, i);
    SpreadIn(fixed, a, b, i + 1);
    BetweenOrder(fixed[a].position.value, fixed[b].position.value, i - a, i + 1 - a, b - a);
  }

  lemma SpreadSorted(fixed: seq<Stop>)
    requires EndsPositioned(fixed) && Ordered(fixed)
    ensures Sorted(SpreadAll(fixed))
  {
    var out := SpreadAll(fixed);
    forall i | 0 <= i < |out| ensures out[i].position.Some? {
      assert out[i] == Spread(fixed, i);
    }
    forall i, j | 0 <= i <= j < |out| ensures out[i].position.value <= out[j].position.value {
      SpreadUpTo(fixed, i, j);
    }
  }

  lemma {:induction false} SpreadUpTo(fixed: seq<Stop>, i: nat, j: nat)
    requires i <= j < |fixed| && EndsPositioned(fixed) && Ordered(fixed)
    ensures Spread(fixed, i).position.Some? && Spread(fixed, j).position.Some?
    ensures Spread(fixed, i).position.value <= Spread(fixed, j).position.value
    decreases j
  {
    if i < j {
      SpreadUpTo(fixed, i, j - 1);
      SpreadNext(fixed, j - 1);
    }
  }

  lemma BetweenOrder(start: real, end: real, j: nat, k: nat, n: nat)
    requires n > 0 && j <= k <= n && start <= end
    ensures start <= Between(start, end, j, n) <= Between(start, end, k, n) <= end
  {
    var step := Over(end - start, n as real);
    assert step >= 0.0;
    assert Times(step, n as real) == end - start;
    TimesOrder(step, 0.0, j as real);
    TimesOrder(step, j as real, k as real);
    TimesOrder(step, k as real, n as real);
    assert Times(step, 0.0) == 0.0;
  }

  lemma TimesOrder(a: real, b: real, c: real)
    requires a >= 0.0 && b <= c
    ensures Times(a, b) <= Times(a, c)
  {
    assert a * (c - b) >= 0.0;
  }

  // Hints.

  const NEAR := 0.00001

  function Distance(a: real, b: real): real { if a < b then b - a else a - b }

  predicate Equal(a: real, b: real) { Distance(a, b) < NEAR }

  /** How far a stop a hint leaves is blended towards the colour on its right. */
  type Share = t: real | 0.0 <= t <= 1.0

  /** pow(relative, log 0.5 / log ratio), of where the stop is between the two colours and where the hint is. */
  type Weighting = (real, real) -> Share

  lemma MixBounds(a: real, b: real, t: Share)
    ensures a <= b ==> a <= a + Times(b - a, t) <= b
    ensures b <= a ==> b <= a + Times(b - a, t) <= a
  {
    if a <= b {
      TimesOrder(b - a, 0.0, t);
      TimesOrder(b - a, t, 1.0);
      assert Times(b - a, 0.0) == 0.0 && Times(b - a, 1.0) == b - a;
    } else {
      TimesOrder(a - b, 0.0, t);
      TimesOrder(a - b, t, 1.0);
      assert Times(a - b, 0.0) == 0.0 && Times(a - b, 1.0) == a - b;
      assert Times(b - a, t) == -Times(a - b, t);
    }
  }

  /** A channel between two others, rounded to the nearest. */
  function BlendChannel(a: Channel, b: Channel, t: Share): (c: Channel)
    ensures if a <= b then a <= c <= b else b <= c <= a
  {
    MixBounds(a as real, b as real, t);
    (a as real + Times((b - a) as real, t) + 0.5).Floor
  }

  function Blend(a: Color, b: Color, t: Share): Color {
    Color(BlendChannel(a.alpha, b.alpha, t), BlendChannel(a.red, b.red, t),
          BlendChannel(a.green, b.green, t), BlendChannel(a.blue, b.blue, t))
  }

  /** The whole number nearest to a share of the way between two, a half up. */
  predicate NearestShare(c: Channel, a: Channel, b: Channel, t: real) {
    c as real <= a as real + (b as real - a as real) * t + 0.5 < c as real + 1.0
  }

  /** Each channel of a blend is that of the same channel of both. */
  lemma BlendChannels(a: Color, b: Color, t: Share)
    ensures var c := Blend(a, b, t);
            NearestShare(c.alpha, a.alpha, b.alpha, t) && NearestShare(c.red, a.red, b.red, t) &&
            NearestShare(c.green, a.green, b.green, t) && NearestShare(c.blue, a.blue, b.blue, t)
  {
    hide Times;
    BlendNearest(a.alpha, b.alpha, t);
    BlendNearest(a.red, b.red, t);
    BlendNearest(a.green, b.green, t);
    BlendNearest(a.blue, b.blue, t);
  }

  lemma BlendNearest(a: Channel, b: Channel, t: Share)
    ensures NearestShare(BlendChannel(a, b, t), a, b, t)
  {
    assert (b - a) as real == b as real - a as real;
  }

  /** Where the k-th of the nine stops a hint leaves is: seven on its longer side, two on its shorter. */
  function HintAt(left: real, at: real, right: real, k: nat): real
    requires k < 9
  {
    var before, after := at - left, right - at;
    if before > after then
      if k <= 6 then left + Times(before, Over(7.0 + k as real, 13.0))
      else at + Times(after, Over((k - 6) as real, 3.0))
    else if k <= 1 then left + Times(before, Over((k + 1) as real, 3.0))
    else at + Times(after, Over((k - 2) as real, 13.0))
  }

  function HintColor(left: Stop, right: Stop, at: real, position: real, w: Weighting): Option<Color>
    requires left.position.Some? && right.position.Some? && left.position.value < right.position.value
  {
    if left.color.None? || right.color.None? then None
    else
      var total := right.position.value - left.position.value;
      var t := w(Over(position - left.position.value, total), Over(at - left.position.value, total));
      Some(Blend(left.color.value, right.color.value, t))
  }

  /** It is weighted by where the stop is between the two colours, given where the hint is. */
  lemma HintWeighted(left: Stop, right: Stop, at: real, position: real, w: Weighting)
    requires left.position.Some? && right.position.Some? && left.position.value < right.position.value
    requires left.color.Some? && right.color.Some?
    requires left.position.value <= position <= right.position.value
    ensures var total := right.position.value - left.position.value;
            var t := w((position - left.position.value) / total, (at - left.position.value) / total);
            var c := HintColor(left, right, at, position, w);
            c.Some? && NearestShare(c.value.red, left.color.value.red, right.color.value.red, t) &&
            NearestShare(c.value.green, left.color.value.green, right.color.value.green, t) &&
            NearestShare(c.value.blue, left.color.value.blue, right.color.value.blue, t) &&
            NearestShare(c.value.alpha, left.color.value.alpha, right.color.value.alpha, t)
  {
    hide NearestShare;
    var total := right.position.value - left.position.value;
    BlendChannels(left.color.value, right.color.value,
                  w((position - left.position.value) / total, (at - left.position.value) / total));
  }

  predicate Bracketed(left: Stop, hint: Stop, right: Stop) {
    left.position.Some? && hint.position.Some? && right.position.Some? &&
    left.position.value <= hint.position.value <= right.position.value
  }

  function HintStop(left: Stop, hint: Stop, right: Stop, w: Weighting, k: nat): Stop
    requires Bracketed(left, hint, right) && left.position.value < right.position.value && k < 9
  {
    var position := HintAt(left.position.value, hint.position.value, right.position.value, k);
    Stop(HintColor(left, right, hint.position.value, position, w), Some(position))
  }

  /** What a hint between two stops becomes: nothing in the middle, an edge beside one, nine stops elsewhere. */
  function Hint(left: Stop, hint: Stop, right: Stop, w: Weighting): (stops: seq<Stop>)
    requires Bracketed(left, hint, right)
  {
    var before, after := hint.position.value - left.position.value, right.position.value - hint.position.value;
    if Equal(before, after) then []
    else if Equal(before, 0.0) then [hint.(color := right.color)]
    else if Equal(after, 0.0) then [hint.(color := left.color)]
    else seq(9, k requires 0 <= k < 9 => HintStop(left, hint, right, w, k))
  }

  /** When it becomes which, in numbers. */
  lemma HintCases(left: Stop, hint: Stop, right: Stop, w: Weighting)
    requires Bracketed(left, hint, right)
    ensures var at := hint.position.value;
            var before, after := at - left.position.value, right.position.value - at;
            Hint(left, hint, right, w) ==
              if -0.00001 < before - after < 0.00001 then []
              else if before < 0.00001 then [Stop(right.color, Some(at))]
              else if after < 0.00001 then [Stop(left.color, Some(at))]
              else seq(9, k requires 0 <= k < 9 => HintStop(left, hint, right, w, k))
  {
  }

  /** The stops of a hint: thirteenths of its longer side and thirds of its shorter. */
  lemma HintShares(left: real, at: real, right: real, k: nat)
    requires k < 9
    ensures var s, before, after := HintAt(left, at, right, k), at - left, right - at;
            if before > after
            then
              if k < 7 then (s - left) * 13.0 == before * (k + 7) as real
              else (s - at) * 3.0 == after * (k - 6) as real
            else if k < 2 then (s - left) * 3.0 == before * (k + 1) as real
            else (s - at) * 13.0 == after * (k - 2) as real
  {
    HintAtNumbers(left, at, right, k);
  }

  lemma ShareOf(a: real, b: real, p: nat, q: nat)
    requires a <= b && 0 < q && p <= q
    ensures a <= a + Times(b - a, Over(p as real, q as real)) <= b
  {
    var t := Over(p as real, q as real);
    assert 0.0 <= t <= 1.0;
    MixBounds(a, b, t);
  }

  lemma ShareOrder(a: real, b: real, p: nat, r: nat, q: nat)
    requires a <= b && 0 < q && p <= r
    ensures a + Times(b - a, Over(p as real, q as real)) <= a + Times(b - a, Over(r as real, q as real))
  {
    assert Over(p as real, q as real) <= Over(r as real, q as real);
    TimesOrder(b - a, Over(p as real, q as real), Over(r as real, q as real));
  }

  /** A hint's stops are in order, between the two it is between. */
  lemma HintAtOrder(left: real, at: real, right: real, j: nat, k: nat)
    requires left <= at <= right && j <= k < 9
    ensures left <= HintAt(left, at, right, j) <= HintAt(left, at, right, k) <= right
  {
    HintAtNumbers(left, at, right, j);
    HintAtNumbers(left, at, right, k);
    if at - left > right - at {
      if k <= 6 {
        ShareOf(left, at, 7 + j, 13);
        ShareOf(left, at, 7 + k, 13);
        ShareOrder(left, at, 7 + j, 7 + k, 13);
      } else {
        ShareOf(at, right, k - 6, 3);
        if j <= 6 {
          ShareOf(left, at, 7 + j, 13);
        } else {
          ShareOf(at, right, j - 6, 3);
          ShareOrder(at, right, j - 6, k - 6, 3);
        }
      }
    } else {
      if k <= 1 {
        ShareOf(left, at, j + 1, 3);
        ShareOf(left, at, k + 1, 3);
        ShareOrder(left, at, j + 1, k + 1, 3);
      } else {
        ShareOf(at, right, k - 2, 13);
        if j <= 1 {
          ShareOf(left, at, j + 1, 3);
        } else {
          ShareOf(at, right, j - 2, 13);
          ShareOrder(at, right, j - 2, k - 2, 13);
        }
      }
    }
  }

  lemma HintAtNumbers(left: real, at: real, right: real, k: nat)
    requires k < 9
    ensures HintAt(left, at, right, k) ==
      if at - left > right - at then
        if k <= 6 then left + Times(at - left, Over((7 + k) as real, 13 as real))
          else at + Times(right - at, Over((k - 6) as real, 3 as real))
      else if k <= 1 then left + Times(at - left, Over((k + 1) as real, 3 as real))
      else at + Times(right - at, Over((k - 2) as real, 13 as real))
  {
  }

  /** Hints made stops from left to right, each between the last stop made and the next declared. */
  function Expand(done: seq<Stop>, rest: seq<Stop>, w: Weighting): seq<Stop>
    requires done != [] && Sorted(done + rest)
    decreases |rest|
  {
    if |rest| <= 1 then done + rest
    else if rest[0].color.Some? then
      assert done + [rest[0]] + rest[1..] == done + rest;
      Expand(done + [rest[0]], rest[1..], w)
    else
      HintSorted(done, rest, w);
      Expand(done + Hint(done[|done| - 1], rest[0], rest[1], w), rest[1..], w)
  }

  lemma HintBracketed(done: seq<Stop>, rest: seq<Stop>)
    requires done != [] && |rest| > 1 && Sorted(done + rest)
    ensures Bracketed(done[|done| - 1], rest[0], rest[1])
  {
    var all, n := done + rest, |done|;
    assert all[n - 1] == done[n - 1] && all[n] == rest[0] && all[n + 1] == rest[1];
  }

  lemma HintSorted(done: seq<Stop>, rest: seq<Stop>, w: Weighting)
    requires done != [] && |rest| > 1 && Sorted(done + rest)
    ensures Bracketed(done[|done| - 1], rest[0], rest[1])
    ensures Sorted(done + Hint(done[|done| - 1], rest[0], rest[1], w) + rest[1..])
  {
    HintBracketed(done, rest);
    var left, hint, right := done[|done| - 1], rest[0], rest[1];
    var stops := Hint(left, hint, right, w);
    HintWithin(left, hint, right, w);
    InsertSorted(done, rest, stops);
  }

  /** Stops in order between two next to each other. */
  predicate Within(stops: seq<Stop>, left: real, right: real) {
    Sorted(stops) && forall i :: 0 <= i < |stops| ==> left <= stops[i].position.value <= right
  }

  lemma HintWithin(left: Stop, hint: Stop, right: Stop, w: Weighting)
    requires Bracketed(left, hint, right)
    ensures Within(Hint(left, hint, right, w), left.position.value, right.position.value)
  {
    var stops := Hint(left, hint, right, w);
    var l, at, r := left.position.value, hint.position.value, right.position.value;
    if |stops| == 9 {
      forall i, j | 0 <= i <= j < 9 ensures l <= stops[i].position.value <= stops[j].position.value <= r {
        HintAtOrder(l, at, r, i, j);
      }
    }
  }

  lemma InsertSorted(done: seq<Stop>, rest: seq<Stop>, stops: seq<Stop>)
    requires done != [] && |rest| > 1 && Sorted(done + rest)
    requires done[|done| - 1].position.Some? && rest[1].position.Some?
    requires Within(stops, done[|done| - 1].position.value, rest[1].position.value)
    ensures Sorted(done + stops + rest[1..])
  {
    var all, out, n, m := done + rest, done + stops + rest[1..], |done|, |stops|;
    assert all[n - 1] == done[n - 1] && all[n + 1] == rest[1];
    forall i | 0 <= i < |out| ensures out[i].position.Some? {
      InsertedAt(done, rest, stops, i);
    }
    forall i, j | 0 <= i <= j < |out| ensures out[i].position.value <= out[j].position.value {
      InsertedAt(done, rest, stops, i);
      InsertedAt(done, rest, stops, j);
    }
  }

  lemma InsertedAt(done: seq<Stop>, rest: seq<Stop>, stops: seq<Stop>, i: nat)
    requires |rest| > 1 && i < |done + stops + rest[1..]|
    ensures var out, n, m := done + stops + rest[1..], |done|, |stops|;
            if i < n then out[i] == (done + rest)[i]
            else if i < n + m then out[i] == stops[i - n]
            else out[i] == (done + rest)[i - m + 1]
  {
  }

  lemma {:induction false} ExpandSorted(done: seq<Stop>, rest: seq<Stop>, w: Weighting)
    requires done != [] && Sorted(done + rest)
    ensures Sorted(Expand(done, rest, w))
    decreases |rest|
  {
    hide Sorted, Hint;
    if |rest| > 1 {
      if rest[0].color.Some? {
        assert done + [rest[0]] + rest[1..] == done + rest;
        ExpandSorted(done + [rest[0]], rest[1..], w);
      } else {
        HintSorted(done, rest, w);
        ExpandSorted(done + Hint(done[|done| - 1], rest[0], rest[1], w), rest[1..], w);
      }
    }
  }

  predicate Coloured(stops: seq<Stop>) { forall i :: 0 <= i < |stops| ==> stops[i].color.Some? }

  predicate NoAdjacentHints(fixed: seq<Stop>) {
    forall i :: 0 <= i < |fixed| - 1 ==> fixed[i].color.Some? || fixed[i + 1].color.Some?
  }

  lemma HintColoured(left: Stop, hint: Stop, right: Stop, w: Weighting)
    requires Bracketed(left, hint, right) && left.color.Some? && right.color.Some?
    ensures Coloured(Hint(left, hint, right, w))
  {
  }

  /**
   A hint before another, at `at` between `left` and the other: taken out in the middle, coloured at the end beside it.
   */
  predicate Closes(left: real, at: real, next: real) {
    Equal(at - left, next - at) || (!Equal(at - left, 0.0) && Equal(next - at, 0.0))
  }

  /** Every hint followed by another closes, measured from the last stop before it that is left. */
  predicate HintsClose(left: real, rest: seq<Stop>)
    requires Positioned(rest)
    decreases |rest|
  {
    if |rest| <= 1 then true
    else if rest[0].color.Some? || rest[1].color.Some? then HintsClose(rest[0].position.value, rest[1..])
    else
      var at, next := rest[0].position.value, rest[1].position.value;
      Closes(left, at, next) && HintsClose(if Equal(at - left, next - at) then left else at, rest[1..])
  }

  lemma {:induction false} AfterColour(a: real, b: real, rest: seq<Stop>)
    requires Positioned(rest) && rest != [] && rest[0].color.Some?
    ensures HintsClose(a, rest) == HintsClose(b, rest)
  {
  }

  lemma HintBeforeHint(left: Stop, hint: Stop, second: Stop, w: Weighting)
    requires Bracketed(left, hint, second) && hint.color.None? && second.color.None? && left.color.Some?
    ensures var at := hint.position.value;
            Coloured(Hint(left, hint, second, w)) <==> Closes(left.position.value, at, second.position.value)
    ensures var stops, at := Hint(left, hint, second, w), hint.position.value;
            Closes(left.position.value, at, second.position.value) ==>
              if Equal(at - left.position.value, second.position.value - at) then stops == []
              else |stops| == 1 && stops[0].position == Some(at)
  {
    var stops := Hint(left, hint, second, w);
    assert stops != [] ==> (Coloured(stops) ==> stops[0].color.Some?);
  }

  lemma ColouredJoin(a: seq<Stop>, b: seq<Stop>)
    ensures Coloured(a + b) <==> Coloured(a) && Coloured(b)
  {
    forall i | 0 <= i < |a| ensures (a + b)[i] == a[i] {
    }
    forall i | 0 <= i < |b| ensures (a + b)[|a| + i] == b[i] {
    }
  }

  /** All stops end coloured exactly when those made are, the last is, and every hint before a hint closes. */
  lemma {:induction false} ExpandColoured(done: seq<Stop>, rest: seq<Stop>, w: Weighting)
    requires done != [] && Sorted(done + rest) && Positioned(rest) && done[|done| - 1].position.Some?
    ensures Coloured(Expand(done, rest, w)) <==>
            Coloured(done) && (rest == [] || rest[|rest| - 1].color.Some?) &&
            HintsClose(done[|done| - 1].position.value, rest)
    decreases |rest|
  {
    hide Sorted, Hint, Closes;
    if |rest| <= 1 {
      ColouredJoin(done, rest);
    } else if rest[0].color.Some? {
      assert done + [rest[0]] + rest[1..] == done + rest;
      ColouredJoin(done, [rest[0]]);
      ExpandColoured(done + [rest[0]], rest[1..], w);
    } else {
      ExpandHintColoured(done, rest, w);
    }
  }

  lemma {:induction false} ExpandHintColoured(done: seq<Stop>, rest: seq<Stop>, w: Weighting)
    requires done != [] && Sorted(done + rest) && Positioned(rest) && done[|done| - 1].position.Some?
    requires |rest| > 1 && rest[0].color.None?
    ensures Coloured(Expand(done, rest, w)) <==>
            Coloured(done) && rest[|rest| - 1].color.Some? && HintsClose(done[|done| - 1].position.value, rest)
    decreases |rest|, 0
  {
    hide Sorted, Hint, Closes;
    HintSorted(done, rest, w);
    var left := done[|done| - 1];
    var stops := Hint(left, rest[0], rest[1], w);
    LastPositioned(done + stops, rest[1..]);
    ColouredJoin(done, stops);
    ExpandColoured(done + stops, rest[1..], w);
    if Coloured(done) {
      if rest[1].color.Some? {
        HintColoured(left, rest[0], rest[1], w);
        AfterColour((done + stops)[|done + stops| - 1].position.value, rest[0].position.value, rest[1..]);
      } else {
        HintBeforeHint(left, rest[0], rest[1], w);
      }
    }
  }

  lemma LastPositioned(done: seq<Stop>, rest: seq<Stop>)
    requires done != [] && Sorted(done + rest)
    ensures Positioned(rest) && done[|done| - 1].position.Some?
  {
    var all, n := done + rest, |done|;
    assert all[n - 1] == done[n - 1];
    forall i | 0 <= i < |rest| ensures rest[i].position.Some? { assert all[n + i] == rest[i]; }
  }

  /** What is made stays, and so does every stop with a colour, and the last. */
  lemma {:induction false} ExpandKeeps(done: seq<Stop>, rest: seq<Stop>, w: Weighting, s: Stop)
    requires done != [] && Sorted(done + rest)
    requires s in done || (s in rest && s.color.Some?) || (rest != [] && s == rest[|rest| - 1])
    ensures s in Expand(done, rest, w)
    decreases |rest|
  {
    hide Sorted, Hint;
    if |rest| > 1 {
      assert rest == [rest[0]] + rest[1..];
      if rest[0].color.Some? {
        assert done + [rest[0]] + rest[1..] == done + rest;
        ExpandKeeps(done + [rest[0]], rest[1..], w, s);
      } else {
        HintSorted(done, rest, w);
        ExpandKeeps(done + Hint(done[|done| - 1], rest[0], rest[1], w), rest[1..], w, s);
      }
    }
  }

  function Expanded(fixed: seq<Stop>, w: Weighting): seq<Stop>
    requires Sorted(fixed)
  {
    if fixed == [] then []
    else
      assert [fixed[0]] + fixed[1..] == fixed;
      Expand([fixed[0]], fixed[1..], w)
  }

  /**
   The stops are all coloured in the end exactly when the first and the last are, and every hint before a hint closes.
   */
  lemma ColouredExactly(fixed: seq<Stop>, w: Weighting)
    requires fixed != [] && Sorted(fixed)
    ensures Coloured(Expanded(fixed, w)) <==>
            fixed[0].color.Some? && fixed[|fixed| - 1].color.Some? && HintsClose(fixed[0].position.value, fixed[1..])
  {
    assert [fixed[0]] + fixed[1..] == fixed;
    LastPositioned([fixed[0]], fixed[1..]);
    ExpandColoured([fixed[0]], fixed[1..], w);
  }

  lemma {:induction false} ApartClose(left: real, rest: seq<Stop>)
    requires Positioned(rest) && NoAdjacentHints(rest)
    ensures HintsClose(left, rest)
    decreases |rest|
  {
    if |rest| > 1 {
      assert rest[0].color.Some? || rest[0 + 1].color.Some?;
      ApartClose(rest[0].position.value, rest[1..]);
    }
  }

  /** Two hints together between two coloured stops. */
  lemma AdjacentHints(left: Stop, hint: Stop, second: Stop, right: Stop, w: Weighting)
    requires Sorted([left, hint, second, right]) && left.position.Some? && hint.position.Some? && second.position.Some?
    requires left.color.Some? && right.color.Some? && hint.color.None? && second.color.None?
    ensures Coloured(Expanded([left, hint, second, right], w)) <==>
            Closes(left.position.value, hint.position.value, second.position.value)
  {
    var fixed := [left, hint, second, right];
    ColouredExactly(fixed, w);
    assert fixed[1..] == [hint, second, right] && fixed[1..][1..] == [second, right] && [second, right][1..] == [right];
    assert fixed[3].position.Some? && HintsClose(second.position.value, [right]);
    assert HintsClose(left.position.value, [second, right]) && HintsClose(hint.position.value, [second, right]);
  }

  // The three passes.

  function KeptAll(stops: seq<ColorStop>, length: real): (fixed: seq<Stop>)
    requires length > 0.0
    ensures |fixed| == |stops| && forall i :: 0 <= i < |stops| ==> fixed[i] == Kept(stops, i, length)
  {
    seq(|stops|, i requires 0 <= i < |stops| => Kept(stops, i, length))
  }

  lemma KeptEnds(stops: seq<ColorStop>, length: real)
    requires length > 0.0
    ensures EndsPositioned(KeptAll(stops, length)) && Ordered(KeptAll(stops, length))
  {
    KeptOrdered(stops, KeptAll(stops, length), length);
  }

  /** The first: each position resolved along the gradient, none before one before it. */
  method KeepPositions(stops: seq<ColorStop>, length: real) returns (fixed: seq<Stop>, missing: bool)
    requires stops != [] && length > 0.0
    ensures fixed == KeptAll(stops, length) && (missing <==> !Positioned(fixed))
  {
    fixed, missing := [], false;
    var maxSoFar := match Resolve(stops[0].place, length) case Some(p) => p case None => 0.0;
    for i := 0 to |stops|
      invariant |fixed| == i && forall k :: 0 <= k < i ==> fixed[k] == Kept(stops, k, length)
      invariant maxSoFar == if i == 0 then Own(stops, 0, length).value else Furthest(stops, i, length)
      invariant missing <==> !Positioned(fixed)
    {
      var position := Resolve(stops[i].place, length);
      if position.None? {
        if i == 0 {
          position := Some(0.0);
        } else if i == |stops| - 1 {
          position := Some(1.0);
        }
      }
      if position.Some? {
        maxSoFar := Max(position.value, maxSoFar);
        fixed := fixed + [Stop(stops[i].color, Some(maxSoFar))];
      } else {
        fixed := fixed + [Stop(stops[i].color, None)];
        missing := true;
        assert fixed[i].position.None?;
      }
    }
  }

  /** The second: positions missing spread between those there are. */
  method SpreadPositions(fixed: seq<Stop>) returns (out: seq<Stop>)
    requires fixed != [] && EndsPositioned(fixed)
    ensures out == SpreadAll(fixed)
  {
    hide Before, Spread, Between;
    out := fixed;
    var lastDefined := 0;
    SpreadSelf(fixed, 0);
    for i := 1 to |fixed|
      invariant |out| == |fixed| && lastDefined <= i - 1 && fixed[lastDefined].position.Some?
      invariant forall k :: lastDefined < k < i ==> fixed[k].position.None?
      invariant forall k :: 0 <= k <= lastDefined ==> out[k] == Spread(fixed, k)
      invariant forall k :: lastDefined < k < |fixed| ==> out[k] == fixed[k]
    {
      var end := out[i].position;
      var unpositioned := i - lastDefined - 1;
      if end.Some? {
        SpreadSelf(fixed, i);
        SpreadSelf(fixed, lastDefined);
        if unpositioned > 0 { out := SpreadGap(fixed, out, lastDefined, i); }
        lastDefined := i;
      }
    }
  }

  lemma SpreadSelf(fixed: seq<Stop>, i: nat)
    requires i < |fixed| && EndsPositioned(fixed) && fixed[i].position.Some?
    ensures Spread(fixed, i) == fixed[i]
  {
  }

  lemma SpreadColor(fixed: seq<Stop>, i: nat)
    requires i < |fixed| && EndsPositioned(fixed)
    ensures Spread(fixed, i) == fixed[i].(position := Spread(fixed, i).position)
  {
  }

  method SpreadGap(fixed: seq<Stop>, before: seq<Stop>, a: nat, b: nat) returns (out: seq<Stop>)
    requires EndsPositioned(fixed) && a < b < |fixed| == |before| && fixed[a].position.Some? && fixed[b].position.Some?
    requires forall k :: a < k < b ==> fixed[k].position.None?
    requires forall k :: a <= k <= b ==> before[k] == fixed[k]
    ensures |out| == |fixed| &&
      forall k :: 0 <= k < |fixed| ==> out[k] == if a < k < b then Spread(fixed, k) else before[k]
  {
    hide Spread;
    out := before;
    var start, end := out[a].position.value, out[b].position.value;
    var increment := Over(end - start, (b - a) as real);
    for j := 1 to b - a
      invariant |out| == |fixed|
      invariant forall k :: 0 <= k < |fixed| ==> out[k] == if a < k < a + j then Spread(fixed, k) else before[k]
    {
      SpreadIn(fixed, a, b, a + j);
      SpreadColor(fixed, a + j);
      out := out[a + j := out[a + j].(position := Some(start + Times(increment, j as real)))];
    }
  }

  /** The third, in place: each hint erased, coloured, or erased and its nine stops inserted. */
  method ExpandHints(fixed: seq<Stop>, w: Weighting) returns (out: seq<Stop>)
    requires fixed != [] && Sorted(fixed)
    ensures out == Expanded(fixed, w)
  {
    hide Sorted, Hint;
    out := fixed;
    var indexOffset: int := 0;
    ghost var done := [fixed[0]];
    assert done + fixed[1..] == fixed;
    var i := 1;
    while i + 1 < |fixed|
      invariant 1 <= i <= |fixed| && done != [] && |done| == i + indexOffset && out == done + fixed[i..]
      invariant Sorted(done + fixed[i..]) && Expand(done, fixed[i..], w) == Expanded(fixed, w)
    {
      var x := i + indexOffset;
      assert out[x..] == fixed[i..] && fixed[i..][1..] == fixed[i + 1..];
      assert out[x - 1] == done[|done| - 1] && out[x] == fixed[i] && out[x + 1] == fixed[i + 1];
      if fixed[i].color.Some? {
        assert done + [fixed[i]] + fixed[i + 1..] == done + fixed[i..];
        done := done + [fixed[i]];
      } else {
        HintSorted(done, fixed[i..], w);
        ghost var stops := Hint(out[x - 1], out[x], out[x + 1], w);
        var change;
        out, change := ExpandHint(out, x, w);
        indexOffset := indexOffset + change;
        done := done + stops;
        assert out == done + fixed[i + 1..];
      }
      i := i + 1;
    }
  }

  method ExpandHint(before: seq<Stop>, x: nat, w: Weighting) returns (out: seq<Stop>, change: int)
    requires 1 <= x < |before| - 1 && Bracketed(before[x - 1], before[x], before[x + 1])
    ensures var stops := Hint(before[x - 1], before[x], before[x + 1], w);
            out == before[..x] + stops + before[x + 1..] && change == |stops| - 1
  {
    out := before;
    var left, at, right := out[x - 1].position.value, out[x].position.value, out[x + 1].position.value;
    var leftColor, rightColor := out[x - 1].color, out[x + 1].color;
    var leftDist, rightDist := at - left, right - at;
    if Equal(leftDist, rightDist) {
      out := out[..x] + out[x + 1..];
      return out, -1;
    }
    if Equal(leftDist, 0.0) {
      out := out[x := out[x].(color := rightColor)];
      return out, 0;
    }
    if Equal(rightDist, 0.0) {
      out := out[x := out[x].(color := leftColor)];
      return out, 0;
    }
    var added := AddStops(before[x - 1], before[x], before[x + 1], w);
    out := out[..x] + out[x + 1..];
    out := out[..x] + added + out[x..];
    change := 8;
  }

  /** Nine stops along the way, blended where both sides have a colour. */
  method AddStops(left: Stop, hint: Stop, right: Stop, w: Weighting) returns (added: seq<Stop>)
    requires Bracketed(left, hint, right) && left.position.value < right.position.value
    ensures |added| == 9 && forall k :: 0 <= k < 9 ==> added[k] == HintStop(left, hint, right, w, k)
  {
    hide HintAt, Blend;
    var l, at, r := left.position.value, hint.position.value, right.position.value;
    added := PlaceStops(l, at, r);
    var total := r - l;
    for k := 0 to 9
      invariant |added| == 9 && forall j :: 0 <= j < k ==> added[j] == HintStop(left, hint, right, w, j)
      invariant forall j :: k <= j < 9 ==> added[j] == Stop(None, Some(HintAt(l, at, r, j)))
    {
      var weighting := w(Over(added[k].position.value - l, total), Over(at - l, total));
      if left.color.Some? && right.color.Some? {
        added := added[k := added[k].(color := Some(Blend(left.color.value, right.color.value, weighting)))];
      }
    }
  }

  /** Where they are: seven on the longer side of the hint, two on the shorter. */
  method PlaceStops(l: real, at: real, r: real) returns (added: seq<Stop>)
    ensures |added| == 9 && forall k :: 0 <= k < 9 ==> added[k] == Stop(None, Some(HintAt(l, at, r, k)))
  {
    added := [];
    if at - l > r - at {
      for y := 0 to 7
        invariant |added| == y && forall k :: 0 <= k < y ==> added[k] == Stop(None, Some(HintAt(l, at, r, k)))
      {
        added := added + [Stop(None, Some(l + Times(at - l, Over(7.0 + y as real, 13.0))))];
      }
      added := added + [Stop(None, Some(at + Times(r - at, Over(1.0, 3.0))))];
      added := added + [Stop(None, Some(at + Times(r - at, Over(2.0, 3.0))))];
    } else {
      added := added + [Stop(None, Some(l + Times(at - l, Over(1.0, 3.0))))];
      added := added + [Stop(None, Some(l + Times(at - l, Over(2.0, 3.0))))];
      for y := 0 to 7
        invariant |added| == y + 2 && forall k :: 0 <= k < y + 2 ==> added[k] == Stop(None, Some(HintAt(l, at, r, k)))
      {
        added := added + [Stop(None, Some(at + Times(r - at, Over(y as real, 13.0))))];
      }
    }
  }

  /** fixedStops: the stops drawn, each where it is and in order. */
  method FixedStops(stops: seq<ColorStop>, length: real, w: Weighting) returns (out: seq<Stop>)
    requires length > 0.0
    ensures out == Fixed(stops, length, w) && Sorted(out)
  {
    if stops == [] { return []; }
    KeptEnds(stops, length);
    var fixed, missing := KeepPositions(stops, length);
    if missing {
      fixed := SpreadPositions(fixed);
    } else {
      NothingMissing(fixed);
    }
    SpreadSorted(KeptAll(stops, length));
    out := ExpandHints(fixed, w);
    FixedSorted(stops, length, w);
  }

  lemma NothingMissing(fixed: seq<Stop>)
    requires Positioned(fixed)
    ensures SpreadAll(fixed) == fixed
  {
    forall i | 0 <= i < |fixed| ensures Spread(fixed, i) == fixed[i] {
    }
  }

  function Spaced(stops: seq<ColorStop>, length: real): (fixed: seq<Stop>)
    requires length > 0.0
    ensures Sorted(fixed)
  {
    KeptEnds(stops, length);
    SpreadSorted(KeptAll(stops, length));
    SpreadAll(KeptAll(stops, length))
  }

  function Fixed(stops: seq<ColorStop>, length: real, w: Weighting): seq<Stop>
    requires length > 0.0
  {
    Expanded(Spaced(stops, length), w)
  }

  /** Every stop is positioned, none before one before it. */
  lemma FixedSorted(stops: seq<ColorStop>, length: real, w: Weighting)
    requires length > 0.0
    ensures Sorted(Fixed(stops, length, w))
  {
    var fixed := Spaced(stops, length);
    if fixed != [] {
      assert [fixed[0]] + fixed[1..] == fixed;
      ExpandSorted([fixed[0]], fixed[1..], w);
    }
  }

  /** Every stop declared with a colour is drawn, where the first passes put it. */
  lemma FixedKeeps(stops: seq<ColorStop>, length: real, w: Weighting, i: nat)
    requires length > 0.0 && i < |stops| && stops[i].color.Some?
    ensures Spaced(stops, length)[i].color == stops[i].color && Spaced(stops, length)[i] in Fixed(stops, length, w)
  {
    var fixed := Spaced(stops, length);
    assert fixed[i] == Spread(KeptAll(stops, length), i);
    assert [fixed[0]] + fixed[1..] == fixed;
    assert i > 0 ==> fixed[i] == fixed[1..][i - 1];
    ExpandKeeps([fixed[0]], fixed[1..], w, fixed[i]);
  }

  /** Every stop drawn has a colour exactly when the first and last declared do, and every hint before a hint closes. */
  lemma FixedColouredExactly(stops: seq<ColorStop>, length: real, w: Weighting)
    requires length > 0.0 && stops != []
    ensures var fixed := Spaced(stops, length);
            Coloured(Fixed(stops, length, w)) <==>
            stops[0].color.Some? && stops[|stops| - 1].color.Some? && HintsClose(fixed[0].position.value, fixed[1..])
  {
    SpacedColours(stops, length);
    ColouredExactly(Spaced(stops, length), w);
  }

  lemma SpacedColours(stops: seq<ColorStop>, length: real)
    requires length > 0.0
    ensures |Spaced(stops, length)| == |stops|
    ensures forall i :: 0 <= i < |stops| ==> Spaced(stops, length)[i].color == stops[i].color
  {
    var kept, fixed := KeptAll(stops, length), Spaced(stops, length);
    KeptEnds(stops, length);
    forall i | 0 <= i < |stops| ensures fixed[i].color == stops[i].color {
      assert fixed[i] == Spread(kept, i);
    }
  }

  /** Declared without two hints together, exactly when the first and last declared do. */
  lemma FixedColoured(stops: seq<ColorStop>, length: real, w: Weighting)
    requires length > 0.0 && stops != []
    requires forall i :: 0 <= i < |stops| - 1 ==> stops[i].color.Some? || stops[i + 1].color.Some?
    ensures Coloured(Fixed(stops, length, w)) <==> stops[0].color.Some? && stops[|stops| - 1].color.Some?
  {
    var fixed := Spaced(stops, length);
    SpacedColours(stops, length);
    forall i | 0 <= i < |fixed[1..]| - 1 ensures fixed[1..][i].color.Some? || fixed[1..][i + 1].color.Some? {
      assert stops[i + 1].color.Some? || stops[i + 1 + 1].color.Some?;
    }
    ApartClose(fixed[0].position.value, fixed[1..]);
    FixedColouredExactly(stops, length, w);
  }
}
