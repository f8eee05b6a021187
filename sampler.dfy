/** The frame sampler: the target rate is clamped to the source's rate, the
    stride is floor(source rate / target rate), and the frame whose 1-based
    counter value is k is scored exactly when k % stride == 0 (Python's %). */
module Sampler {
  import opened Types
  import opened Geometry

  /** The configured target rate, lowered to the source's rate when it is higher. */
  function ClampFps(target: real, frameRate: real): (fps: real)
    ensures fps <= frameRate && fps <= target
    ensures fps == target || fps == frameRate
  {
    if target > frameRate then frameRate else target
  }

  function Abs(n: int): nat
  {
    if n < 0 then -n else n
  }

  /** Python's % on integers: floored, so the remainder takes the divisor's
      sign; it is zero exactly when Dafny's Euclidean remainder is. */
  function PyMod(a: int, b: int): (r: int)
    requires b != 0
    ensures 0 < b ==> 0 <= r < b
    ensures b < 0 ==> b < r <= 0
    ensures r == 0 <==> a % b == 0
  {
    if b > 0 || a % b == 0 then a % b else a % b + b
  }

  /** math.floor(frameRate / fps), or None where Python raises
      ZeroDivisionError: the division itself when fps is 0, and the modulo
      of the scoring test when the floor is 0. */
  function Stride(frameRate: real, fps: real): (s: Option<int>)
    ensures s.Some? ==> fps != 0.0 && s.value != 0
  {
    if fps == 0.0 then None
    else
      var q := (frameRate / fps).Floor;
      if q == 0 then None else Some(q)
  }

  /** The stride is the floor of the rate ratio, and it is missing exactly
      when the target rate is 0 or the ratio lies in [0, 1). */
  lemma StrideIsFloor(frameRate: real, fps: real)
    ensures var s := Stride(frameRate, fps);
      (s.Some? ==> s.value as real <= frameRate / fps < s.value as real + 1.0) &&
      (s.None? <==> fps == 0.0 || 0.0 <= frameRate / fps < 1.0)
  {
  }

  /** The scoring test of the loop: frame k is scored when k % stride == 0. */
  predicate IsScored(k: int, stride: int)
    requires stride != 0
  {
    PyMod(k, stride) == 0
  }

  /** Whatever the sign of the stride, a frame is scored exactly when its
      counter value is a multiple of the stride's magnitude. */
  lemma ScoredIffMultiple(k: int, stride: int)
    requires stride != 0
    ensures IsScored(k, stride) <==> k % Abs(stride) == 0
  {
    if stride < 0 {
      var m := -stride;
      assert k == (k / stride) * stride + k % stride;
      NegateBoth(k / stride, stride);
      DivModUnique(k, m, -(k / stride), k % stride);
    }
  }

  lemma NegateBoth(q: int, s: int)
    ensures q * s == (-q) * (-s)
  {
  }

  lemma MulDistSub(a: int, b: int, m: int)
    ensures a * m - b * m == (a - b) * m
  {
  }

  lemma MulAtLeast(k: int, m: nat)
    requires 1 <= k
    ensures m <= k * m
  {
    assert k * m - m == (k - 1) * m;
  }

  /** Division with remainder is unique. */
  lemma DivModUnique(n: int, m: nat, q: int, r: int)
    requires 0 < m && 0 <= r < m && n == q * m + r
    ensures n / m == q && n % m == r
  {
    var q', r' := n / m, n % m;
    assert n == q' * m + r';
    var d := q' - q;
    MulDistSub(q', q, m);
    assert d * m == r - r';
    if 1 <= d {
      MulAtLeast(d, m);
      assert false;
    } else if d <= -1 {
      MulAtLeast(-d, m);
      NegateBoth(d, m);
      assert false;
    }
  }

  /** Counting up one frame adds one scored frame exactly when the new counter
      value is a multiple of the stride. */
  lemma DivStep(n: nat, m: nat)
    requires 0 < n && 0 < m
    ensures n / m == (n - 1) / m + (if n % m == 0 then 1 else 0)
  {
    var q, r := (n - 1) / m, (n - 1) % m;
    assert n - 1 == q * m + r;
    if r == m - 1 {
      DivModUnique(n, m, q + 1, 0);
    } else {
      DivModUnique(n, m, q, r + 1);
    }
  }

  /** When n is a multiple of m, it is the multiple after the last one below it. */
  lemma NextMultiple(n: nat, m: nat)
    requires 0 < n && 0 < m && n % m == 0
    ensures ((n - 1) / m + 1) * m == n
  {
    DivStep(n, m);
    assert n == (n / m) * m + n % m;
  }

  /** The counter value of the (j + 1)-th scored frame: each scored frame
      comes |stride| frames after the previous one. */
  function NthScored(j: nat, stride: int): (k: nat)
    requires stride != 0
    ensures Abs(stride) <= k
  {
    if j == 0 then Abs(stride) else NthScored(j - 1, stride) + Abs(stride)
  }

  /** That counter value is the (j + 1)-th multiple of |stride|. */
  lemma {:induction false} NthScoredIsMultiple(j: nat, stride: int)
    requires stride != 0
    ensures NthScored(j, stride) == (j + 1) * Abs(stride)
  {
    if j > 0 {
      NthScoredIsMultiple(j - 1, stride);
      MulDistSub(j + 1, 1, Abs(stride));
    }
  }

  /** The (j + 1)-th multiple of the stride is indeed scored. */
  lemma NthScoredIsScored(j: nat, stride: int)
    requires stride != 0
    ensures IsScored(NthScored(j, stride), stride)
  {
    NthScoredIsMultiple(j, stride);
    DivModUnique(NthScored(j, stride), Abs(stride), j + 1, 0);
    ScoredIffMultiple(NthScored(j, stride), stride);
  }

  /** The number of scored frames among the counter values 1..n. */
  function CountScored(n: nat, stride: int): nat
    requires stride != 0
  {
    if n == 0 then 0
    else CountScored(n - 1, stride) + (if IsScored(n, stride) then 1 else 0)
  }

  /** Over n read frames, n / |stride| of them are scored. */
  lemma {:induction false} CountScoredIsQuotient(n: nat, stride: int)
    requires stride != 0
    ensures CountScored(n, stride) == n / Abs(stride)
  {
    if n > 0 {
      CountScoredIsQuotient(n - 1, stride);
      ScoredIffMultiple(n, stride);
      DivStep(n, Abs(stride));
    }
  }

  /** A scored frame n comes right after CountScored(n - 1, stride) earlier
      scored ones, so it is the next one in the schedule. */
  lemma ScoredIsNext(n: nat, stride: int)
    requires stride != 0 && 0 < n && IsScored(n, stride)
    ensures NthScored(CountScored(n - 1, stride), stride) == n
  {
    var m := Abs(stride);
    CountScoredIsQuotient(n - 1, stride);
    ScoredIffMultiple(n, stride);
    NextMultiple(n, m);
    NthScoredIsMultiple(CountScored(n - 1, stride), stride);
  }

  /** With stride 1 every frame is scored and the count is the frame count. */
  lemma CountScoredByOne(n: nat)
    ensures CountScored(n, 1) == n
    ensures forall j: nat :: NthScored(j, 1) == j + 1
  {
    CountScoredIsQuotient(n, 1);
    forall j: nat
      ensures NthScored(j, 1) == j + 1
    {
      NthScoredIsMultiple(j, 1);
    }
  }

  /** A target rate above the source's positive rate is clamped to it, the
      stride is 1, and every frame is scored. */
  lemma ClampedStrideIsOne(target: real, frameRate: real)
    requires 0.0 < frameRate < target
    ensures Stride(frameRate, ClampFps(target, frameRate)) == Some(1)
    ensures forall k :: IsScored(k, 1)
  {
    assert frameRate / frameRate == 1.0;
  }

  /** For 0 < fps <= source rate the stride is a positive integer. */
  lemma PositiveRatesGiveStride(frameRate: real, target: real)
    requires 0.0 < frameRate && 0.0 < target
    ensures Stride(frameRate, ClampFps(target, frameRate)).Some?
    ensures Stride(frameRate, ClampFps(target, frameRate)).value >= 1
  {
    var fps := ClampFps(target, frameRate);
    RatioAtLeastOne(frameRate, fps);
  }

  lemma RatioAtLeastOne(a: real, b: real)
    requires 0.0 < b <= a
    ensures a / b >= 1.0
  {
    DivideBoth(b, a, b);
    assert b / b == 1.0;
  }

  /** A source rate of 0, or a target rate of 0 with a non-negative source
      rate, leaves no stride: the first scoring test divides by zero. */
  lemma ZeroRateHasNoStride(target: real, frameRate: real)
    requires frameRate == 0.0 || (target == 0.0 && 0.0 <= frameRate)
    ensures Stride(frameRate, ClampFps(target, frameRate)) == None
  {
  }

  /** A 30 fps source sampled at 10 fps: stride 3, so frames 3, 6, 9 are
      scored and 1, 2, 4, 5, 7, 8 are only shown. */
  lemma ThirtyToTen()
    ensures Stride(30.0, ClampFps(10.0, 30.0)) == Some(3)
    ensures IsScored(3, 3) && IsScored(6, 3) && IsScored(9, 3)
    ensures !IsScored(1, 3) && !IsScored(2, 3) && !IsScored(4, 3)
    ensures !IsScored(5, 3) && !IsScored(7, 3) && !IsScored(8, 3)
    ensures CountScored(9, 3) == 3
  {
    assert 30.0 / 10.0 == 3.0;
    CountScoredIsQuotient(9, 3);
  }
}
