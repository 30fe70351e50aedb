/** Real arithmetic shared by every part of the model.

    The program computes in f64; here a number is a mathematical `real`, so
    rounding and NaN are outside the model. An absent limit, or an f64
    infinity that stands for one, is `None`. */
module Numbers {

  /** The f64 machine epsilon, 2^-52, which the program uses as "no change". */
  const EPSILON: real := 0.0000000000000002220446049250313080847263336181640625

  lemma EpsilonIsPowerOfTwo()
    ensures EPSILON * 4503599627370496.0 == 1.0
  {
  }

  /** A non-negative span of time. */
  type Seconds = s: real | 0.0 <= s

  datatype Option<+T> = None | Some(value: T)

  datatype Result<+T> = Ok(value: T) | Err(reason: string)

  function Min(x: real, y: real): real { if x <= y then x else y }

  function Max(x: real, y: real): real { if x >= y then x else y }

  function Abs(x: real): real { if x < 0.0 then -x else x }

  function Clamp(x: real, low: real, high: real): real
    requires low <= high
  {
    if x < low then low else if x > high then high else x
  }

  /** Round half away from zero. */
  function Round(x: real): int {
    if x >= 0.0 then (x + 0.5).Floor else -((-x + 0.5).Floor)
  }

  /** The smaller of `x` and a bound that may be infinitely high. */
  function CapAt(x: real, bound: Option<real>): real {
    if bound.None? then x else Min(x, bound.value)
  }

  /** The larger of `x` and a bound that may be infinitely low. */
  function RaiseTo(x: real, bound: Option<real>): real {
    if bound.None? then x else Max(x, bound.value)
  }

  function Sum(xs: seq<real>): real {
    if xs == [] then 0.0 else Sum(xs[..|xs| - 1]) + xs[|xs| - 1]
  }

  lemma SumSnoc(xs: seq<real>, x: real)
    ensures Sum(xs + [x]) == Sum(xs) + x
  {
    assert (xs + [x])[..|xs|] == xs;
  }

  /** Replacing one entry changes the sum by the difference. */
  lemma {:induction false} SumUpdate(xs: seq<real>, i: nat, x: real)
    requires i < |xs|
    ensures Sum(xs[i := x]) == Sum(xs) - xs[i] + x
  {
    var last := |xs| - 1;
    var ys := xs[i := x];
    if i == last {
      assert ys[..last] == xs[..last];
    } else {
      SumUpdate(xs[..last], i, x);
      assert ys[..last] == xs[..last][i := x];
    }
  }

  /** A pointwise order carries over to the sums, strictly if any entry is strict. */
  lemma {:induction false} SumOrder(xs: seq<real>, ys: seq<real>)
    requires |xs| == |ys|
    requires forall i :: 0 <= i < |xs| ==> xs[i] <= ys[i]
    ensures Sum(xs) <= Sum(ys)
    ensures (exists i :: 0 <= i < |xs| && xs[i] < ys[i]) ==> Sum(xs) < Sum(ys)
  {
    if xs != [] {
      SumOrder(xs[..|xs| - 1], ys[..|ys| - 1]);
      if i :| 0 <= i < |xs| && xs[i] < ys[i] {
        if i < |xs| - 1 {
          assert xs[..|xs| - 1][i] < ys[..|ys| - 1][i];
        }
      }
    }
  }

  /** Sums over an empty or all-zero sequence vanish. */
  lemma {:induction false} SumZero(xs: seq<real>)
    requires forall i :: 0 <= i < |xs| ==> xs[i] == 0.0
    ensures Sum(xs) == 0.0
  {
    if xs != [] { SumZero(xs[..|xs| - 1]); }
  }
}
