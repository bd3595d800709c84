/** The slice of NumPy's float64 semantics the metric relies on, over exact reals:
    a value is either NaN or a number, `np.mean` of an empty array is NaN, and
    NaN propagates through squaring, averaging and `np.sqrt`. Rounding,
    infinities and summation order are not modelled. */
module Numeric {

  /** A float64 scalar: NaN, or an (exact) real number. */
  datatype Float = NaN | Num(value: real)

  /** What the square root routine supplied by the platform promises on
      non-negative arguments: a non-negative number whose square is the argument. */
  ghost predicate IsSqrt(sqrt: real -> real) {
    forall x :: 0.0 <= x ==> 0.0 <= sqrt(x) && sqrt(x) * sqrt(x) == x
  }

  /** `np.sqrt` on a scalar: NaN stays NaN, and a negative argument gives NaN. */
  function Sqrt(sqrt: real -> real, x: Float): Float {
    if x.NaN? || x.value < 0.0 then NaN else Num(sqrt(x.value))
  }

  /** `x ** 2` on a scalar: NaN stays NaN. */
  function Square(x: Float): Float {
    match x
    case NaN => NaN
    case Num(v) => Num(v * v)
  }

  /** `a ** 2` on an array of floats, element by element. */
  function SquareFloats(xs: seq<Float>): (r: seq<Float>)
    ensures |r| == |xs|
  {
    seq(|xs|, k requires 0 <= k < |xs| => Square(xs[k]))
  }

  predicate HasNaN(xs: seq<Float>) {
    exists k :: 0 <= k < |xs| && xs[k].NaN?
  }

  /** The numbers of an array that holds no NaN. */
  function Values(xs: seq<Float>): (r: seq<real>)
    requires !HasNaN(xs)
    ensures |r| == |xs|
  {
    seq(|xs|, k requires 0 <= k < |xs| => xs[k].value)
  }

  function Sum(xs: seq<real>): real {
    if xs == [] then 0.0 else xs[0] + Sum(xs[1..])
  }

  /** `np.mean` of an array of numbers: NaN when the array is empty (0 / 0). */
  function Mean(xs: seq<real>): Float {
    if |xs| == 0 then NaN else Num(Sum(xs) / |xs| as real)
  }

  /** `np.mean` of an array of floats: NaN when the array is empty or holds a NaN. */
  function MeanOfFloats(xs: seq<Float>): Float {
    if HasNaN(xs) then NaN else Mean(Values(xs))
  }

  // ---------------------------------------------------------------------------
  // Square roots

  /** Two non-negative numbers with the same square are equal. */
  lemma {:induction false} SquaresEqual(a: real, b: real)
    requires 0.0 <= a && 0.0 <= b && a * a == b * b
    ensures a == b
  {
    if a + b != 0.0 {
      var x := (a + b) * (a - b);
      assert x == 0.0;
      assert a - b == x / (a + b);
      assert 0.0 / (a + b) == 0.0;
    }
  }

  lemma {:induction false} SquaresOfEqual(a: real, b: real)
    ensures a == b ==> a * a == b * b
  {
  }

  /** The routine returns the non-negative root of a square. */
  lemma {:induction false} SqrtOfSquare(sqrt: real -> real, r: real)
    requires IsSqrt(sqrt)
    requires 0.0 <= r
    ensures sqrt(r * r) == r
  {
    SquaresEqual(sqrt(r * r), r);
  }

  lemma {:induction false} NonNegativeSquare(x: real)
    ensures 0.0 <= x * x
  {
  }

  lemma {:induction false} SqrtSquared(sqrt: real -> real, x: real)
    requires IsSqrt(sqrt)
    requires 0.0 <= x
    ensures 0.0 <= sqrt(x) && sqrt(x) * sqrt(x) == x
  {
  }

  lemma {:induction false} SqrtOfZero(sqrt: real -> real)
    requires IsSqrt(sqrt)
    ensures sqrt(0.0) == 0.0
  {
    SqrtOfSquare(sqrt, 0.0);
  }

  /** Squaring after `np.sqrt` gives back a non-negative argument, NaN stays NaN. */
  lemma {:induction false} SquareOfSqrt(sqrt: real -> real, x: Float)
    requires IsSqrt(sqrt)
    requires x.Num? ==> 0.0 <= x.value
    ensures Square(Sqrt(sqrt, x)) == x
  {
  }

  // ---------------------------------------------------------------------------
  // Sums and means

  lemma {:induction false} SumConcat(a: seq<real>, b: seq<real>)
    ensures Sum(a + b) == Sum(a) + Sum(b)
  {
    if a != [] {
      assert (a + b)[1..] == a[1..] + b;
      SumConcat(a[1..], b);
    } else {
      assert a + b == b;
    }
  }

  lemma {:induction false} SumNonNegative(xs: seq<real>)
    requires forall k :: 0 <= k < |xs| ==> 0.0 <= xs[k]
    ensures 0.0 <= Sum(xs)
  {
    if xs != [] {
      SumNonNegative(xs[1..]);
    }
  }

  lemma {:induction false} SumOfZeros(xs: seq<real>)
    requires forall k :: 0 <= k < |xs| ==> xs[k] == 0.0
    ensures Sum(xs) == 0.0
  {
    if xs != [] {
      SumOfZeros(xs[1..]);
    }
  }

  lemma {:induction false} SumOfConstant(xs: seq<real>, c: real)
    requires forall k :: 0 <= k < |xs| ==> xs[k] == c
    ensures Sum(xs) == |xs| as real * c
  {
    if xs != [] {
      SumOfConstant(xs[1..], c);
    }
  }

  /** Dividing every term by the same non-zero number divides the sum by it. */
  lemma {:induction false} SumScaled(xs: seq<real>, ys: seq<real>, c: real)
    requires c != 0.0
    requires |ys| == |xs|
    requires forall k :: 0 <= k < |xs| ==> ys[k] == xs[k] / c
    ensures Sum(ys) == Sum(xs) / c
  {
    if xs != [] {
      SumScaled(xs[1..], ys[1..], c);
      assert Sum(ys) == xs[0] / c + Sum(xs[1..]) / c;
    }
  }

  lemma {:induction false} MeanNonNegative(xs: seq<real>)
    requires forall k :: 0 <= k < |xs| ==> 0.0 <= xs[k]
    ensures Mean(xs).Num? ==> 0.0 <= Mean(xs).value
  {
    SumNonNegative(xs);
  }

  /** The root mean square of an array of floats, `np.sqrt(np.mean(a ** 2))`,
      is NaN exactly when the array is empty or holds a NaN. */
  lemma {:induction false} RootMeanSquareNaN(sqrt: real -> real, xs: seq<Float>)
    ensures Sqrt(sqrt, MeanOfFloats(SquareFloats(xs))).NaN? <==> |xs| == 0 || HasNaN(xs)
  {
    var squares := SquareFloats(xs);
    assert HasNaN(squares) <==> HasNaN(xs) by {
      assert forall j :: 0 <= j < |xs| ==> (squares[j].NaN? <==> xs[j].NaN?);
    }
    if !HasNaN(squares) && |squares| > 0 {
      var vs := Values(squares);
      forall k | 0 <= k < |vs|
        ensures 0.0 <= vs[k]
      {
        assert vs[k] == xs[k].value * xs[k].value;
        NonNegativeSquare(xs[k].value);
      }
      MeanNonNegative(vs);
    }
  }

  /** The root mean square of a non-empty array of zeros is zero. */
  lemma {:induction false} RootMeanSquareOfZeros(sqrt: real -> real, xs: seq<Float>)
    requires IsSqrt(sqrt)
    requires 0 < |xs|
    requires forall k :: 0 <= k < |xs| ==> xs[k] == Num(0.0)
    ensures Sqrt(sqrt, MeanOfFloats(SquareFloats(xs))) == Num(0.0)
  {
    var squares := SquareFloats(xs);
    assert MeanOfFloats(squares) == Num(0.0) by {
      assert forall k :: 0 <= k < |squares| ==> squares[k] == Num(0.0);
      assert !HasNaN(squares);
      var vs := Values(squares);
      SumOfZeros(vs);
      ZeroQuotient(|vs| as real);
    }
    SqrtOfZero(sqrt);
  }

  lemma {:induction false} ZeroQuotient(d: real)
    requires d != 0.0
    ensures 0.0 / d == 0.0
  {
  }

  /** The mean of three numbers. */
  lemma {:induction false} MeanOfThree(a: real, b: real, c: real)
    ensures MeanOfFloats([Num(a), Num(b), Num(c)]) == Num((a + b + c) / 3.0)
  {
    var xs := [Num(a), Num(b), Num(c)];
    assert !HasNaN(xs);
    var vs := Values(xs);
    assert vs == [a, b, c];
    assert Sum(vs) == a + b + c by {
      assert vs[1..] == [b, c];
      assert [b, c][1..] == [c];
      assert [c][1..] == [];
      assert Sum([c]) == c + Sum([]);
    }
  }

  /** The mean of a one-element array of floats is that element. */
  lemma {:induction false} MeanOfSingleton(x: Float)
    ensures MeanOfFloats([x]) == x
  {
    if x.Num? {
      assert !HasNaN([x]);
      assert Values([x]) == [x.value];
      assert Sum([x.value]) == x.value + Sum([]);
    }
  }

  /** `np.mean` of floats is NaN exactly when the array is empty or holds a NaN;
      otherwise it is the mean of the numbers. */
  lemma {:induction false} MeanOfFloatsNaN(xs: seq<Float>)
    ensures MeanOfFloats(xs).NaN? <==> |xs| == 0 || HasNaN(xs)
  {
  }
}
