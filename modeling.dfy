/** The RMSPE (root mean squared percentage error) metric of scripts/modeling.py.

    `rmspe(y_true, y_pred, chunk_size)` checks that the two arrays have the
    same length, masks out the positions whose ground truth is zero, walks the
    positions in chunks of `chunk_size`, computes for each chunk the root mean
    square of the relative errors `(t - p) / t` over its unmasked positions,
    and returns the root mean square of those chunk values. */
module Modeling {
  import opened Numeric
  import opened Chunking

  /** The chunk size `rmspe` uses when its caller gives none. */
  const DefaultChunkSize: nat := 1000

  /** The failure `rmspe` signals: its assertion on the two lengths. */
  datatype Error = LengthMismatch(trueLength: nat, predLength: nat)

  datatype Result<T> = Ok(value: T) | Err(error: Error)

  // ===========================================================================
  // The computation, step by step as the source writes it

  /** `y_true != 0`: true at the positions whose ground truth can be divided by. */
  function NonZeroMask(yTrue: seq<real>): seq<bool> {
    seq(|yTrue|, k requires 0 <= k < |yTrue| => yTrue[k] != 0.0)
  }

  /** Boolean indexing `s[mask]`: the elements at the positions where the mask
      holds, in their order. */
  function Select<T>(s: seq<T>, mask: seq<bool>): seq<T>
    requires |s| == |mask|
  {
    if s == [] then [] else (if mask[0] then [s[0]] else []) + Select(s[1..], mask[1..])
  }

  /** `(t - p) / t`, element by element, where no truth is zero. */
  function RelativeErrors(t: seq<real>, p: seq<real>): (r: seq<real>)
    requires |t| == |p|
    requires forall k :: 0 <= k < |t| ==> t[k] != 0.0
    ensures |r| == |t|
  {
    seq(|t|, k requires 0 <= k < |t| => (t[k] - p[k]) / t[k])
  }

  /** `e ** 2`, element by element. */
  function SquareAll(xs: seq<real>): (r: seq<real>)
    ensures |r| == |xs|
  {
    seq(|xs|, k requires 0 <= k < |xs| => xs[k] * xs[k])
  }

  /** One chunk's value: the square root of the mean squared relative error
      over the chunk's positions with a non-zero truth (NaN when there are
      none). The source computes it with a mask, `np.sqrt(np.mean(chunk_errors ** 2))`;
      MaskedChunkRmspe proves that computation gives this value. */
  function ChunkRmspe(sqrt: real -> real, chunkTrue: seq<real>, chunkPred: seq<real>): Float
    requires |chunkTrue| == |chunkPred|
  {
    Sqrt(sqrt, MeanSquaredPercentageError(Observations(chunkTrue, chunkPred)))
  }

  /** The list `chunk_rmspes` the loop builds: one value per chunk, in order. */
  function ChunkRmspes(sqrt: real -> real, yTrue: seq<real>, yPred: seq<real>, chunkSize: nat): (r: seq<Float>)
    requires |yTrue| == |yPred| && chunkSize > 0
    ensures |r| == |Chunks(yTrue, chunkSize)|
  {
    var ct := Chunks(yTrue, chunkSize);
    var cp := Chunks(yPred, chunkSize);
    seq(|ct|, j requires 0 <= j < |ct| => ChunkRmspe(sqrt, ct[j], cp[j]))
  }

  /** `rmspe(y_true, y_pred, chunk_size)`: a length mismatch is an error;
      otherwise the root mean square of the chunk values. */
  function Rmspe(sqrt: real -> real, yTrue: seq<real>, yPred: seq<real>, chunkSize: nat): (r: Result<Float>)
    requires chunkSize > 0
    ensures r.Err? <==> |yTrue| != |yPred|
    ensures r.Err? ==> r.error == LengthMismatch(|yTrue|, |yPred|)
  {
    if |yTrue| != |yPred| then Err(LengthMismatch(|yTrue|, |yPred|))
    else Ok(Sqrt(sqrt, MeanOfFloats(SquareFloats(ChunkRmspes(sqrt, yTrue, yPred, chunkSize)))))
  }

  /** The source's loop: it checks the lengths, builds the mask once, then
      walks `range(0, len(y_true), chunk_size)`, slicing the arrays and the
      mask and appending each chunk's value to `chunk_rmspes`. */
  method ComputeRmspe(sqrt: real -> real, yTrue: seq<real>, yPred: seq<real>, chunkSize: nat)
    returns (r: Result<Float>)
    requires chunkSize > 0
    ensures r == Rmspe(sqrt, yTrue, yPred, chunkSize)
  {
    if |yTrue| != |yPred| {
      return Err(LengthMismatch(|yTrue|, |yPred|));
    }
    var nonZero := NonZeroMask(yTrue);
    var chunkRmspes: seq<Float> := [];
    var i: nat := 0;
    while i < |yTrue|
      invariant chunkRmspes + ChunkRmspesFrom(sqrt, yTrue, yPred, chunkSize, i) ==
        ChunkRmspesFrom(sqrt, yTrue, yPred, chunkSize, 0)
      decreases |yTrue| - i
    {
      var chunkTrue := Slice(yTrue, i, chunkSize);
      var chunkPred := Slice(yPred, i, chunkSize);
      var chunkNonZero := Slice(nonZero, i, chunkSize);
      MaskOfSlice(yTrue, i, chunkSize);
      SelectedTruthsNonZero(chunkTrue);
      SelectSameLength(chunkTrue, chunkPred, chunkNonZero);
      var chunkErrors := RelativeErrors(Select(chunkTrue, chunkNonZero), Select(chunkPred, chunkNonZero));
      var chunkRmspe := Sqrt(sqrt, Mean(SquareAll(chunkErrors)));
      assert SquareAll(chunkErrors) == SelectedSquaredErrors(chunkTrue, chunkPred);
      MaskedChunkRmspe(sqrt, chunkTrue, chunkPred);
      ghost var done, start := chunkRmspes, i;
      chunkRmspes := chunkRmspes + [chunkRmspe];
      i := i + chunkSize;
      ChunkRmspesFromStep(sqrt, yTrue, yPred, chunkSize, start, done, chunkRmspe, i, chunkRmspes,
                          ChunkRmspesFrom(sqrt, yTrue, yPred, chunkSize, 0));
    }
    assert ChunkRmspesFrom(sqrt, yTrue, yPred, chunkSize, i) == [];
    assert chunkRmspes + [] == chunkRmspes;
    ChunkRmspesFromStart(sqrt, yTrue, yPred, chunkSize);
    assert chunkRmspes == ChunkRmspes(sqrt, yTrue, yPred, chunkSize);
    r := Ok(Sqrt(sqrt, MeanOfFloats(SquareFloats(chunkRmspes))));
  }

  /** The values the loop appends from index i on: one per chunk start in
      `range(i, len(y_true), chunk_size)`. */
  function ChunkRmspesFrom(sqrt: real -> real, yTrue: seq<real>, yPred: seq<real>, chunkSize: nat, i: nat): seq<Float>
    requires |yTrue| == |yPred| && chunkSize > 0
    decreases |yTrue| - i
  {
    if i >= |yTrue| then []
    else
      [ChunkRmspe(sqrt, Slice(yTrue, i, chunkSize), Slice(yPred, i, chunkSize))] +
      ChunkRmspesFrom(sqrt, yTrue, yPred, chunkSize, i + chunkSize)
  }

  /** One turn of the loop: when `done` followed by the values from i on makes
      up `whole`, appending the value c of the chunk at i and moving to
      next = i + chunk_size keeps it so. */
  lemma {:induction false} ChunkRmspesFromStep(sqrt: real -> real, yTrue: seq<real>, yPred: seq<real>, chunkSize: nat,
                                               i: nat, done: seq<Float>, c: Float, next: nat, done': seq<Float>,
                                               whole: seq<Float>)
    requires |yTrue| == |yPred| && chunkSize > 0 && i < |yTrue|
    requires done + ChunkRmspesFrom(sqrt, yTrue, yPred, chunkSize, i) == whole
    requires c == ChunkRmspe(sqrt, Slice(yTrue, i, chunkSize), Slice(yPred, i, chunkSize))
    requires next == i + chunkSize && done' == done + [c]
    ensures done' + ChunkRmspesFrom(sqrt, yTrue, yPred, chunkSize, next) == whole
  {
    var rest := ChunkRmspesFrom(sqrt, yTrue, yPred, chunkSize, next);
    assert ChunkRmspesFrom(sqrt, yTrue, yPred, chunkSize, i) == [c] + rest;
    AppendOne(done, c, rest);
  }

  lemma {:induction false} AppendOne<T>(done: seq<T>, c: T, rest: seq<T>)
    ensures done + ([c] + rest) == (done + [c]) + rest
  {
  }

  /** The values of the chunks at the given starts. */
  function ChunkRmspesAt(sqrt: real -> real, yTrue: seq<real>, yPred: seq<real>, starts: seq<nat>, chunkSize: nat)
    : (r: seq<Float>)
    requires |yTrue| == |yPred|
    requires forall k :: 0 <= k < |starts| ==> starts[k] <= |yTrue|
    ensures |r| == |starts|
  {
    seq(|starts|, j requires 0 <= j < |starts| =>
      ChunkRmspe(sqrt, Slice(yTrue, starts[j], chunkSize), Slice(yPred, starts[j], chunkSize)))
  }

  lemma {:induction false} ChunkRmspesAtCons(sqrt: real -> real, yTrue: seq<real>, yPred: seq<real>, i: nat,
                                             rest: seq<nat>, chunkSize: nat)
    requires |yTrue| == |yPred| && i <= |yTrue|
    requires forall k :: 0 <= k < |rest| ==> rest[k] <= |yTrue|
    ensures ChunkRmspesAt(sqrt, yTrue, yPred, [i] + rest, chunkSize) ==
      [ChunkRmspe(sqrt, Slice(yTrue, i, chunkSize), Slice(yPred, i, chunkSize))] +
      ChunkRmspesAt(sqrt, yTrue, yPred, rest, chunkSize)
  {
  }

  /** From index i on, the loop appends the values of the chunks starting at
      `range(i, len(y_true), chunk_size)`. */
  lemma {:induction false} ChunkRmspesFromRange(sqrt: real -> real, yTrue: seq<real>, yPred: seq<real>, chunkSize: nat, i: nat)
    requires |yTrue| == |yPred| && chunkSize > 0
    ensures ChunkRmspesFrom(sqrt, yTrue, yPred, chunkSize, i) ==
      ChunkRmspesAt(sqrt, yTrue, yPred, Range(i, |yTrue|, chunkSize), chunkSize)
    decreases |yTrue| - i
  {
    if i < |yTrue| {
      ChunkRmspesFromRange(sqrt, yTrue, yPred, chunkSize, i + chunkSize);
      var rest := Range(i + chunkSize, |yTrue|, chunkSize);
      assert Range(i, |yTrue|, chunkSize) == [i] + rest;
      ChunkRmspesAtCons(sqrt, yTrue, yPred, i, rest, chunkSize);
    }
  }

  /** Run from the start, the loop appends exactly `chunk_rmspes`. */
  lemma {:induction false} ChunkRmspesFromStart(sqrt: real -> real, yTrue: seq<real>, yPred: seq<real>, chunkSize: nat)
    requires |yTrue| == |yPred| && chunkSize > 0
    ensures ChunkRmspesFrom(sqrt, yTrue, yPred, chunkSize, 0) == ChunkRmspes(sqrt, yTrue, yPred, chunkSize)
  {
    ChunkRmspesFromRange(sqrt, yTrue, yPred, chunkSize, 0);
    var starts := ChunkStarts(|yTrue|, chunkSize);
    var at := ChunkRmspesAt(sqrt, yTrue, yPred, starts, chunkSize);
    var all := ChunkRmspes(sqrt, yTrue, yPred, chunkSize);
    forall j | 0 <= j < |all|
      ensures at[j] == all[j]
    {
      assert Chunks(yTrue, chunkSize)[j] == Slice(yTrue, starts[j], chunkSize);
      assert Chunks(yPred, chunkSize)[j] == Slice(yPred, starts[j], chunkSize);
    }
  }

  // ===========================================================================
  // Reference definitions: observations and the flat, single-pass RMSPE

  /** One indexed position: its ground truth and its prediction. */
  datatype Observation = Observation(truth: real, prediction: real)

  function Observations(yTrue: seq<real>, yPred: seq<real>): (obs: seq<Observation>)
    requires |yTrue| == |yPred|
    ensures |obs| == |yTrue|
  {
    seq(|yTrue|, k requires 0 <= k < |yTrue| => Observation(yTrue[k], yPred[k]))
  }

  /** The squared relative error of an observation whose truth is not zero. */
  function SquaredPercentageError(o: Observation): real
    requires o.truth != 0.0
  {
    var e := (o.truth - o.prediction) / o.truth;
    e * e
  }

  /** What an observation adds to the error sum: nothing when its truth is zero. */
  function ErrorTerm(o: Observation): real {
    if o.truth != 0.0 then SquaredPercentageError(o) else 0.0
  }

  /** The sum of the squared relative errors over the observations whose truth is not zero. */
  function ErrorSum(obs: seq<Observation>): real {
    if obs == [] then 0.0 else ErrorTerm(obs[0]) + ErrorSum(obs[1..])
  }

  /** The number of observations whose truth is not zero. */
  function NonZeroCount(obs: seq<Observation>): nat {
    if obs == [] then 0 else (if obs[0].truth != 0.0 then 1 else 0) + NonZeroCount(obs[1..])
  }

  /** The mean squared relative error over the observations whose truth is not
      zero; NaN when there are none. */
  function MeanSquaredPercentageError(obs: seq<Observation>): Float {
    if NonZeroCount(obs) == 0 then NaN else Num(ErrorSum(obs) / NonZeroCount(obs) as real)
  }

  /** The textbook single-pass RMSPE over all positions with a non-zero truth. */
  function FlatRmspe(sqrt: real -> real, yTrue: seq<real>, yPred: seq<real>): Result<Float> {
    if |yTrue| != |yPred| then Err(LengthMismatch(|yTrue|, |yPred|))
    else Ok(Sqrt(sqrt, MeanSquaredPercentageError(Observations(yTrue, yPred))))
  }

  /** The two-level aggregate on squared quantities: the mean, over the chunks,
      of each chunk's mean squared relative error. */
  function TwoLevelMeanSquare(obs: seq<Observation>, chunkSize: nat): Float
    requires chunkSize > 0
  {
    var cs := Chunks(obs, chunkSize);
    MeanOfFloats(GroupMeanSquares(cs))
  }

  /** Per group: the mean squared relative error, the error sum and the non-zero count. */
  function GroupMeanSquares(ss: seq<seq<Observation>>): (r: seq<Float>)
    ensures |r| == |ss|
  {
    seq(|ss|, j requires 0 <= j < |ss| => MeanSquaredPercentageError(ss[j]))
  }

  function GroupErrorSums(ss: seq<seq<Observation>>): (r: seq<real>)
    ensures |r| == |ss|
  {
    seq(|ss|, j requires 0 <= j < |ss| => ErrorSum(ss[j]))
  }

  function GroupCounts(ss: seq<seq<Observation>>): (r: seq<real>)
    ensures |r| == |ss|
  {
    seq(|ss|, j requires 0 <= j < |ss| => NonZeroCount(ss[j]) as real)
  }

  predicate AllZero(s: seq<real>) {
    forall k :: 0 <= k < |s| ==> s[k] == 0.0
  }

  /** Some chunk of the ground truth has no non-zero entry. */
  predicate HasZeroChunk(yTrue: seq<real>, chunkSize: nat)
    requires chunkSize > 0
  {
    exists j :: 0 <= j < |Chunks(yTrue, chunkSize)| && AllZero(Chunks(yTrue, chunkSize)[j])
  }

  // ===========================================================================
  // The mask and the selection

  /** Boolean indexing with the mask keeps no zero truth, so no division by
      zero can occur. */
  lemma {:induction false} SelectedTruthsNonZero(t: seq<real>)
    ensures forall k :: 0 <= k < |Select(t, NonZeroMask(t))| ==> Select(t, NonZeroMask(t))[k] != 0.0
  {
    if t != [] {
      var mask := NonZeroMask(t);
      assert mask[1..] == NonZeroMask(t[1..]);
      SelectedTruthsNonZero(t[1..]);
      var head := if t[0] != 0.0 then [t[0]] else [];
      var tail := Select(t[1..], NonZeroMask(t[1..]));
      var selected := Select(t, mask);
      assert selected == head + tail;
      forall k | 0 <= k < |selected|
        ensures selected[k] != 0.0
      {
        if k < |head| {
          assert selected[k] == head[k] == t[0];
        } else {
          assert selected[k] == tail[k - |head|];
        }
      }
    }
  }

  /** Boolean indexing with the mask keeps exactly the non-zero truths, each
      as often as it occurs, and no zero. */
  lemma {:induction false} SelectionKeepsNonZeros(t: seq<real>)
    ensures forall x :: multiset(Select(t, NonZeroMask(t)))[x] == if x == 0.0 then 0 else multiset(t)[x]
  {
    if t != [] {
      var mask := NonZeroMask(t);
      assert mask[1..] == NonZeroMask(t[1..]);
      SelectionKeepsNonZeros(t[1..]);
      var head := if t[0] != 0.0 then [t[0]] else [];
      var tail := Select(t[1..], NonZeroMask(t[1..]));
      assert Select(t, mask) == head + tail;
      assert t == [t[0]] + t[1..];
      assert multiset(t) == multiset{t[0]} + multiset(t[1..]);
      assert multiset(Select(t, mask)) == multiset(head) + multiset(tail);
    }
  }

  /** The same mask selects as many elements from two arrays of its length. */
  lemma {:induction false} SelectSameLength<T>(a: seq<T>, b: seq<T>, mask: seq<bool>)
    requires |a| == |mask| && |b| == |mask|
    ensures |Select(a, mask)| == |Select(b, mask)|
  {
    if a != [] {
      SelectSameLength(a[1..], b[1..], mask[1..]);
    }
  }

  /** Slicing the mask of the whole array gives the mask of the slice. */
  lemma {:induction false} MaskOfSlice(t: seq<real>, i: nat, size: nat)
    requires i <= |t|
    ensures Slice(NonZeroMask(t), i, size) == NonZeroMask(Slice(t, i, size))
  {
  }

  lemma {:induction false} SelectConcat<T>(a: seq<T>, b: seq<T>, ma: seq<bool>, mb: seq<bool>)
    requires |a| == |ma| && |b| == |mb|
    ensures Select(a + b, ma + mb) == Select(a, ma) + Select(b, mb)
    decreases |a|
  {
    if a != [] {
      assert (a + b)[1..] == a[1..] + b;
      assert (ma + mb)[1..] == ma[1..] + mb;
      SelectConcat(a[1..], b, ma[1..], mb);
    } else {
      assert a + b == b && ma + mb == mb;
    }
  }

  lemma {:induction false} RelativeErrorsConcat(a: seq<real>, b: seq<real>, c: seq<real>, d: seq<real>)
    requires |a| == |c| && |b| == |d|
    requires forall k :: 0 <= k < |a| ==> a[k] != 0.0
    requires forall k :: 0 <= k < |b| ==> b[k] != 0.0
    ensures RelativeErrors(a + b, c + d) == RelativeErrors(a, c) + RelativeErrors(b, d)
  {
  }

  lemma {:induction false} SquareAllConcat(x: seq<real>, y: seq<real>)
    ensures SquareAll(x + y) == SquareAll(x) + SquareAll(y)
  {
    var xy := x + y;
    forall k | 0 <= k < |xy|
      ensures SquareAll(xy)[k] == (SquareAll(x) + SquareAll(y))[k]
    {
      if k < |x| {
        assert xy[k] == x[k];
      } else {
        assert xy[k] == y[k - |x|];
      }
    }
  }

  lemma {:induction false} SquareAllOfOne(x: real)
    ensures SquareAll([x]) == [x * x]
  {
    var squares := SquareAll([x]);
    assert |squares| == 1 && squares[0] == x * x;
  }

  /** The chunk's error terms, as the source computes them: squared relative
      errors over the masked positions. */
  function SelectedSquaredErrors(t: seq<real>, p: seq<real>): seq<real>
    requires |t| == |p|
  {
    var mask := NonZeroMask(t);
    SelectedTruthsNonZero(t);
    SelectSameLength(t, p, mask);
    SquareAll(RelativeErrors(Select(t, mask), Select(p, mask)))
  }

  /** The masked error terms of a concatenation are those of its parts, in order. */
  lemma {:induction false} SelectedSquaredErrorsConcat(a: seq<real>, b: seq<real>, c: seq<real>, d: seq<real>)
    requires |a| == |c| && |b| == |d|
    ensures SelectedSquaredErrors(a + b, c + d) == SelectedSquaredErrors(a, c) + SelectedSquaredErrors(b, d)
  {
    var ma, mb := NonZeroMask(a), NonZeroMask(b);
    assert NonZeroMask(a + b) == ma + mb;
    SelectConcat(a, b, ma, mb);
    SelectConcat(c, d, ma, mb);
    SelectedTruthsNonZero(a);
    SelectedTruthsNonZero(b);
    SelectSameLength(a, c, ma);
    SelectSameLength(b, d, mb);
    var sa, sb, sc, sd := Select(a, ma), Select(b, mb), Select(c, ma), Select(d, mb);
    RelativeErrorsConcat(sa, sb, sc, sd);
    SquareAllConcat(RelativeErrors(sa, sc), RelativeErrors(sb, sd));
  }

  /** One position contributes its squared relative error when its truth is
      not zero, and nothing otherwise. */
  lemma {:induction false} SelectedSquaredErrorsOfOne(t: real, p: real)
    ensures SelectedSquaredErrors([t], [p]) ==
      if t != 0.0 then [SquaredPercentageError(Observation(t, p))] else []
  {
    assert NonZeroMask([t]) == [t != 0.0];
    assert [t][1..] == [] && [p][1..] == [] && [t != 0.0][1..] == [];
    if t != 0.0 {
      assert Select([t], [true]) == [t];
      assert Select([p], [true]) == [p];
      var e := (t - p) / t;
      assert RelativeErrors([t], [p]) == [e];
      SquareAllOfOne(e);
      assert SquaredPercentageError(Observation(t, p)) == e * e;
    } else {
      assert Select([t], [false]) == [];
      assert Select([p], [false]) == [];
    }
  }

  /** The masked computation agrees with the observation-wise reference: it
      sums the squared relative errors of the non-zero-truth positions and
      averages over exactly their number. */
  lemma {:induction false} SelectedErrorsAreReference(t: seq<real>, p: seq<real>)
    requires |t| == |p|
    ensures |SelectedSquaredErrors(t, p)| == NonZeroCount(Observations(t, p))
    ensures Sum(SelectedSquaredErrors(t, p)) == ErrorSum(Observations(t, p))
  {
    var obs := Observations(t, p);
    if t != [] {
      var t', p' := t[1..], p[1..];
      SelectedErrorsAreReference(t', p');
      assert obs[1..] == Observations(t', p');
      assert obs[0] == Observation(t[0], p[0]);
      assert t == [t[0]] + t' && p == [p[0]] + p';
      SelectedSquaredErrorsConcat([t[0]], t', [p[0]], p');
      SelectedSquaredErrorsOfOne(t[0], p[0]);
      var head := SelectedSquaredErrors([t[0]], [p[0]]);
      SumConcat(head, SelectedSquaredErrors(t', p'));
      assert Sum(head) == ErrorTerm(obs[0]) by {
        if t[0] != 0.0 {
          assert Sum(head) == head[0] + Sum([]);
        }
      }
    }
  }

  /** The masked computation of a chunk, `np.sqrt(np.mean(chunk_errors ** 2))`,
      gives the chunk's value. */
  lemma {:induction false} MaskedChunkRmspe(sqrt: real -> real, t: seq<real>, p: seq<real>)
    requires |t| == |p|
    ensures Sqrt(sqrt, Mean(SelectedSquaredErrors(t, p))) == ChunkRmspe(sqrt, t, p)
  {
    SelectedErrorsAreReference(t, p);
  }

  // ===========================================================================
  // Sums over observations

  lemma {:induction false} ErrorSumConcat(a: seq<Observation>, b: seq<Observation>)
    ensures ErrorSum(a + b) == ErrorSum(a) + ErrorSum(b)
    ensures NonZeroCount(a + b) == NonZeroCount(a) + NonZeroCount(b)
  {
    if a != [] {
      assert (a + b)[1..] == a[1..] + b;
      ErrorSumConcat(a[1..], b);
    } else {
      assert a + b == b;
    }
  }

  lemma {:induction false} ErrorSumNonNegative(obs: seq<Observation>)
    ensures 0.0 <= ErrorSum(obs)
  {
    if obs != [] {
      ErrorSumNonNegative(obs[1..]);
    }
  }

  /** No non-zero truth is the same as every truth being zero. */
  lemma {:induction false} NonZeroCountIsZero(obs: seq<Observation>)
    ensures NonZeroCount(obs) == 0 <==> forall k :: 0 <= k < |obs| ==> obs[k].truth == 0.0
  {
    if obs != [] {
      NonZeroCountIsZero(obs[1..]);
      assert forall k :: 1 <= k < |obs| ==> obs[k] == obs[1..][k - 1];
    }
  }

  lemma {:induction false} MeanSquaredPercentageErrorNonNegative(obs: seq<Observation>)
    ensures MeanSquaredPercentageError(obs).Num? ==> 0.0 <= MeanSquaredPercentageError(obs).value
  {
    ErrorSumNonNegative(obs);
  }

  /** The error sum and the count of a concatenation of groups add up over the groups. */
  lemma {:induction false} ErrorSumOverGroups(ss: seq<seq<Observation>>)
    ensures ErrorSum(Concat(ss)) == Sum(GroupErrorSums(ss))
    ensures NonZeroCount(Concat(ss)) as real == Sum(GroupCounts(ss))
  {
    if ss != [] {
      ErrorSumOverGroups(ss[1..]);
      ErrorSumConcat(ss[0], Concat(ss[1..]));
      var sums := GroupErrorSums(ss);
      var counts := GroupCounts(ss);
      assert sums[1..] == GroupErrorSums(ss[1..]);
      assert counts[1..] == GroupCounts(ss[1..]);
    }
  }

  /** Taking one observation out of a sequence takes its term out of the sums. */
  lemma {:induction false} ErrorSumWithout(b: seq<Observation>, j: nat)
    requires j < |b|
    ensures ErrorSum(b) == ErrorTerm(b[j]) + ErrorSum(b[..j] + b[j + 1..])
    ensures NonZeroCount(b) == (if b[j].truth != 0.0 then 1 else 0) + NonZeroCount(b[..j] + b[j + 1..])
  {
    var x := b[j];
    assert b == b[..j] + ([x] + b[j + 1..]);
    ErrorSumConcat(b[..j], [x] + b[j + 1..]);
    ErrorSumConcat([x], b[j + 1..]);
    ErrorSumConcat(b[..j], b[j + 1..]);
    assert [x][1..] == [];
  }

  /** Taking the element at j out of a sequence takes one copy of it out of its multiset. */
  lemma {:induction false} MultisetWithout<T>(b: seq<T>, j: nat)
    requires j < |b|
    ensures multiset(b[..j] + b[j + 1..]) == multiset(b) - multiset{b[j]}
  {
    assert b == b[..j] + ([b[j]] + b[j + 1..]);
    assert multiset(b) == multiset(b[..j]) + multiset{b[j]} + multiset(b[j + 1..]);
  }

  /** The first element of a permutation of b sits at some position j of b, and
      the rest of it is a permutation of b without that position. */
  lemma {:induction false} MatchFirst<T>(a: seq<T>, b: seq<T>) returns (j: nat)
    requires a != [] && multiset(a) == multiset(b)
    ensures j < |b| && b[j] == a[0]
    ensures multiset(a[1..]) == multiset(b[..j] + b[j + 1..])
  {
    assert a[0] in multiset(b);
    j :| 0 <= j < |b| && b[j] == a[0];
    assert multiset(a[1..]) == multiset(a) - multiset{a[0]} by {
      MultisetWithout(a, 0);
      assert a[..0] + a[1..] == a[1..];
    }
    MultisetWithout(b, j);
  }

  /** Sums over observations do not depend on their order. */
  lemma {:induction false} ErrorSumPermutation(a: seq<Observation>, b: seq<Observation>)
    requires multiset(a) == multiset(b)
    ensures ErrorSum(a) == ErrorSum(b)
    ensures NonZeroCount(a) == NonZeroCount(b)
    decreases |a|
  {
    if a == [] {
      assert |b| == |multiset(b)| == 0;
    } else {
      var j := MatchFirst(a, b);
      ErrorSumPermutation(a[1..], b[..j] + b[j + 1..]);
      ErrorSumWithout(b, j);
    }
  }

  /** With prediction equal to truth everywhere, every error term is zero. */
  lemma {:induction false} ErrorSumOfPerfect(obs: seq<Observation>)
    requires forall k :: 0 <= k < |obs| ==> obs[k].prediction == obs[k].truth
    ensures ErrorSum(obs) == 0.0
  {
    if obs != [] {
      ErrorSumOfPerfect(obs[1..]);
    }
  }

  // ===========================================================================
  // Chunks of the inputs and chunks of the observations

  /** Chunking the observations is chunking both inputs alike. */
  lemma {:induction false} ChunksOfObservations(t: seq<real>, p: seq<real>, size: nat)
    requires |t| == |p| && size > 0
    ensures |Chunks(Observations(t, p), size)| == |Chunks(t, size)| == |Chunks(p, size)|
    ensures forall j :: 0 <= j < |Chunks(Observations(t, p), size)| ==>
      Chunks(Observations(t, p), size)[j] == Observations(Chunks(t, size)[j], Chunks(p, size)[j])
  {
    var obs := Observations(t, p);
    var cs := Chunks(obs, size);
    forall j | 0 <= j < |cs|
      ensures cs[j] == Observations(Chunks(t, size)[j], Chunks(p, size)[j])
    {
      var i := ChunkStarts(|t|, size)[j];
      assert cs[j] == obs[i..SliceEnd(i, size, |t|)];
    }
  }

  /** The values in `chunk_rmspes` are the square roots of the chunks' mean
      squared relative errors. */
  lemma {:induction false} ChunkRmspesAreReference(sqrt: real -> real, t: seq<real>, p: seq<real>, size: nat)
    requires |t| == |p| && size > 0
    ensures |ChunkRmspes(sqrt, t, p, size)| == |Chunks(Observations(t, p), size)|
    ensures forall j :: 0 <= j < |Chunks(Observations(t, p), size)| ==>
      ChunkRmspes(sqrt, t, p, size)[j] == Sqrt(sqrt, MeanSquaredPercentageError(Chunks(Observations(t, p), size)[j]))
  {
    ChunksOfObservations(t, p, size);
  }

  // ===========================================================================
  // Properties of rmspe

  /** A chunk's value is NaN exactly when all of its ground truth is zero
      (`ChunkRmspesSquare` shows a numeric one is non-negative). */
  lemma {:induction false} ChunkNaN(sqrt: real -> real, t: seq<real>, p: seq<real>)
    requires |t| == |p|
    ensures ChunkRmspe(sqrt, t, p).NaN? <==> AllZero(t)
  {
    var obs := Observations(t, p);
    NonZeroCountIsZero(obs);
    MeanSquaredPercentageErrorNonNegative(obs);
    assert forall k :: 0 <= k < |t| ==> obs[k].truth == t[k];
  }

  /** The result is NaN exactly when the input is empty or some chunk has no
      non-zero ground truth. */
  lemma {:induction false} RmspeNaN(sqrt: real -> real, yTrue: seq<real>, yPred: seq<real>, chunkSize: nat)
    requires |yTrue| == |yPred| && chunkSize > 0
    ensures Rmspe(sqrt, yTrue, yPred, chunkSize) == Ok(NaN) <==>
      |yTrue| == 0 || HasZeroChunk(yTrue, chunkSize)
  {
    var ct := Chunks(yTrue, chunkSize);
    var cp := Chunks(yPred, chunkSize);
    var cr := ChunkRmspes(sqrt, yTrue, yPred, chunkSize);
    RangeShape(0, |yTrue|, chunkSize);
    forall j | 0 <= j < |ct|
      ensures cr[j].NaN? <==> AllZero(ct[j])
    {
      ChunkNaN(sqrt, ct[j], cp[j]);
    }
    assert HasNaN(cr) <==> HasZeroChunk(yTrue, chunkSize);
    RootMeanSquareNaN(sqrt, cr);
  }

  /** An all-zero ground truth (including an empty one) gives NaN. */
  lemma {:induction false} AllZeroTruthIsNaN(sqrt: real -> real, yTrue: seq<real>, yPred: seq<real>, chunkSize: nat)
    requires |yTrue| == |yPred| && chunkSize > 0
    requires AllZero(yTrue)
    ensures Rmspe(sqrt, yTrue, yPred, chunkSize) == Ok(NaN)
  {
    RmspeNaN(sqrt, yTrue, yPred, chunkSize);
    if |yTrue| > 0 {
      RangeShape(0, |yTrue|, chunkSize);
      var c := Chunks(yTrue, chunkSize)[0];
      assert forall k :: 0 <= k < |c| ==> c[k] == yTrue[k];
      assert AllZero(c);
    }
  }

  /** With no input the loop never runs and the mean of no chunk values is NaN. */
  lemma {:induction false} EmptyInputIsNaN(sqrt: real -> real, chunkSize: nat)
    requires chunkSize > 0
    ensures Rmspe(sqrt, [], [], chunkSize) == Ok(NaN)
  {
    assert ChunkRmspes(sqrt, [], [], chunkSize) == [];
    assert !HasNaN(SquareFloats([]));
  }

  /** The two-level aggregation: the result is the square root of the mean,
      over the chunks, of each chunk's mean squared relative error (on squared
      quantities the chunk roots cancel). */
  lemma {:induction false} TwoLevelAggregation(sqrt: real -> real, yTrue: seq<real>, yPred: seq<real>, chunkSize: nat)
    requires IsSqrt(sqrt)
    requires |yTrue| == |yPred| && chunkSize > 0
    ensures Rmspe(sqrt, yTrue, yPred, chunkSize) ==
      Ok(Sqrt(sqrt, TwoLevelMeanSquare(Observations(yTrue, yPred), chunkSize)))
  {
    var cs := Chunks(Observations(yTrue, yPred), chunkSize);
    var cr := ChunkRmspes(sqrt, yTrue, yPred, chunkSize);
    ChunkRmspesAreReference(sqrt, yTrue, yPred, chunkSize);
    var mspes := GroupMeanSquares(cs);
    forall j | 0 <= j < |cs|
      ensures SquareFloats(cr)[j] == mspes[j]
    {
      MeanSquaredPercentageErrorNonNegative(cs[j]);
      SquareOfSqrt(sqrt, mspes[j]);
    }
    assert SquareFloats(cr) == mspes;
  }

  /** Each chunk value squared gives back the chunk's mean squared relative
      error (NaN for NaN), and a chunk value that is a number is non-negative. */
  lemma {:induction false} ChunkRmspesSquare(sqrt: real -> real, yTrue: seq<real>, yPred: seq<real>, chunkSize: nat)
    requires IsSqrt(sqrt)
    requires |yTrue| == |yPred| && chunkSize > 0
    ensures |ChunkRmspes(sqrt, yTrue, yPred, chunkSize)| == |Chunks(Observations(yTrue, yPred), chunkSize)|
    ensures forall j :: 0 <= j < |ChunkRmspes(sqrt, yTrue, yPred, chunkSize)| ==>
      && Square(ChunkRmspes(sqrt, yTrue, yPred, chunkSize)[j]) ==
         MeanSquaredPercentageError(Chunks(Observations(yTrue, yPred), chunkSize)[j])
      && (ChunkRmspes(sqrt, yTrue, yPred, chunkSize)[j].Num? ==> 0.0 <= ChunkRmspes(sqrt, yTrue, yPred, chunkSize)[j].value)
  {
    var cs := Chunks(Observations(yTrue, yPred), chunkSize);
    var cr := ChunkRmspes(sqrt, yTrue, yPred, chunkSize);
    ChunkRmspesAreReference(sqrt, yTrue, yPred, chunkSize);
    forall j | 0 <= j < |cr|
      ensures Square(cr[j]) == MeanSquaredPercentageError(cs[j]) && (cr[j].Num? ==> 0.0 <= cr[j].value)
    {
      var m := MeanSquaredPercentageError(cs[j]);
      MeanSquaredPercentageErrorNonNegative(cs[j]);
      SquareOfSqrt(sqrt, m);
      if m.Num? {
        SqrtSquared(sqrt, m.value);
      }
    }
  }

  /** When the result is a number it is non-negative and its square is the
      two-level mean square; every chunk value is then a non-negative number
      whose square is that chunk's mean squared relative error. */
  lemma {:induction false} RmspeSquare(sqrt: real -> real, yTrue: seq<real>, yPred: seq<real>, chunkSize: nat, r: real)
    requires IsSqrt(sqrt)
    requires chunkSize > 0
    requires Rmspe(sqrt, yTrue, yPred, chunkSize) == Ok(Num(r))
    ensures |yTrue| == |yPred|
    ensures 0.0 <= r
    ensures TwoLevelMeanSquare(Observations(yTrue, yPred), chunkSize) == Num(r * r)
    ensures |ChunkRmspes(sqrt, yTrue, yPred, chunkSize)| == |Chunks(Observations(yTrue, yPred), chunkSize)| > 0
    ensures forall j :: 0 <= j < |ChunkRmspes(sqrt, yTrue, yPred, chunkSize)| ==>
      && ChunkRmspes(sqrt, yTrue, yPred, chunkSize)[j].Num?
      && 0.0 <= ChunkRmspes(sqrt, yTrue, yPred, chunkSize)[j].value
      && Square(ChunkRmspes(sqrt, yTrue, yPred, chunkSize)[j]) ==
         MeanSquaredPercentageError(Chunks(Observations(yTrue, yPred), chunkSize)[j])
  {
    TwoLevelAggregation(sqrt, yTrue, yPred, chunkSize);
    var cs := Chunks(Observations(yTrue, yPred), chunkSize);
    var cr := ChunkRmspes(sqrt, yTrue, yPred, chunkSize);
    var mspes := GroupMeanSquares(cs);
    var m := TwoLevelMeanSquare(Observations(yTrue, yPred), chunkSize);
    assert m.Num? && 0.0 <= m.value && r == sqrt(m.value);
    SqrtSquared(sqrt, m.value);
    assert !HasNaN(mspes) && |mspes| > 0;
    ChunkRmspesSquare(sqrt, yTrue, yPred, chunkSize);
    forall j | 0 <= j < |cr|
      ensures cr[j].Num?
    {
      assert Square(cr[j]) == mspes[j];
    }
  }

  /** When the result is defined, it is non-negative. */
  lemma {:induction false} RmspeNonNegative(sqrt: real -> real, yTrue: seq<real>, yPred: seq<real>, chunkSize: nat)
    requires IsSqrt(sqrt)
    requires chunkSize > 0
    ensures match Rmspe(sqrt, yTrue, yPred, chunkSize)
      case Ok(Num(r)) => 0.0 <= r
      case _ => true
  {
    var r := Rmspe(sqrt, yTrue, yPred, chunkSize);
    if r.Ok? && r.value.Num? {
      RmspeSquare(sqrt, yTrue, yPred, chunkSize, r.value.value);
    }
  }

  /** A chunk predicted exactly, with some non-zero truth, has no error. */
  lemma {:induction false} PerfectChunk(t: seq<real>)
    requires !AllZero(t)
    ensures MeanSquaredPercentageError(Observations(t, t)) == Num(0.0)
  {
    var obs := Observations(t, t);
    NonZeroCountIsZero(obs);
    ErrorSumOfPerfect(obs);
    assert forall k :: 0 <= k < |t| ==> obs[k].truth == t[k];
  }

  /** Perfect predictions give 0 when every chunk has a non-zero ground truth. */
  lemma {:induction false} PerfectPrediction(sqrt: real -> real, yTrue: seq<real>, chunkSize: nat)
    requires IsSqrt(sqrt)
    requires chunkSize > 0 && |yTrue| > 0
    requires !HasZeroChunk(yTrue, chunkSize)
    ensures Rmspe(sqrt, yTrue, yTrue, chunkSize) == Ok(Num(0.0))
  {
    var ct := Chunks(yTrue, chunkSize);
    var values := ChunkRmspes(sqrt, yTrue, yTrue, chunkSize);
    SqrtOfZero(sqrt);
    forall j | 0 <= j < |values|
      ensures values[j] == Num(0.0)
    {
      assert !AllZero(ct[j]);
      PerfectChunk(ct[j]);
    }
    assert Range(0, |yTrue|, chunkSize) == [0] + Range(chunkSize, |yTrue|, chunkSize);
    RootMeanSquareOfZeros(sqrt, values);
  }

  /** In particular, `rmspe(x, x)` is 0 for any non-empty x without zeros. */
  lemma {:induction false} PerfectPredictionNoZeros(sqrt: real -> real, yTrue: seq<real>, chunkSize: nat)
    requires IsSqrt(sqrt)
    requires chunkSize > 0 && |yTrue| > 0
    requires forall k :: 0 <= k < |yTrue| ==> yTrue[k] != 0.0
    ensures Rmspe(sqrt, yTrue, yTrue, chunkSize) == Ok(Num(0.0))
  {
    var ct := Chunks(yTrue, chunkSize);
    ChunkLengths(yTrue, chunkSize);
    forall j | 0 <= j < |ct|
      ensures !AllZero(ct[j])
    {
      var i := ChunkStarts(|yTrue|, chunkSize)[j];
      assert 0 < |ct[j]|;
      assert ct[j][0] == yTrue[i];
    }
    PerfectPrediction(sqrt, yTrue, chunkSize);
  }

  /** On no observations both the two-level and the flat mean square are NaN. */
  lemma {:induction false} EmptyMeanSquares(obs: seq<Observation>, chunkSize: nat)
    requires chunkSize > 0 && |obs| == 0
    ensures TwoLevelMeanSquare(obs, chunkSize) == NaN
    ensures MeanSquaredPercentageError(obs) == NaN
  {
    NoChunks(obs, chunkSize);
    var cs := Chunks(obs, chunkSize);
    MeanOfFloatsNaN(GroupMeanSquares(cs));
  }

  /** With a single chunk the two-level mean square is the flat one. */
  lemma {:induction false} SingleChunkMeanSquare(obs: seq<Observation>, chunkSize: nat)
    requires 0 < |obs| <= chunkSize
    ensures TwoLevelMeanSquare(obs, chunkSize) == MeanSquaredPercentageError(obs)
  {
    SingleChunk(obs, chunkSize);
    var cs := Chunks(obs, chunkSize);
    var mspes := GroupMeanSquares(cs);
    assert mspes == [MeanSquaredPercentageError(obs)];
    MeanOfSingleton(MeanSquaredPercentageError(obs));
  }

  /** With one chunk (chunk size at least the length) the result is the flat RMSPE. */
  lemma {:induction false} SingleChunkIsFlat(sqrt: real -> real, yTrue: seq<real>, yPred: seq<real>, chunkSize: nat)
    requires IsSqrt(sqrt)
    requires chunkSize > 0 && |yTrue| <= chunkSize
    ensures Rmspe(sqrt, yTrue, yPred, chunkSize) == FlatRmspe(sqrt, yTrue, yPred)
  {
    if |yTrue| == |yPred| {
      var obs := Observations(yTrue, yPred);
      TwoLevelAggregation(sqrt, yTrue, yPred, chunkSize);
      if |obs| == 0 {
        EmptyMeanSquares(obs, chunkSize);
      } else {
        SingleChunkMeanSquare(obs, chunkSize);
      }
    }
  }

  /** A chunk size beyond the length behaves as a chunk size equal to it. */
  lemma {:induction false} ChunkSizeBeyondLength(sqrt: real -> real, yTrue: seq<real>, yPred: seq<real>, chunkSize: nat)
    requires IsSqrt(sqrt)
    requires 0 < |yTrue| <= chunkSize
    ensures Rmspe(sqrt, yTrue, yPred, chunkSize) == Rmspe(sqrt, yTrue, yPred, |yTrue|)
  {
    SingleChunkIsFlat(sqrt, yTrue, yPred, chunkSize);
    SingleChunkIsFlat(sqrt, yTrue, yPred, |yTrue|);
  }

  /** With one chunk, permuting the observations does not change the result. */
  lemma {:induction false} SingleChunkPermutationInvariant(sqrt: real -> real, yTrue: seq<real>, yPred: seq<real>,
                                        yTrue': seq<real>, yPred': seq<real>, chunkSize: nat)
    requires IsSqrt(sqrt)
    requires |yTrue| == |yPred| && |yTrue'| == |yPred'|
    requires chunkSize > 0 && |yTrue| <= chunkSize
    requires multiset(Observations(yTrue, yPred)) == multiset(Observations(yTrue', yPred'))
    ensures Rmspe(sqrt, yTrue, yPred, chunkSize) == Rmspe(sqrt, yTrue', yPred', chunkSize)
  {
    var obs, obs' := Observations(yTrue, yPred), Observations(yTrue', yPred');
    assert |obs| == |multiset(obs)| == |multiset(obs')| == |obs'|;
    SingleChunkIsFlat(sqrt, yTrue, yPred, chunkSize);
    SingleChunkIsFlat(sqrt, yTrue', yPred', chunkSize);
    ErrorSumPermutation(obs, obs');
  }

  /** With several chunks, permuting the observations leaves the result
      unchanged when, before and after, every chunk has the same number of
      non-zero truths. */
  lemma {:induction false} EqualCountsPermutationInvariant(sqrt: real -> real, yTrue: seq<real>, yPred: seq<real>,
                                        yTrue': seq<real>, yPred': seq<real>, chunkSize: nat, count: nat, count': nat)
    requires IsSqrt(sqrt)
    requires |yTrue| == |yPred| && |yTrue'| == |yPred'| && chunkSize > 0
    requires multiset(Observations(yTrue, yPred)) == multiset(Observations(yTrue', yPred'))
    requires forall j :: 0 <= j < |Chunks(Observations(yTrue, yPred), chunkSize)| ==>
      NonZeroCount(Chunks(Observations(yTrue, yPred), chunkSize)[j]) == count
    requires forall j :: 0 <= j < |Chunks(Observations(yTrue', yPred'), chunkSize)| ==>
      NonZeroCount(Chunks(Observations(yTrue', yPred'), chunkSize)[j]) == count'
    ensures Rmspe(sqrt, yTrue, yPred, chunkSize) == Rmspe(sqrt, yTrue', yPred', chunkSize)
  {
    var obs, obs' := Observations(yTrue, yPred), Observations(yTrue', yPred');
    assert |obs| == |multiset(obs)| == |multiset(obs')| == |obs'|;
    EqualCountsMatchFlat(sqrt, yTrue, yPred, chunkSize, count);
    EqualCountsMatchFlat(sqrt, yTrue', yPred', chunkSize, count');
    ErrorSumPermutation(obs, obs');
  }

  /** The mean over groups of the per-group mean squared relative errors, when
      every group has the same non-zero count c: the sum of the error sums over c,
      divided by the number of groups. */
  lemma {:induction false} MeanOfGroupErrors(ss: seq<seq<Observation>>, count: nat)
    requires count > 0 && |ss| > 0
    requires forall j :: 0 <= j < |ss| ==> NonZeroCount(ss[j]) == count
    ensures MeanOfFloats(GroupMeanSquares(ss)) ==
      Num(Sum(GroupErrorSums(ss)) / count as real / |ss| as real)
  {
    var c := count as real;
    var k := |ss|;
    var mspes := GroupMeanSquares(ss);
    var sums := GroupErrorSums(ss);
    assert forall j :: 0 <= j < k ==> mspes[j] == Num(sums[j] / c);
    assert !HasNaN(mspes);
    SumScaled(sums, Values(mspes), c);
  }

  /** The flat mean squared relative error of groups with the same non-zero
      count: the sum of the error sums over (number of groups * count). */
  lemma {:induction false} MeanOfConcatenatedGroups(ss: seq<seq<Observation>>, count: nat)
    requires count > 0 && |ss| > 0
    requires forall j :: 0 <= j < |ss| ==> NonZeroCount(ss[j]) == count
    ensures MeanSquaredPercentageError(Concat(ss)) ==
      Num(Sum(GroupErrorSums(ss)) / count as real / |ss| as real)
  {
    var counts := GroupCounts(ss);
    assert forall j :: 0 <= j < |counts| ==> counts[j] == count as real;
    ErrorSumOverGroups(ss);
    MeanOfCount(Concat(ss), Sum(GroupErrorSums(ss)), counts, count as real);
  }

  /** Averaging per-group mean squared relative errors over groups with equal
      non-zero counts gives the mean squared relative error of all the groups together. */
  lemma {:induction false} MeanOfEqualCountGroups(ss: seq<seq<Observation>>, count: nat)
    requires count > 0 && |ss| > 0
    requires forall j :: 0 <= j < |ss| ==> NonZeroCount(ss[j]) == count
    ensures MeanOfFloats(GroupMeanSquares(ss)) ==
      MeanSquaredPercentageError(Concat(ss))
  {
    MeanOfGroupErrors(ss, count);
    MeanOfConcatenatedGroups(ss, count);
  }

  /** A mean squared relative error from its error sum and a non-zero count
      made of k equal parts c. */
  lemma {:induction false} MeanOfCount(obs: seq<Observation>, total: real, counts: seq<real>, c: real)
    requires 0 < |counts| && 0.0 < c
    requires forall j :: 0 <= j < |counts| ==> counts[j] == c
    requires NonZeroCount(obs) as real == Sum(counts) && ErrorSum(obs) == total
    ensures MeanSquaredPercentageError(obs) == Num(total / c / |counts| as real)
  {
    var k := |counts| as real;
    SumOfConstant(counts, c);
    PositiveProduct(k, c);
    QuotientOfQuotient(total, c, k);
    assert NonZeroCount(obs) as real == k * c;
  }

  lemma {:induction false} PositiveProduct(x: real, y: real)
    requires 0.0 < x && 0.0 < y
    ensures 0.0 < x * y
  {
  }

  lemma {:induction false} QuotientOfQuotient(x: real, a: real, b: real)
    requires a != 0.0 && b != 0.0
    ensures x / a / b == x / (b * a)
  {
  }

  /** When every chunk has the same number of non-zero truths, the two-level
      result coincides with the flat RMSPE (both are NaN when that number is 0). */
  lemma {:induction false} EqualCountsMatchFlat(sqrt: real -> real, yTrue: seq<real>, yPred: seq<real>, chunkSize: nat, count: nat)
    requires IsSqrt(sqrt)
    requires |yTrue| == |yPred| && chunkSize > 0
    requires forall j :: 0 <= j < |Chunks(Observations(yTrue, yPred), chunkSize)| ==>
      NonZeroCount(Chunks(Observations(yTrue, yPred), chunkSize)[j]) == count
    ensures Rmspe(sqrt, yTrue, yPred, chunkSize) == FlatRmspe(sqrt, yTrue, yPred)
  {
    var obs := Observations(yTrue, yPred);
    var cs := Chunks(obs, chunkSize);
    TwoLevelAggregation(sqrt, yTrue, yPred, chunkSize);
    if |obs| == 0 {
      EmptyMeanSquares(obs, chunkSize);
    } else {
      RangeShape(0, |obs|, chunkSize);
      ChunksCover(obs, chunkSize);
      if count > 0 {
        MeanOfEqualCountGroups(cs, count);
      } else {
        NoNonZeroGroups(cs);
      }
    }
  }

  /** Non-empty groups none of which has a non-zero truth: the mean over the
      groups and the mean of their concatenation are both NaN. */
  lemma {:induction false} NoNonZeroGroups(ss: seq<seq<Observation>>)
    requires |ss| > 0
    requires forall j :: 0 <= j < |ss| ==> NonZeroCount(ss[j]) == 0
    ensures MeanOfFloats(GroupMeanSquares(ss)) == NaN
    ensures MeanSquaredPercentageError(Concat(ss)) == NaN
  {
    var mspes := GroupMeanSquares(ss);
    assert mspes[0] == NaN;
    assert HasNaN(mspes);
    var counts := GroupCounts(ss);
    ErrorSumOverGroups(ss);
    SumOfZeros(counts);
  }

  /** Counting the non-zero truths of observations that have no zero truth gives their number. */
  lemma {:induction false} NonZeroCountOfNonZeros(obs: seq<Observation>)
    requires forall k :: 0 <= k < |obs| ==> obs[k].truth != 0.0
    ensures NonZeroCount(obs) == |obs|
  {
    if obs != [] {
      NonZeroCountOfNonZeros(obs[1..]);
    }
  }

  lemma {:induction false} ErrorSumOfPair(a: Observation, b: Observation)
    ensures ErrorSum([a]) == ErrorTerm(a)
    ensures ErrorSum([a, b]) == ErrorTerm(a) + ErrorTerm(b)
  {
    assert [a][1..] == [];
    assert [a, b][1..] == [b];
    assert [b][1..] == [];
  }

  /** The squared relative errors of the worked example's observations. */
  lemma {:induction false} ExampleErrorTerms()
    ensures ErrorTerm(Observation(100.0, 110.0)) == 0.01
    ensures ErrorTerm(Observation(200.0, 190.0)) == 0.0025
    ensures ErrorTerm(Observation(300.0, 300.0)) == 0.0
    ensures ErrorTerm(Observation(400.0, 420.0)) == 0.0025
    ensures ErrorTerm(Observation(500.0, 480.0)) == 0.0016
  {
  }

  /** The observations of the worked example. */
  function ExampleTruth(): seq<real> { [100.0, 200.0, 300.0, 400.0, 500.0] }
  function ExamplePrediction(): seq<real> { [110.0, 190.0, 300.0, 420.0, 480.0] }

  /** The relative errors `(t - p) / t` of the worked example. */
  lemma {:induction false} ExampleRelativeErrors()
    ensures RelativeErrors(ExampleTruth(), ExamplePrediction()) == [-0.1, 0.05, 0.0, -0.05, 0.04]
  {
  }

  /** The worked example in one chunk (the default chunk size): the flat value
      sqrt(0.0166 / 5) = sqrt(0.00332). */
  lemma {:induction false} WorkedExampleOneChunk(sqrt: real -> real)
    requires IsSqrt(sqrt)
    ensures Rmspe(sqrt, ExampleTruth(), ExamplePrediction(), DefaultChunkSize) == Ok(Num(sqrt(0.00332)))
  {
    var t, p := ExampleTruth(), ExamplePrediction();
    var o0, o1, o2, o3, o4 := Observation(100.0, 110.0), Observation(200.0, 190.0),
      Observation(300.0, 300.0), Observation(400.0, 420.0), Observation(500.0, 480.0);
    var obs := Observations(t, p);
    assert obs == [o0, o1, o2, o3, o4];
    assert ErrorSum([o4]) == 0.0016 by { assert [o4][1..] == []; }
    assert ErrorSum([o3, o4]) == 0.0041 by { assert [o3, o4][1..] == [o4]; }
    assert ErrorSum([o2, o3, o4]) == 0.0041 by { assert [o2, o3, o4][1..] == [o3, o4]; }
    assert ErrorSum([o1, o2, o3, o4]) == 0.0066 by { assert [o1, o2, o3, o4][1..] == [o2, o3, o4]; }
    assert ErrorSum(obs) == 0.0166 by { assert obs[1..] == [o1, o2, o3, o4]; }
    NonZeroCountOfNonZeros(obs);
    assert MeanSquaredPercentageError(obs) == Num(0.00332);
    SingleChunkIsFlat(sqrt, t, p, DefaultChunkSize);
  }

  /** Five elements in chunks of two: two pairs and a last single element. */
  lemma {:induction false} ChunksOfFiveByTwo<T>(s: seq<T>)
    requires |s| == 5
    ensures Chunks(s, 2) == [s[0..2], s[2..4], s[4..5]]
  {
    assert ChunkStarts(5, 2) == [0, 2, 4] by {
      assert Range(0, 5, 2) == [0] + Range(2, 5, 2);
      assert Range(2, 5, 2) == [2] + Range(4, 5, 2);
      assert Range(4, 5, 2) == [4] + Range(6, 5, 2);
    }
    var cs := Chunks(s, 2);
    assert cs[0] == Slice(s, 0, 2) == s[0..2];
    assert cs[1] == Slice(s, 2, 2) == s[2..4];
    assert cs[2] == Slice(s, 4, 2) == s[4..5];
  }

  /** The mean squared relative error of two observations with non-zero truths. */
  lemma {:induction false} MeanSquareOfPair(a: Observation, b: Observation)
    requires a.truth != 0.0 && b.truth != 0.0
    ensures MeanSquaredPercentageError([a, b]) == Num((ErrorTerm(a) + ErrorTerm(b)) / 2.0)
  {
    ErrorSumOfPair(a, b);
    NonZeroCountOfNonZeros([a, b]);
  }

  /** The mean squared relative error of one observation with a non-zero truth. */
  lemma {:induction false} MeanSquareOfOne(a: Observation)
    requires a.truth != 0.0
    ensures MeanSquaredPercentageError([a]) == Num(ErrorTerm(a))
  {
    ErrorSumOfPair(a, a);
    NonZeroCountOfNonZeros([a]);
  }

  /** In chunks of two, the worked example's chunks have mean squared relative
      errors 0.00625, 0.00125 and 0.0016. */
  lemma {:induction false} ExampleChunksOfTwo()
    ensures GroupMeanSquares(Chunks(Observations(ExampleTruth(), ExamplePrediction()), 2)) ==
      [Num(0.00625), Num(0.00125), Num(0.0016)]
  {
    var o0, o1, o2, o3, o4 := Observation(100.0, 110.0), Observation(200.0, 190.0),
      Observation(300.0, 300.0), Observation(400.0, 420.0), Observation(500.0, 480.0);
    var obs := Observations(ExampleTruth(), ExamplePrediction());
    assert obs == [o0, o1, o2, o3, o4];
    ChunksOfFiveByTwo(obs);
    assert obs[0..2] == [o0, o1] && obs[2..4] == [o2, o3] && obs[4..5] == [o4];
    ExampleErrorTerms();
    MeanSquareOfPair(o0, o1);
    MeanSquareOfPair(o2, o3);
    MeanSquareOfOne(o4);
  }

  /** The worked example in chunks of two: the mean of the chunks' mean squares
      is 0.0091 / 3, so the result is sqrt(0.0091 / 3). */
  lemma {:induction false} WorkedExampleChunksOfTwo(sqrt: real -> real)
    requires IsSqrt(sqrt)
    ensures Rmspe(sqrt, ExampleTruth(), ExamplePrediction(), 2) == Ok(Num(sqrt(0.0091 / 3.0)))
  {
    TwoLevelAggregation(sqrt, ExampleTruth(), ExamplePrediction(), 2);
    ExampleChunksOfTwo();
    MeanOfThree(0.00625, 0.00125, 0.0016);
  }

  /** The two values of the worked example differ: the result depends on the chunk size. */
  lemma {:induction false} WorkedExampleDependsOnChunkSize(sqrt: real -> real)
    requires IsSqrt(sqrt)
    ensures Rmspe(sqrt, ExampleTruth(), ExamplePrediction(), DefaultChunkSize) !=
      Rmspe(sqrt, ExampleTruth(), ExamplePrediction(), 2)
  {
    WorkedExampleOneChunk(sqrt);
    WorkedExampleChunksOfTwo(sqrt);
    SqrtSquared(sqrt, 0.00332);
    SqrtSquared(sqrt, 0.0091 / 3.0);
    SquaresOfEqual(sqrt(0.00332), sqrt(0.0091 / 3.0));
  }

  /** In chunks of one, the j-th chunk is the j-th element alone. */
  lemma {:induction false} UnitChunks<T>(s: seq<T>)
    ensures |Chunks(s, 1)| == |s|
    ensures forall j :: 0 <= j < |s| ==> Chunks(s, 1)[j] == [s[j]]
  {
    RangeShape(0, |s|, 1);
    var starts := ChunkStarts(|s|, 1);
    assert |starts| == |s|;
    forall j | 0 <= j < |s|
      ensures Chunks(s, 1)[j] == [s[j]]
    {
      assert starts[j] == j;
      assert Slice(s, j, 1) == s[j..j + 1];
    }
  }

  /** A zero truth at position k makes its own chunk of one all-zero, so the
      result in chunks of one is NaN. */
  lemma {:induction false} ZeroTruthInUnitChunks(sqrt: real -> real, yTrue: seq<real>, yPred: seq<real>, k: nat)
    requires |yTrue| == |yPred| && k < |yTrue| && yTrue[k] == 0.0
    ensures Rmspe(sqrt, yTrue, yPred, 1) == Ok(NaN)
  {
    UnitChunks(yTrue);
    assert AllZero(Chunks(yTrue, 1)[k]);
    RmspeNaN(sqrt, yTrue, yPred, 1);
  }

  /** Without zero truths, every chunk of one observation has non-zero count 1. */
  lemma {:induction false} UnitChunkCounts(obs: seq<Observation>)
    requires forall k :: 0 <= k < |obs| ==> obs[k].truth != 0.0
    ensures forall j :: 0 <= j < |Chunks(obs, 1)| ==> NonZeroCount(Chunks(obs, 1)[j]) == 1
  {
    UnitChunks(obs);
    forall j | 0 <= j < |Chunks(obs, 1)|
      ensures NonZeroCount(Chunks(obs, 1)[j]) == 1
    {
      NonZeroCountOfNonZeros([obs[j]]);
    }
  }

  /** An observation of one sequence occurs in any permutation of it. */
  lemma {:induction false} OccursInPermutation<T>(a: seq<T>, b: seq<T>, k: nat) returns (k': nat)
    requires multiset(a) == multiset(b) && k < |a|
    ensures k' < |b| && b[k'] == a[k]
  {
    assert a[k] in multiset(b);
    k' :| 0 <= k' < |b| && b[k'] == a[k];
  }

  /** In chunks of one, permuting the observations never changes the result:
      with a zero truth both results are NaN, without one every chunk has
      non-zero count 1. */
  lemma {:induction false} UnitChunksPermutationInvariant(sqrt: real -> real, yTrue: seq<real>, yPred: seq<real>,
                                        yTrue': seq<real>, yPred': seq<real>)
    requires IsSqrt(sqrt)
    requires |yTrue| == |yPred| && |yTrue'| == |yPred'|
    requires multiset(Observations(yTrue, yPred)) == multiset(Observations(yTrue', yPred'))
    ensures Rmspe(sqrt, yTrue, yPred, 1) == Rmspe(sqrt, yTrue', yPred', 1)
  {
    var obs, obs' := Observations(yTrue, yPred), Observations(yTrue', yPred');
    if k :| 0 <= k < |obs| && obs[k].truth == 0.0 {
      var k' := OccursInPermutation(obs, obs', k);
      ZeroTruthInUnitChunks(sqrt, yTrue, yPred, k);
      ZeroTruthInUnitChunks(sqrt, yTrue', yPred', k');
    } else if k' :| 0 <= k' < |obs'| && obs'[k'].truth == 0.0 {
      var k := OccursInPermutation(obs', obs, k');
      assert false;
    } else {
      UnitChunkCounts(obs);
      UnitChunkCounts(obs');
      EqualCountsPermutationInvariant(sqrt, yTrue, yPred, yTrue', yPred', 1, 1, 1);
    }
  }

  /** The worked example with its first and last observations swapped. */
  function SwappedTruth(): seq<real> { [500.0, 200.0, 300.0, 400.0, 100.0] }
  function SwappedPrediction(): seq<real> { [480.0, 190.0, 300.0, 420.0, 110.0] }

  /** In chunks of two, the swapped example's chunks have mean squared relative
      errors 0.00205, 0.00125 and 0.01. */
  lemma {:induction false} SwappedChunksOfTwo()
    ensures GroupMeanSquares(Chunks(Observations(SwappedTruth(), SwappedPrediction()), 2)) ==
      [Num(0.00205), Num(0.00125), Num(0.01)]
  {
    var o0, o1, o2, o3, o4 := Observation(100.0, 110.0), Observation(200.0, 190.0),
      Observation(300.0, 300.0), Observation(400.0, 420.0), Observation(500.0, 480.0);
    var obs := Observations(SwappedTruth(), SwappedPrediction());
    assert obs == [o4, o1, o2, o3, o0];
    ChunksOfFiveByTwo(obs);
    assert obs[0..2] == [o4, o1] && obs[2..4] == [o2, o3] && obs[4..5] == [o0];
    ExampleErrorTerms();
    MeanSquareOfPair(o4, o1);
    MeanSquareOfPair(o2, o3);
    MeanSquareOfOne(o0);
  }

  /** The swapped example in chunks of two gives sqrt(0.0133 / 3). */
  lemma {:induction false} SwappedExampleChunksOfTwo(sqrt: real -> real)
    requires IsSqrt(sqrt)
    ensures Rmspe(sqrt, SwappedTruth(), SwappedPrediction(), 2) == Ok(Num(sqrt(0.0133 / 3.0)))
  {
    TwoLevelAggregation(sqrt, SwappedTruth(), SwappedPrediction(), 2);
    SwappedChunksOfTwo();
    MeanOfThree(0.00205, 0.00125, 0.01);
  }

  /** The swapped example holds the same observations as the worked example. */
  lemma {:induction false} SwappedSameObservations()
    ensures multiset(Observations(ExampleTruth(), ExamplePrediction())) ==
      multiset(Observations(SwappedTruth(), SwappedPrediction()))
  {
    var o0, o1, o2, o3, o4 := Observation(100.0, 110.0), Observation(200.0, 190.0),
      Observation(300.0, 300.0), Observation(400.0, 420.0), Observation(500.0, 480.0);
    assert Observations(ExampleTruth(), ExamplePrediction()) == [o0, o1, o2, o3, o4];
    assert Observations(SwappedTruth(), SwappedPrediction()) == [o4, o1, o2, o3, o0];
    assert [o0, o1, o2, o3, o4] == [o0] + [o1, o2, o3] + [o4];
    assert [o4, o1, o2, o3, o0] == [o4] + [o1, o2, o3] + [o0];
  }

  /** With chunks of two or more observations the result can depend on which
      observations share a chunk: swapping two observations of the worked
      example changes the result in chunks of two. */
  lemma {:induction false} PermutationChangesResult(sqrt: real -> real)
    requires IsSqrt(sqrt)
    ensures multiset(Observations(ExampleTruth(), ExamplePrediction())) ==
      multiset(Observations(SwappedTruth(), SwappedPrediction()))
    ensures Rmspe(sqrt, ExampleTruth(), ExamplePrediction(), 2) !=
      Rmspe(sqrt, SwappedTruth(), SwappedPrediction(), 2)
  {
    SwappedSameObservations();
    WorkedExampleChunksOfTwo(sqrt);
    SwappedExampleChunksOfTwo(sqrt);
    assert sqrt(0.0091 / 3.0) != sqrt(0.0133 / 3.0) by {
      SqrtSquared(sqrt, 0.0091 / 3.0);
      SqrtSquared(sqrt, 0.0133 / 3.0);
      SquaresOfEqual(sqrt(0.0091 / 3.0), sqrt(0.0133 / 3.0));
    }
  }
}
