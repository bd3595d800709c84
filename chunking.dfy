/** How the metric walks its input: Python's `range(0, n, step)` for the chunk
    starts, and Python slicing `s[i:i+size]`, which stops at the end of `s`. */
module Chunking {

  /** Python's `range(start, stop, step)` for a positive step. */
  function Range(start: nat, stop: nat, step: nat): (r: seq<nat>)
    requires step > 0
    ensures forall k :: 0 <= k < |r| ==> start <= r[k] < stop
    decreases stop - start
  {
    if start >= stop then [] else [start] + Range(start + step, stop, step)
  }

  /** Where the Python slice `s[i:i+size]` of a sequence of length n ends. */
  function SliceEnd(i: nat, size: nat, n: nat): nat {
    if i + size <= n then i + size else n
  }

  /** Python's `s[i:i+size]` for a start inside the sequence or at its end. */
  function Slice<T>(s: seq<T>, i: nat, size: nat): seq<T>
    requires i <= |s|
  {
    s[i..SliceEnd(i, size, |s|)]
  }

  /** The chunk starts the loop visits: `range(0, n, size)`. */
  function ChunkStarts(n: nat, size: nat): seq<nat>
    requires size > 0
  {
    Range(0, n, size)
  }

  /** The slices `s[start:start+size]` for a list of starts. */
  function SlicesAt<T>(s: seq<T>, starts: seq<nat>, size: nat): (r: seq<seq<T>>)
    requires forall k :: 0 <= k < |starts| ==> starts[k] <= |s|
    ensures |r| == |starts|
  {
    seq(|starts|, j requires 0 <= j < |starts| => Slice(s, starts[j], size))
  }

  /** The chunks the loop visits, in order. */
  function Chunks<T>(s: seq<T>, size: nat): seq<seq<T>>
    requires size > 0
  {
    SlicesAt(s, ChunkStarts(|s|, size), size)
  }

  /** Flattening a sequence of sequences. */
  function Concat<T>(ss: seq<seq<T>>): seq<T> {
    if ss == [] then [] else ss[0] + Concat(ss[1..])
  }

  // ---------------------------------------------------------------------------
  // Arithmetic helpers

  lemma {:induction false} NonNegativeProduct(x: nat, y: nat)
    ensures 0 <= x * y
  {
    if x > 0 {
      NonNegativeProduct(x - 1, y);
      assert x * y == (x - 1) * y + y;
    }
  }

  lemma {:induction false} MulMonotone(a: int, b: int, d: nat)
    ensures a <= b ==> a * d <= b * d
  {
    if a <= b {
      assert b * d - a * d == (b - a) * d;
      NonNegativeProduct(b - a, d);
    }
  }

  lemma {:induction false} DivIsQuotient(x: int, d: int, q: int)
    requires 0 < d && q * d <= x < q * d + d
    ensures x / d == q
  {
    var m := x / d;
    assert m * d + x % d == x && 0 <= x % d < d;
    assert (m + 1) * d == m * d + d;
    assert (q + 1) * d == q * d + d;
    MulMonotone(m + 1, q, d);
    MulMonotone(q + 1, m, d);
  }

  // ---------------------------------------------------------------------------
  // The shape of range(start, stop, step)

  lemma {:induction false} MulSucc(k: int, d: int)
    ensures k * d + d == (k + 1) * d
  {
  }

  /** The k-th element of range(start, stop, step) is start + k * step. */
  lemma {:induction false} RangeElements(start: nat, stop: nat, step: nat)
    requires step > 0
    ensures forall k :: 0 <= k < |Range(start, stop, step)| ==> Range(start, stop, step)[k] == start + k * step
    decreases stop - start
  {
    if start < stop {
      var r := Range(start, stop, step);
      var r' := Range(start + step, stop, step);
      RangeElements(start + step, stop, step);
      assert r == [start] + r';
      forall k | 0 <= k < |r|
        ensures r[k] == start + k * step
      {
        if k > 0 {
          assert r[k] == r'[k - 1] == start + step + (k - 1) * step;
          MulSucc(k - 1, step);
        }
      }
    }
  }

  /** A non-empty range reaches stop with its last element:
      (|r| - 1) * step < stop - start <= |r| * step. */
  lemma {:induction false} RangeLength(start: nat, stop: nat, step: nat)
    requires step > 0 && start < stop
    ensures (|Range(start, stop, step)| - 1) * step < stop - start <= |Range(start, stop, step)| * step
    decreases stop - start
  {
    var n' := |Range(start + step, stop, step)|;
    assert |Range(start, stop, step)| == n' + 1;
    if start + step < stop {
      RangeLength(start + step, stop, step);
      MulSucc(n', step);
    } else {
      assert n' == 0;
    }
  }

  /** The k-th element is start + k * step, and the elements reach stop with
      the last one: (|r| - 1) * step < stop - start <= |r| * step. */
  lemma {:induction false} RangeShape(start: nat, stop: nat, step: nat)
    requires step > 0
    ensures var r := Range(start, stop, step);
      && (forall k :: 0 <= k < |r| ==> r[k] == start + k * step)
      && (start >= stop <==> |r| == 0)
      && (start < stop ==> (|r| - 1) * step < stop - start <= |r| * step)
  {
    RangeElements(start, stop, step);
    if start < stop {
      RangeLength(start, stop, step);
    }
  }

  /** A list of starts that begins with i gives a first slice at i. */
  lemma {:induction false} SlicesAtCons<T>(s: seq<T>, i: nat, rest: seq<nat>, size: nat)
    requires i <= |s|
    requires forall k :: 0 <= k < |rest| ==> rest[k] <= |s|
    ensures SlicesAt(s, [i] + rest, size) == [Slice(s, i, size)] + SlicesAt(s, rest, size)
  {
  }

  lemma {:induction false} ConcatSlicesFrom<T>(s: seq<T>, i: nat, size: nat)
    requires size > 0 && i <= |s|
    ensures Concat(SlicesAt(s, Range(i, |s|, size), size)) == s[i..]
    decreases |s| - i
  {
    if i < |s| {
      var rest := Range(i + size, |s|, size);
      var tail := Concat(SlicesAt(s, rest, size));
      assert Concat(SlicesAt(s, Range(i, |s|, size), size)) == Slice(s, i, size) + tail by {
        assert Range(i, |s|, size) == [i] + rest;
        SlicesAtCons(s, i, rest, size);
        assert SlicesAt(s, [i] + rest, size)[1..] == SlicesAt(s, rest, size);
      }
      assert Slice(s, i, size) + tail == s[i..] by {
        if i + size <= |s| {
          ConcatSlicesFrom(s, i + size, size);
          assert s[i..] == s[i..i + size] + s[i + size..];
        } else {
          assert rest == [];
          assert tail == [];
        }
      }
    }
  }

  // ---------------------------------------------------------------------------
  // Properties of the partition into chunks

  /** The loop visits ceil(n / size) chunks, the j-th starting at j * size. */
  lemma {:induction false} ChunkCount<T>(s: seq<T>, size: nat)
    requires size > 0
    ensures |Chunks(s, size)| == (|s| + size - 1) / size
    ensures forall j :: 0 <= j < |Chunks(s, size)| ==> ChunkStarts(|s|, size)[j] == j * size
  {
    var n := |s|;
    var k := |ChunkStarts(n, size)|;
    RangeShape(0, n, size);
    if n > 0 {
      assert k * size <= n + size - 1 < k * size + size;
      DivIsQuotient(n + size - 1, size, k);
    } else {
      DivIsQuotient(size - 1, size, 0);
    }
  }

  /** Every chunk but the last has exactly size elements; the last one has
      between 1 and size. */
  lemma {:induction false} ChunkLengths<T>(s: seq<T>, size: nat)
    requires size > 0
    ensures var cs := Chunks(s, size);
      && (forall j :: 0 <= j < |cs| - 1 ==> |cs[j]| == size)
      && (|cs| > 0 ==> 0 < |cs[|cs| - 1]| <= size)
  {
    var cs := Chunks(s, size);
    var starts := ChunkStarts(|s|, size);
    var k := |cs|;
    RangeShape(0, |s|, size);
    forall j | 0 <= j < k - 1
      ensures |cs[j]| == size
    {
      assert starts[j] == j * size;
      MulMonotone(j + 1, k - 1, size);
      assert (j + 1) * size == j * size + size;
    }
    if k > 0 {
      assert starts[k - 1] == (k - 1) * size;
    }
  }

  /** The chunks cover the sequence exactly once and in order. */
  lemma {:induction false} ChunksCover<T>(s: seq<T>, size: nat)
    requires size > 0
    ensures Concat(Chunks(s, size)) == s
  {
    ConcatSlicesFrom(s, 0, size);
  }

  /** Position p lies in chunk j exactly when j == p / size. */
  lemma {:induction false} ChunkOfPosition(n: nat, size: nat, p: nat)
    requires size > 0 && p < n
    ensures p / size < |ChunkStarts(n, size)|
    ensures forall j :: 0 <= j < |ChunkStarts(n, size)| ==>
      (ChunkStarts(n, size)[j] <= p < SliceEnd(ChunkStarts(n, size)[j], size, n) <==> j == p / size)
  {
    var starts := ChunkStarts(n, size);
    var k := |starts|;
    RangeShape(0, n, size);
    var q := p / size;
    assert q * size + p % size == p;
    MulMonotone(k, q, size);
    forall j | 0 <= j < k
      ensures starts[j] <= p < SliceEnd(starts[j], size, n) <==> j == q
    {
      assert starts[j] == j * size;
      if j * size <= p < j * size + size {
        DivIsQuotient(p, size, j);
      }
    }
  }

  /** When size reaches the length of a non-empty sequence there is one chunk:
      the whole sequence. */
  lemma {:induction false} SingleChunk<T>(s: seq<T>, size: nat)
    requires 0 < |s| <= size
    ensures Chunks(s, size) == [s]
  {
    assert Range(0, |s|, size) == [0] + Range(size, |s|, size);
    assert Range(size, |s|, size) == [];
    SlicesAtCons(s, 0, [], size);
    assert Slice(s, 0, size) == s;
  }

  /** An empty sequence has no chunks. */
  lemma {:induction false} NoChunks<T>(s: seq<T>, size: nat)
    requires size > 0 && |s| == 0
    ensures Chunks(s, size) == []
  {
  }
}
