/**
 Vocabulary shared by the sensor logger and the dashboard: optional values,
 the per-sensor trust label, arithmetic means, and the collector that turns
 a fixed number of retry attempts into the list of valid samples.
 */
module Common {

  datatype Option<T> = None | Some(value: T)

  /** Trust label of one sensor's value for one logging tick. */
  datatype Status = Ok | Fallback | Error

  /** The label written into the log's status columns. */
  function StatusName(s: Status): string
  {
    match s
    case Ok => "ok"
    case Fallback => "fallback"
    case Error => "error"
  }

  /** Distinct statuses are written as distinct labels, so the log keeps them apart. */
  lemma StatusNameInjective(s: Status, t: Status)
    ensures StatusName(s) == StatusName(t) <==> s == t
  {
    if s != t {
      match s
      case Ok => assert StatusName(s)[0] == 'o' != StatusName(t)[0];
      case Fallback => assert StatusName(s)[0] == 'f' != StatusName(t)[0];
      case Error => assert StatusName(s)[0] == 'e' != StatusName(t)[0];
    }
  }

  /* ----- sums, means and extremes over real-valued samples ----- */

  function Sum(xs: seq<real>): real
  {
    if |xs| == 0 then 0.0 else Sum(xs[..|xs| - 1]) + xs[|xs| - 1]
  }

  /** `sum(xs) / len(xs)`, computed exactly. */
  function Mean(xs: seq<real>): real
    requires |xs| > 0
  {
    Sum(xs) / (|xs| as real)
  }

  function Min(xs: seq<real>): (m: real)
    requires |xs| > 0
    ensures m in xs
    ensures forall i :: 0 <= i < |xs| ==> m <= xs[i]
  {
    if |xs| == 1 then xs[0]
    else
      var m' := Min(xs[..|xs| - 1]);
      if xs[|xs| - 1] < m' then xs[|xs| - 1] else m'
  }

  function Max(xs: seq<real>): (m: real)
    requires |xs| > 0
    ensures m in xs
    ensures forall i :: 0 <= i < |xs| ==> xs[i] <= m
  {
    if |xs| == 1 then xs[0]
    else
      var m' := Max(xs[..|xs| - 1]);
      if xs[|xs| - 1] > m' then xs[|xs| - 1] else m'
  }

  /** A sum of values that all lie in [lo, hi] lies in [n * lo, n * hi]. */
  lemma {:induction false} SumBounds(xs: seq<real>, lo: real, hi: real)
    requires forall i :: 0 <= i < |xs| ==> lo <= xs[i] <= hi
    ensures (|xs| as real) * lo <= Sum(xs) <= (|xs| as real) * hi
  {
    if |xs| > 0 {
      var n := |xs| - 1;
      SumBounds(xs[..n], lo, hi);
      assert (|xs| as real) * lo == (n as real) * lo + lo;
      assert (|xs| as real) * hi == (n as real) * hi + hi;
    }
  }

  /** Dividing both sides of `n * m <= a` by a positive n. */
  lemma DivideLower(a: real, n: real, m: real)
    requires n > 0.0
    requires n * m <= a
    ensures m <= a / n
  {
    assert a / n - m == (a - n * m) / n;
  }

  /** Dividing both sides of `a <= n * m` by a positive n. */
  lemma DivideUpper(a: real, n: real, m: real)
    requires n > 0.0
    requires a <= n * m
    ensures a / n <= m
  {
    assert m - a / n == (n * m - a) / n;
  }

  /** The mean of values that all lie in [lo, hi] lies in [lo, hi]. */
  lemma MeanBounds(xs: seq<real>, lo: real, hi: real)
    requires |xs| > 0
    requires forall i :: 0 <= i < |xs| ==> lo <= xs[i] <= hi
    ensures lo <= Mean(xs) <= hi
  {
    var n, total := |xs| as real, Sum(xs);
    SumBounds(xs, lo, hi);
    DivideLower(total, n, lo);
    DivideUpper(total, n, hi);
  }

  /** The mean of a non-empty list lies between the list's minimum and maximum. */
  lemma MeanWithinMinMax(xs: seq<real>)
    requires |xs| > 0
    ensures Min(xs) <= Mean(xs) <= Max(xs)
  {
    MeanBounds(xs, Min(xs), Max(xs));
  }

  /** Averaging a list that holds one value n times gives that value back. */
  lemma MeanOfConstant(xs: seq<real>, v: real)
    requires |xs| > 0
    requires forall i :: 0 <= i < |xs| ==> xs[i] == v
    ensures Mean(xs) == v
  {
    MeanBounds(xs, v, v);
  }

  /* ----- bounded retries ----- */

  /**
   The valid samples among attempts 0 .. n-1, in attempt order. `attempt(i)` is
   the raw outcome of the i-th attempt and `decode` maps it to its sample, or to
   None when that attempt failed. Every attempt is made whatever the earlier ones
   returned: nothing stops the loop after a success.
   */
  function Collect<A, S>(decode: A -> Option<S>, attempt: nat -> A, n: nat): (samples: seq<S>)
    ensures |samples| <= n
  {
    if n == 0 then []
    else
      Collect(decode, attempt, n - 1)
      + match decode(attempt(n - 1)) case Some(s) => [s] case None => []
  }

  /** Each valid attempt below n contributes its sample, even one after earlier successes. */
  lemma {:induction false} CollectComplete<A, S>(decode: A -> Option<S>, attempt: nat -> A, n: nat, j: nat)
    requires j < n
    requires decode(attempt(j)).Some?
    ensures decode(attempt(j)).value in Collect(decode, attempt, n)
  {
    if j < n - 1 {
      CollectComplete(decode, attempt, n - 1, j);
    }
  }

  /** Every collected sample is the sample of some attempt below n. */
  lemma {:induction false} CollectSound<A, S>(decode: A -> Option<S>, attempt: nat -> A, n: nat, s: S)
    requires s in Collect(decode, attempt, n)
    ensures exists j :: 0 <= j < n && decode(attempt(j)) == Some(s)
  {
    var prev := Collect(decode, attempt, n - 1);
    if s in prev {
      CollectSound(decode, attempt, n - 1, s);
    } else {
      assert decode(attempt(n - 1)) == Some(s);
    }
  }

  /** No sample at all exactly when every one of the n attempts failed. */
  lemma {:induction false} CollectEmptyIff<A, S>(decode: A -> Option<S>, attempt: nat -> A, n: nat)
    ensures |Collect(decode, attempt, n)| == 0 <==> forall j :: 0 <= j < n ==> decode(attempt(j)).None?
  {
    if n > 0 {
      CollectEmptyIff(decode, attempt, n - 1);
    }
  }

  /** One sample per attempt exactly when none of the n attempts failed. */
  lemma {:induction false} CollectFullIff<A, S>(decode: A -> Option<S>, attempt: nat -> A, n: nat)
    ensures |Collect(decode, attempt, n)| == n <==> forall j :: 0 <= j < n ==> decode(attempt(j)).Some?
  {
    if n > 0 {
      CollectFullIff(decode, attempt, n - 1);
      assert |Collect(decode, attempt, n - 1)| <= n - 1;
    }
  }

  /** Only the first n attempts are made: outcomes from attempt n on play no part. */
  lemma {:induction false} CollectFrame<A, S>(decode: A -> Option<S>, attempt: nat -> A, other: nat -> A, n: nat)
    requires forall j: nat :: j < n ==> attempt(j) == other(j)
    ensures Collect(decode, attempt, n) == Collect(decode, other, n)
  {
    if n > 0 {
      CollectFrame(decode, attempt, other, n - 1);
    }
  }

  /* ----- order-preserving filters ----- */

  /** The images of the elements `keep` accepts, in order. */
  function FilterMap<A, B>(keep: A -> Option<B>, xs: seq<A>): (out: seq<B>)
    ensures |out| <= |xs|
  {
    if |xs| == 0 then []
    else
      FilterMap(keep, xs[..|xs| - 1])
      + match keep(xs[|xs| - 1]) case Some(b) => [b] case None => []
  }

  /** The positions of the accepted elements, in order. */
  function KeptPositions<A, B>(keep: A -> Option<B>, xs: seq<A>): (idx: seq<nat>)
    ensures |idx| == |FilterMap(keep, xs)|
    ensures forall k :: 0 <= k < |idx| ==> idx[k] < |xs|
  {
    if |xs| == 0 then []
    else KeptPositions(keep, xs[..|xs| - 1]) + if keep(xs[|xs| - 1]).Some? then [|xs| - 1] else []
  }

  /**
   The output is an order-preserving subsequence: its k-th element is the
   image of the element at the k-th kept position, the positions increase,
   and every accepted position is among them.
   */
  lemma {:induction false} FilterMapSubsequence<A, B>(keep: A -> Option<B>, xs: seq<A>)
    ensures var out, idx := FilterMap(keep, xs), KeptPositions(keep, xs);
            && (forall k :: 0 <= k < |idx| ==> keep(xs[idx[k]]) == Some(out[k]))
            && (forall k, l :: 0 <= k < l < |idx| ==> idx[k] < idx[l])
            && (forall i :: 0 <= i < |xs| && keep(xs[i]).Some? ==> i in idx)
  {
    KeptImages(keep, xs);
    KeptIncreasing(keep, xs);
    KeptComplete(keep, xs);
  }

  /** Each kept position holds an element whose image is the matching output. */
  ghost predicate ImagesAt<A, B>(keep: A -> Option<B>, xs: seq<A>, out: seq<B>, idx: seq<nat>)
  {
    && |idx| == |out|
    && forall k :: 0 <= k < |idx| ==> idx[k] < |xs| && keep(xs[idx[k]]) == Some(out[k])
  }

  lemma {:induction false} KeptImages<A, B>(keep: A -> Option<B>, xs: seq<A>)
    ensures ImagesAt(keep, xs, FilterMap(keep, xs), KeptPositions(keep, xs))
  {
    if |xs| > 0 {
      var n := |xs|;
      var prev := xs[..n - 1];
      KeptImages(keep, prev);
      var out, idx := FilterMap(keep, xs), KeptPositions(keep, xs);
      var pout, pidx := FilterMap(keep, prev), KeptPositions(keep, prev);
      forall k | 0 <= k < |pidx|
        ensures idx[k] == pidx[k] && out[k] == pout[k] && xs[pidx[k]] == prev[pidx[k]]
      {
      }
    }
  }

  /** Strictly increasing. */
  predicate Increasing(idx: seq<nat>)
  {
    forall k, l :: 0 <= k < l < |idx| ==> idx[k] < idx[l]
  }

  lemma {:induction false} KeptIncreasing<A, B>(keep: A -> Option<B>, xs: seq<A>)
    ensures Increasing(KeptPositions(keep, xs))
  {
    if |xs| > 0 {
      var n := |xs|;
      var prev := xs[..n - 1];
      KeptIncreasing(keep, prev);
      var idx, pidx := KeptPositions(keep, xs), KeptPositions(keep, prev);
      if keep(xs[n - 1]).Some? {
        assert idx == pidx + [n - 1];
        forall k, l | 0 <= k < l < |idx|
          ensures idx[k] < idx[l]
        {
          assert idx[k] == pidx[k] < n - 1;
          if l < |pidx| {
            assert idx[l] == pidx[l];
          }
        }
      } else {
        assert idx == pidx;
      }
    }
  }

  lemma {:induction false} KeptComplete<A, B>(keep: A -> Option<B>, xs: seq<A>)
    ensures forall i :: 0 <= i < |xs| && keep(xs[i]).Some? ==> i in KeptPositions(keep, xs)
  {
    if |xs| > 0 {
      var n := |xs|;
      var prev := xs[..n - 1];
      KeptComplete(keep, prev);
      var idx, pidx := KeptPositions(keep, xs), KeptPositions(keep, prev);
      forall i | 0 <= i < n - 1 && keep(xs[i]).Some?
        ensures i in idx
      {
        assert xs[i] == prev[i];
      }
    }
  }

  /** Filtering distributes over concatenation. */
  lemma {:induction false} FilterMapAppend<A, B>(keep: A -> Option<B>, xs: seq<A>, ys: seq<A>)
    ensures FilterMap(keep, xs + ys) == FilterMap(keep, xs) + FilterMap(keep, ys)
    decreases |ys|
  {
    if |ys| == 0 {
      assert xs + ys == xs;
    } else {
      var n := |ys|;
      assert (xs + ys)[..|xs + ys| - 1] == xs + ys[..n - 1];
      FilterMapAppend(keep, xs, ys[..n - 1]);
    }
  }

  /** Nothing is kept exactly when no element is accepted. */
  lemma {:induction false} FilterMapEmptyIff<A, B>(keep: A -> Option<B>, xs: seq<A>)
    ensures |FilterMap(keep, xs)| == 0 <==> forall i :: 0 <= i < |xs| ==> keep(xs[i]).None?
  {
    if |xs| > 0 {
      var n := |xs|;
      FilterMapEmptyIff(keep, xs[..n - 1]);
      assert forall i :: 0 <= i < n - 1 ==> xs[..n - 1][i] == xs[i];
    }
  }

  /** The last kept element is the image of the last accepted element; nothing after it is accepted. */
  lemma {:induction false} FilterMapLast<A, B>(keep: A -> Option<B>, xs: seq<A>) returns (i: nat)
    requires |FilterMap(keep, xs)| > 0
    ensures i < |xs|
    ensures keep(xs[i]) == Some(FilterMap(keep, xs)[|FilterMap(keep, xs)| - 1])
    ensures forall k :: i < k < |xs| ==> keep(xs[k]).None?
  {
    var n := |xs|;
    var prev := xs[..n - 1];
    if keep(xs[n - 1]).Some? {
      i := n - 1;
    } else {
      assert FilterMap(keep, xs) == FilterMap(keep, prev);
      i := FilterMapLast(keep, prev);
      assert prev[i] == xs[i];
      assert forall k :: i < k < n - 1 ==> prev[k] == xs[k];
    }
  }
}
