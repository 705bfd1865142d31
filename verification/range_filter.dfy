/**
 The page's client-side time-range filter (`filterData` in the script the
 dashboard serves): a suffix slice of the six history arrays whose length
 depends on the selected range.
 */
module RangeFilter {
  import opened Common
  import opened Dashboard

  /** Entries kept by each named range (one sample a minute): 1h, 4h, 1d, 1w, 1m. */
  function RangeSize(range: string): Option<nat>
  {
    if range == "1h" then Some(60)
    else if range == "4h" then Some(240)
    else if range == "1d" then Some(1440)
    else if range == "1w" then Some(10080)
    else if range == "1m" then Some(43200)
    else None
  }

  /** `array.slice(start)` for a start that is not negative: empty once it passes the end. */
  function SliceFrom<T>(xs: seq<T>, start: nat): seq<T>
  {
    if start >= |xs| then [] else xs[start..]
  }

  /** How many of `len` entries a range keeps: min(len, N) for a named range, all otherwise. */
  function KeptCount(range: string, len: nat): (n: nat)
    ensures n <= len
  {
    match RangeSize(range)
    case Some(size) => if len < size then len else size
    case None => len
  }

  /** Every array cut to its last `n` entries. */
  function Tail(h: History, n: nat): (out: History)
    requires Aligned(h) && n <= |h.labels|
    ensures Aligned(out) && |out.labels| == n
  {
    var d := |h.labels| - n;
    History(h.labels[d..], h.pm1[d..], h.pm25[d..], h.pm10[d..], h.temp[d..], h.hum[d..])
  }

  /**
   `filterData(history, range)`: "all" returns the history itself; otherwise
   the start index is `len - N` for a named range (0 for any other string),
   raised to 0 if negative, and every array is sliced from it, where `len` is
   the length of the label array.
   */
  function FilterData(h: History, range: string): (out: History)
    ensures range == "all" ==> out == h
    ensures RangeSize(range).None? ==> out == h
    ensures Aligned(h) ==> out == Tail(h, KeptCount(range, |h.labels|))
  {
    if range == "all" then h
    else
      var len := |h.labels|;
      var iMin: int := match RangeSize(range) case Some(size) => len - size case None => 0;
      var start: nat := if iMin < 0 then 0 else iMin;
      History(SliceFrom(h.labels, start), SliceFrom(h.pm1, start), SliceFrom(h.pm25, start),
              SliceFrom(h.pm10, start), SliceFrom(h.temp, start), SliceFrom(h.hum, start))
  }

  lemma SuffixOfSuffix<T>(xs: seq<T>, a: nat, b: nat)
    requires b <= a <= |xs|
    ensures xs[|xs| - a..][a - b..] == xs[|xs| - b..]
  {
  }

  /** The last `b` entries of the last `a` entries are the last `b` entries. */
  lemma TailOfTail(h: History, a: nat, b: nat)
    requires Aligned(h) && b <= a <= |h.labels|
    ensures Tail(Tail(h, a), b) == Tail(h, b)
  {
    SuffixOfSuffix(h.labels, a, b);
    SuffixOfSuffix(h.pm1, a, b);
    SuffixOfSuffix(h.pm25, a, b);
    SuffixOfSuffix(h.pm10, a, b);
    SuffixOfSuffix(h.temp, a, b);
    SuffixOfSuffix(h.hum, a, b);
  }

  /** Counting on fewer entries keeps the smaller of the two counts. */
  lemma KeptCountShrinks(range: string, a: nat, n: nat)
    requires a <= n
    ensures KeptCount(range, a) == if a < KeptCount(range, n) then a else KeptCount(range, n)
  {
  }

  /**
   Filtering twice keeps the shorter of the two windows; in particular
   re-applying the same range changes nothing.
   */
  lemma FilterComposes(h: History, first: string, second: string)
    requires Aligned(h)
    ensures var n := |h.labels|;
            var a, b := KeptCount(first, n), KeptCount(second, n);
            FilterData(FilterData(h, first), second) == Tail(h, if a < b then a else b)
    ensures FilterData(FilterData(h, first), first) == FilterData(h, first)
  {
    var n := |h.labels|;
    var a := KeptCount(first, n);
    var once := FilterData(h, first);
    assert once == Tail(h, a);
    KeptCountShrinks(second, a, n);
    KeptCountShrinks(first, a, n);
    TailOfTail(h, a, KeptCount(second, a));
    TailOfTail(h, a, a);
  }

  /** Filtering keeps the newest entries: a narrower named range yields a suffix of a wider one. */
  lemma NarrowerRangeIsSuffix(h: History, narrow: string, wide: string)
    requires Aligned(h)
    requires RangeSize(narrow).Some? && RangeSize(wide).Some? && RangeSize(narrow).value <= RangeSize(wide).value
    ensures var a, b := FilterData(h, narrow), FilterData(h, wide);
            Aligned(b) && |a.labels| <= |b.labels| && a == Tail(b, |a.labels|)
  {
    var n := |h.labels|;
    var ka, kb := KeptCount(narrow, n), KeptCount(wide, n);
    TailOfTail(h, kb, ka);
  }
}
