/** The sliding windows of `extract_features`: which rows each feature
    vector is computed from and which row gives its label.  The feature
    values themselves are not modelled; a window is the list of its rows. */
module Windows {
  const SamplingRate := 1200
  /** `int(0.2 * 1200)`: 200 ms of samples. */
  const DefaultWindowSize := SamplingRate / 5
  /** `int(0.01 * 1200)`: a 10 ms slide. */
  const DefaultStepSize := SamplingRate / 100

  /** Python's `range(start, stop, step)` for a positive step. */
  function Range(start: int, stop: int, step: int): (r: seq<int>)
    requires step > 0
    decreases stop - start
    ensures forall k :: 0 <= k < |r| ==> start <= r[k] < stop
  {
    if start < stop then [start] + Range(start + step, stop, step) else []
  }

  /** The k-th element of a range is `start + k * step`, every element is
      below `stop`, and there are `ceil((stop - start) / step)` of them. */
  lemma {:induction false} RangeElements(start: int, stop: int, step: int)
    requires step > 0
    decreases stop - start
    ensures var r := Range(start, stop, step);
      (forall k :: 0 <= k < |r| ==> r[k] == start + k * step && r[k] < stop) &&
      |r| == if start < stop then (stop - start - 1) / step + 1 else 0
  {
    if start < stop {
      var rest := Range(start + step, stop, step);
      RangeElements(start + step, stop, step);
      forall k | 1 <= k < |rest| + 1
        ensures rest[k - 1] == start + k * step
      {
        assert rest[k - 1] == start + step + (k - 1) * step;
      }
      StepQuotient(stop - start - 1, step);
    }
  }

  /** Taking one step off a distance takes one off its quotient. */
  lemma StepQuotient(d: int, step: int)
    requires d >= 0 && step > 0
    ensures d < step ==> d / step == 0
    ensures d >= step ==> (d - step) / step + 1 == d / step
  {
    if d < step {
      QuotientUnique(d, step, 0, d);
    } else {
      var q, r := (d - step) / step, (d - step) % step;
      assert d == (q + 1) * step + r;
      QuotientUnique(d, step, q + 1, r);
    }
  }

  /** Euclidean division has one quotient for a remainder in `[0, step)`. */
  lemma QuotientUnique(d: int, step: int, q: int, r: int)
    requires step > 0 && 0 <= r < step && d == q * step + r
    ensures d / step == q
  {
    var q', r' := d / step, d % step;
    if q' < q {
      Distribute(q - q', q', step);
      AtLeastOnce(q - q', step);
    } else if q < q' {
      Distribute(q' - q, q, step);
      AtLeastOnce(q' - q, step);
    }
  }

  lemma Distribute(a: int, b: int, step: int)
    ensures (a + b) * step == a * step + b * step
  {
  }

  lemma {:induction false} AtLeastOnce(a: int, step: int)
    requires a >= 1 && step > 0
    ensures a * step >= step
    decreases a
  {
    if a > 1 {
      AtLeastOnce(a - 1, step);
      Distribute(a - 1, 1, step);
    }
  }

  /** The window starts of `extract_features`:
      `range(0, len(data) - window_size + 1, step_size)`. */
  function Starts(n: nat, windowSize: int, stepSize: int): (r: seq<int>)
    requires stepSize > 0
    ensures forall k :: 0 <= k < |r| ==> 0 <= r[k] && r[k] + windowSize <= n
  {
    Range(0, n - windowSize + 1, stepSize)
  }

  /** Starts are 0, step, 2 step, …, every window fits in the data, and its
      label row `start + window_size - 1` is a row of the data. */
  lemma StartsFit(n: nat, windowSize: int, stepSize: int)
    requires windowSize >= 1 && stepSize > 0
    ensures var s := Starts(n, windowSize, stepSize);
      forall k :: 0 <= k < |s| ==>
        s[k] == k * stepSize && 0 <= s[k] && s[k] + windowSize <= n && 0 <= s[k] + windowSize - 1 < n
  {
    RangeElements(0, n - windowSize + 1, stepSize);
  }

  /** Data shorter than one window gives no window at all. */
  lemma NoWindowsWhenShort(n: nat, windowSize: int, stepSize: int)
    requires stepSize > 0 && n < windowSize
    ensures Starts(n, windowSize, stepSize) == []
  {
  }

  /** Otherwise there are `(len - window_size) div step + 1` windows. */
  lemma WindowCount(n: nat, windowSize: int, stepSize: int)
    requires stepSize > 0 && n >= windowSize
    ensures |Starts(n, windowSize, stepSize)| == (n - windowSize) / stepSize + 1
  {
    RangeElements(0, n - windowSize + 1, stepSize);
  }

  /** With the defaults, a recording of `n >= 240` rows yields
      `(n - 240) div 12 + 1` windows. */
  lemma DefaultWindowCount(n: nat)
    requires n >= DefaultWindowSize
    ensures DefaultWindowSize == 240 && DefaultStepSize == 12
    ensures |Starts(n, DefaultWindowSize, DefaultStepSize)| == (n - 240) / 12 + 1
  {
    WindowCount(n, DefaultWindowSize, DefaultStepSize);
  }

  /** The loop of `extract_features`, one window and one label per start.
      The window is the end-exclusive slice `iloc[start:end]`, so it has
      `window_size - 1` rows and stops just before the label row `end`. */
  method ExtractFeatures<R>(data: seq<R>, windowSize: int, stepSize: int) returns (windows: seq<seq<R>>, labels: seq<R>)
    requires windowSize >= 1 && stepSize > 0
    ensures var s := Starts(|data|, windowSize, stepSize);
      |windows| == |labels| == |s| &&
      forall k :: 0 <= k < |s| ==>
        0 <= s[k] && s[k] + windowSize <= |data| && |windows[k]| == windowSize - 1 &&
        windows[k] == data[s[k]..s[k] + windowSize - 1] && labels[k] == data[s[k] + windowSize - 1]
  {
    var starts := Starts(|data|, windowSize, stepSize);
    StartsFit(|data|, windowSize, stepSize);
    windows, labels := [], [];
    for i := 0 to |starts|
      invariant |windows| == |labels| == i
      invariant forall k :: 0 <= k < i ==>
        windows[k] == data[starts[k]..starts[k] + windowSize - 1] && labels[k] == data[starts[k] + windowSize - 1]
    {
      var start := starts[i];
      var end := start + windowSize - 1;
      windows := windows + [data[start..end]];
      labels := labels + [data[end]];
    }
  }
}
