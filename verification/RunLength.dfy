/** Run-length evidence: the snapshot's sample ranges and the bounded provider summary. */
module RunLength {
  import opened Sequences
  import opened Wrappers

  datatype Range<T> = Range(first: nat, last: nat, value: T)
  {
    predicate Holds(i: nat) {
      first <= i <= last
    }
  }

  const MAX_RANGES: nat := 64

  /** `r` is a run of equal samples that cannot be made longer. */
  ghost predicate Maximal<T>(samples: seq<T>, r: Range<T>) {
    && r.first <= r.last < |samples|
    && (forall i :: r.first <= i <= r.last ==> samples[i] == r.value)
    && (r.first > 0 ==> samples[r.first - 1] != r.value)
    && (r.last + 1 < |samples| ==> samples[r.last + 1] != r.value)
  }

  /** Maximal runs in order, with a run for every sample before `n` that is worth one. */
  ghost predicate Evidence<T>(samples: seq<Option<T>>, ranges: seq<Range<Option<T>>>, n: nat)
    requires n <= |samples|
  {
    && (forall k :: 0 <= k < |ranges| ==> Maximal(samples, ranges[k]) && ranges[k].value.Some? && ranges[k].last < n)
    && (forall j, k :: 0 <= j < k < |ranges| ==> ranges[j].last < ranges[k].first)
    && (forall i :: 0 <= i < n && samples[i].Some? ==> exists k :: 0 <= k < |ranges| && ranges[k].Holds(i))
  }

  datatype Kind = Edge | StableRange

  /** A record of the snapshot: a run, what it is called, and when its first sample was taken. */
  datatype Row<T> = Row(kind: Kind, timestamp: Option<nat>, range: Range<T>)

  function RowOf<T>(r: Range<T>, timestamp: Option<nat>, period: nat): Row<T> {
    Row(if r.first == r.last then Edge else StableRange,
        if timestamp.None? then None else Some(timestamp.value + r.first * (if period == 0 then 1 else period)), r)
  }

  function RowsOf<T>(ranges: seq<Range<T>>, timestamp: Option<nat>, period: nat): (r: seq<Row<T>>)
    ensures |r| == |ranges|
  {
    seq(|ranges|, k requires 0 <= k < |ranges| => RowOf(ranges[k], timestamp, period))
  }

  /**
   The sample-range loop of the snapshot: nulls separate runs and are left out. A run of one
   sample is an edge, a longer one a stable range; each is dated by its first sample.
   */
  method SampleRanges<T(==)>(samples: seq<Option<T>>, timestamp: Option<nat>, period: nat)
      returns (rows: seq<Row<Option<T>>>, ghost ranges: seq<Range<Option<T>>>)
    ensures Evidence(samples, ranges, |samples|) && rows == RowsOf(ranges, timestamp, period)
    ensures |rows| == |ranges| && forall k :: 0 <= k < |rows| ==> Tells(rows[k], ranges[k], timestamp, period)
  {
    ranges, rows := [], [];
    assert Evidence(samples, ranges, 0);
    hide Evidence, RowOf, Running;
    var start := 0;
    var index := 1;
    RunBegins(samples);
    while index <= |samples|
      invariant start < index && start <= |samples|
      invariant if index <= |samples| then Running(samples, start, index) else start == |samples|
      invariant Evidence(samples, ranges, start) && rows == RowsOf(ranges, timestamp, period)
    {
      if index == |samples| || samples[index] != samples[start] {
        if samples[start].Some? {
          TakeRun(samples, ranges, start, index);
          var run := Range(start, index - 1, samples[start]);
          RowsSnoc(ranges, run, timestamp, period);
          rows := rows + [RowOf(run, timestamp, period)];
          ranges := ranges + [run];
        } else {
          SkipRun(samples, ranges, start, index);
        }
        if index < |samples| {
          NextBegins(samples, start, index);
        }
        start := index;
      } else {
        RunGrows(samples, start, index);
      }
      index := index + 1;
    }
    RowsTell(ranges, timestamp, period);
  }

  /** A row is about its run, calls one sample an edge, and is dated by its first sample's cycle. */
  ghost predicate Tells<T>(row: Row<T>, r: Range<T>, timestamp: Option<nat>, period: nat) {
    && row.range == r && (row.kind == Edge <==> r.first == r.last)
    && (row.timestamp.Some? <==> timestamp.Some?)
    && (timestamp.Some? && period > 0 ==> row.timestamp.value - timestamp.value == r.first * period)
    && (timestamp.Some? && period == 0 ==> row.timestamp.value - timestamp.value == r.first)
  }

  lemma RowsTell<T>(ranges: seq<Range<T>>, timestamp: Option<nat>, period: nat)
    ensures var rows := RowsOf(ranges, timestamp, period);
            forall k :: 0 <= k < |rows| ==> Tells(rows[k], ranges[k], timestamp, period)
  {
  }

  /** Samples from `start` up to `index` are equal, and different from the one before them. */
  ghost predicate Running<T>(samples: seq<T>, start: nat, index: nat) {
    && start < index <= |samples| && (forall i :: start <= i < index ==> samples[i] == samples[start])
    && (0 < start ==> samples[start - 1] != samples[start])
  }

  lemma RunBegins<T>(samples: seq<T>)
    ensures samples != [] ==> Running(samples, 0, 1)
  {
  }

  lemma NextBegins<T>(samples: seq<T>, start: nat, index: nat)
    requires Running(samples, start, index) && index < |samples| && samples[index] != samples[start]
    ensures Running(samples, index, index + 1)
  {
  }

  lemma RunGrows<T>(samples: seq<T>, start: nat, index: nat)
    requires Running(samples, start, index) && index < |samples| && samples[index] == samples[start]
    ensures Running(samples, start, index + 1)
  {
  }

  lemma RowsSnoc<T>(ranges: seq<Range<T>>, r: Range<T>, timestamp: Option<nat>, period: nat)
    ensures RowsOf(ranges + [r], timestamp, period) == RowsOf(ranges, timestamp, period) + [RowOf(r, timestamp, period)]
  {
  }

  lemma TakeRun<T>(samples: seq<Option<T>>, ranges: seq<Range<Option<T>>>, start: nat, index: nat)
    requires Running(samples, start, index) && Evidence(samples, ranges, start)
    requires index < |samples| ==> samples[index] != samples[start]
    requires samples[start].Some?
    ensures Evidence(samples, ranges + [Range(start, index - 1, samples[start])], index)
  {
    var run := Range(start, index - 1, samples[start]);
    var more := ranges + [run];
    forall i | 0 <= i < index && samples[i].Some? ensures exists k :: 0 <= k < |more| && more[k].Holds(i) {
      if i < start {
        var k :| 0 <= k < |ranges| && ranges[k].Holds(i);
        assert more[k].Holds(i);
      } else {
        assert more[|ranges|].Holds(i);
      }
    }
  }

  lemma SkipRun<T>(samples: seq<Option<T>>, ranges: seq<Range<Option<T>>>, start: nat, index: nat)
    requires Running(samples, start, index) && Evidence(samples, ranges, start)
    requires samples[start].None?
    ensures Evidence(samples, ranges, index)
  {
  }

  lemma RunOf<T>(samples: seq<Option<T>>, ranges: seq<Range<Option<T>>>, i: nat) returns (k: nat)
    requires Evidence(samples, ranges, |samples|) && i < |samples| && samples[i].Some?
    ensures k < |ranges| && ranges[k].Holds(i)
  {
    k :| 0 <= k < |ranges| && ranges[k].Holds(i);
  }

  /** Two maximal runs that meet are the same. */
  lemma SameRun<T>(samples: seq<T>, r: Range<T>, s: Range<T>, i: nat)
    requires Maximal(samples, r) && Maximal(samples, s) && r.Holds(i) && s.Holds(i)
    ensures r == s
  {
    assert r.value == samples[i] == s.value;
  }

  /** After a common beginning, the next run of one list starts no later than that of the other. */
  lemma NextRun<T>(samples: seq<Option<T>>, a: seq<Range<Option<T>>>, b: seq<Range<Option<T>>>, n: nat)
    requires Evidence(samples, a, |samples|) && Evidence(samples, b, |samples|)
    requires n < |a| && n <= |b| && a[..n] == b[..n]
    ensures n < |b| && b[n].first <= a[n].first
  {
    var k := RunOf(samples, b, a[n].first);
    SameRun(samples, a[n], b[k], a[n].first);
    forall j | 0 <= j < n ensures b[j] == a[j] {
      assert b[j] == b[..n][j] && a[j] == a[..n][j];
    }
  }

  lemma NextSame<T>(samples: seq<Option<T>>, a: seq<Range<Option<T>>>, b: seq<Range<Option<T>>>, n: nat)
    requires Evidence(samples, a, |samples|) && Evidence(samples, b, |samples|)
    requires n < |a| && n < |b| && a[..n] == b[..n]
    ensures a[n] == b[n]
  {
    NextRun(samples, a, b, n);
    NextRun(samples, b, a, n);
    SameRun(samples, a[n], b[n], a[n].first);
  }

  lemma {:induction false} EvidencePrefix<T>(samples: seq<Option<T>>, a: seq<Range<Option<T>>>,
                                             b: seq<Range<Option<T>>>, n: nat)
    requires Evidence(samples, a, |samples|) && Evidence(samples, b, |samples|) && n <= |a| && n <= |b|
    ensures a[..n] == b[..n]
    decreases n
  {
    if n == 0 {
    } else {
      EvidencePrefix(samples, a, b, n - 1);
      NextSame(samples, a, b, n - 1);
      hide Evidence;
      PrefixSnoc(a, b, n - 1);
    }
  }

  /** The evidence is determined by the samples: nothing more, less or different can be reported. */
  lemma EvidenceUnique<T>(samples: seq<Option<T>>, a: seq<Range<Option<T>>>, b: seq<Range<Option<T>>>)
    requires Evidence(samples, a, |samples|) && Evidence(samples, b, |samples|)
    ensures a == b
  {
    var n := if |a| <= |b| then |a| else |b|;
    EvidencePrefix(samples, a, b, n);
    if |a| > n {
      NextRun(samples, a, b, n);
    } else if |b| > n {
      NextRun(samples, b, a, n);
    }
    assert a == a[..n] && b == b[..n];
  }

  // ----- the bounded summary for the provider -----

  function Repeat<T>(value: T, n: nat): (r: seq<T>)
    ensures |r| == n
  {
    seq(n, _ => value)
  }

  function Expand<T>(ranges: seq<Range<T>>): seq<T> {
    if ranges == [] then []
    else
      var r := ranges[|ranges| - 1];
      Expand(ranges[..|ranges| - 1]) + Repeat(r.value, if r.first <= r.last then r.last - r.first + 1 else 0)
  }

  /** The ranges are the first maximal runs of the samples, back to back. */
  ghost predicate Summary<T>(samples: seq<T>, ranges: seq<Range<T>>, covered: nat) {
    && covered <= |samples|
    && (forall k :: 0 <= k < |ranges| ==> Maximal(samples, ranges[k]))
    && (forall k :: 0 < k < |ranges| ==> ranges[k].first == ranges[k - 1].last + 1)
    && (if ranges == [] then covered == 0 else ranges[0].first == 0 && covered == ranges[|ranges| - 1].last + 1)
  }

  /** At most 64 ranges; `truncated` says whether they stop short of the samples. */
  method SummarizeEvidence<T(==)>(samples: seq<T>) returns (ranges: seq<Range<T>>, truncated: bool)
    ensures |ranges| <= 64
    ensures Expand(ranges) <= samples
    ensures truncated <==> Expand(ranges) != samples
    ensures truncated ==> |ranges| == 64
    ensures Summary(samples, ranges, |Expand(ranges)|)
  {
    ranges := [];
    var start := 0;
    while start < |samples| && |ranges| < MAX_RANGES
      invariant Summary(samples, ranges, start) && |ranges| <= MAX_RANGES
      invariant 0 < start < |samples| ==> samples[start - 1] != samples[start]
      decreases |samples| - start
    {
      var end := start + 1;
      while end < |samples| && samples[end] == samples[start]
        invariant start < end <= |samples|
        invariant forall i :: start <= i < end ==> samples[i] == samples[start]
      {
        end := end + 1;
      }
      ranges := ranges + [Range(start, end - 1, samples[start])];
      start := end;
    }
    truncated := |ranges| == MAX_RANGES && ranges[|ranges| - 1].last < |samples| - 1;
    SummaryExpands(samples, ranges, start);
  }

  lemma {:induction false} SummaryExpands<T>(samples: seq<T>, ranges: seq<Range<T>>, covered: nat)
    requires Summary(samples, ranges, covered)
    ensures Expand(ranges) == samples[..covered]
    decreases |ranges|
  {
    if ranges == [] {
    } else {
      var n := |ranges| - 1;
      var r := ranges[n];
      assert Maximal(samples, r);
      if n > 0 {
        assert Maximal(samples, ranges[n - 1]);
      }
      SummaryExpands(samples, ranges[..n], r.first);
      hide Summary;
      assert samples[..covered] == samples[..r.first] + Repeat(r.value, covered - r.first);
    }
  }
}
