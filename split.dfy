/** `splitData` (tensorflow.js): a temporal partition of the records. */
module Split {
  import opened Rows

  /** The cutoff moment: a local calendar day and the milliseconds elapsed
      since its midnight. The source uses "now minus 16 months"; here it is
      the caller's choice. */
  datatype Instant = Instant(year: int, month0: Month0, day: DayOfMonth, msOfDay: MsOfDay)

  /** Milliseconds within one day. */
  type MsOfDay = ms: int | 0 <= ms < 86400000

  predicate DayBefore(y: int, m: int, d: int, y2: int, m2: int, d2: int) {
    y < y2 || (y == y2 && (m < m2 || (m == m2 && d < d2)))
  }

  /** `v < cutoff`. A valid row moment stands for midnight of its day, so it
      is earlier than the cutoff when its day is earlier, or when it is the
      same day and the cutoff is past midnight. An invalid moment compares as
      NaN, and every comparison with NaN is false. */
  predicate Precedes(v: Value, cutoff: Instant) {
    match v
    case Date(y, m, d, _) =>
      DayBefore(y, m, d, cutoff.year, cutoff.month0, cutoff.day)
      || (y == cutoff.year && m == cutoff.month0 && d == cutoff.day && cutoff.msOfDay > 0)
    case _ => false
  }

  predicate InTrainWindow(r: Record, cutoff: Instant)
    reads r
  {
    Precedes(Get(r.entries, DateCol), cutoff)
  }

  /** The records that go to `trainData`, in input order. */
  function TrainPart(data: seq<Record>, cutoff: Instant): seq<Record>
    reads data
    decreases |data|
  {
    if |data| == 0 then []
    else
      var last := data[|data| - 1];
      TrainPart(data[..|data| - 1], cutoff) + (if InTrainWindow(last, cutoff) then [last] else [])
  }

  /** The records that go to `testData`, in input order. */
  function TestPart(data: seq<Record>, cutoff: Instant): seq<Record>
    reads data
    decreases |data|
  {
    if |data| == 0 then []
    else
      var last := data[|data| - 1];
      TestPart(data[..|data| - 1], cutoff) + (if InTrainWindow(last, cutoff) then [] else [last])
  }

  /** `splitData`: each record is pushed to exactly one of the two outputs. */
  method SplitData(data: seq<Record>, cutoff: Instant) returns (trainData: seq<Record>, testData: seq<Record>)
    ensures trainData == TrainPart(data, cutoff)
    ensures testData == TestPart(data, cutoff)
  {
    trainData, testData := [], [];
    var i := 0;
    while i < |data|
      invariant 0 <= i <= |data|
      invariant trainData == TrainPart(data[..i], cutoff)
      invariant testData == TestPart(data[..i], cutoff)
    {
      var row := data[i];
      assert data[..i + 1][..i] == data[..i];
      if Precedes(Get(row.entries, DateCol), cutoff) {
        trainData := trainData + [row];
      } else {
        testData := testData + [row];
      }
      i := i + 1;
    }
    assert data[..i] == data;
  }

  /** Every record lands in exactly one side, so the two sides together are a
      rearrangement of the input with no record lost or duplicated. */
  lemma {:induction false} SplitPartitions(data: seq<Record>, cutoff: Instant)
    ensures |TrainPart(data, cutoff)| + |TestPart(data, cutoff)| == |data|
    ensures multiset(TrainPart(data, cutoff)) + multiset(TestPart(data, cutoff)) == multiset(data)
    decreases |data|
  {
    if |data| > 0 {
      var init := data[..|data| - 1];
      var last := data[|data| - 1];
      SplitPartitions(init, cutoff);
      assert data == init + [last];
      assert multiset(data) == multiset(init) + multiset{last};
      if InTrainWindow(last, cutoff) {
        assert TrainPart(data, cutoff) == TrainPart(init, cutoff) + [last];
        assert TestPart(data, cutoff) == TestPart(init, cutoff);
      } else {
        assert TrainPart(data, cutoff) == TrainPart(init, cutoff);
        assert TestPart(data, cutoff) == TestPart(init, cutoff) + [last];
      }
    }
  }

  /** A record is on the training side iff it is in the input and dated
      before the cutoff, and on the test side iff it is in the input and not. */
  lemma {:induction false} SplitMembership(data: seq<Record>, cutoff: Instant, r: Record)
    ensures r in TrainPart(data, cutoff) <==> r in data && InTrainWindow(r, cutoff)
    ensures r in TestPart(data, cutoff) <==> r in data && !InTrainWindow(r, cutoff)
    decreases |data|
  {
    if |data| > 0 {
      var init := data[..|data| - 1];
      SplitMembership(init, cutoff, r);
      assert data == init + [data[|data| - 1]];
    }
  }

  /** The split of a concatenation is the concatenation of the splits: the
      order of the input is kept on both sides. */
  lemma {:induction false} SplitAppend(a: seq<Record>, b: seq<Record>, cutoff: Instant)
    ensures TrainPart(a + b, cutoff) == TrainPart(a, cutoff) + TrainPart(b, cutoff)
    ensures TestPart(a + b, cutoff) == TestPart(a, cutoff) + TestPart(b, cutoff)
    decreases |b|
  {
    if |b| == 0 {
      assert a + b == a;
    } else {
      var b' := b[..|b| - 1];
      assert (a + b)[..|a + b| - 1] == a + b';
      SplitAppend(a, b', cutoff);
    }
  }
}
