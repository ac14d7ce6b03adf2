/**
  The data side of the bar-chart race (`drawBarChartRace`).

  Each schedule bucket is spread over 30 time steps whose counts grow
  towards the bucket's count; the steps are flattened into one list; each
  animation frame shows that frame's entries, sorted by count from high to
  low and cut to the first seven. A counter walks the frames 0..29.
*/
module Race {
  import opened Aggregate

  /** Number of animation frames (`steps`). */
  const Steps: nat := 30

  /** Number of bars shown per frame (`slice(0, 7)`). */
  const Shown: nat := 7

  /** One `{time, count}` element of a bucket's `steps` array. */
  datatype Step = Step(time: nat, count: int)

  /** One element of `transformed`: a bucket's name and its 30 steps. */
  datatype Series = Series(name: string, steps: seq<Step>)

  /** One `{time, name, count}` element of `flatData`. */
  datatype Entry = Entry(time: nat, name: string, count: int)

  // ---------------------------------------------------------------------
  // Growing counts
  // ---------------------------------------------------------------------

  /** Rounding `a / 30` to the nearest integer, halves rounded up. */
  function RoundHalfUp(a: int): (r: int)
    ensures 2 * Steps * r <= 2 * a + Steps < 2 * Steps * r + 2 * Steps
  {
    (2 * a + Steps) / (2 * Steps)
  }

  /** `Math.round((count / steps) * (i + 1))`, on exact rationals: the
      integer nearest to count * (i + 1) / 30, halves rounded up. */
  function StepCount(count: int, i: nat): (r: int)
    ensures 2 * Steps * r <= 2 * (count * (i + 1)) + Steps < 2 * Steps * r + 2 * Steps
  {
    RoundHalfUp(count * (i + 1))
  }

  /** The last step reaches the bucket's count. */
  lemma StepCountLast(count: int)
    ensures StepCount(count, Steps - 1) == count
  {
  }

  lemma {:induction false} MulMonotone(c: nat, x: nat, y: nat)
    requires x <= y
    ensures c * x <= c * y
  {
    if x < y {
      MulMonotone(c, x, y - 1);
      assert c * y == c * (y - 1) + c;
    }
  }

  lemma RoundMonotone(a: int, b: int)
    requires a <= b
    ensures RoundHalfUp(a) <= RoundHalfUp(b)
  {
  }

  /** For a non-negative count the steps never shrink and stay within [0, count]. */
  lemma StepCountMonotone(count: int, i: nat, j: nat)
    requires 0 <= count && i <= j
    ensures StepCount(count, i) <= StepCount(count, j)
    ensures 0 <= StepCount(count, i)
    ensures j < Steps ==> StepCount(count, j) <= count
  {
    var a, b, top := count * (i + 1), count * (j + 1), count * Steps;
    MulMonotone(count, i + 1, j + 1);
    RoundMonotone(a, b);
    assert 0 <= a;
    RoundMonotone(0, a);
    if j < Steps {
      MulMonotone(count, j + 1, Steps);
      RoundMonotone(b, top);
      assert RoundHalfUp(top) == count;
    }
  }

  /** `data.map(...)`: every bucket becomes its name and 30 steps. */
  function Transform(data: seq<Bucket>): seq<Series>
  {
    seq(|data|, k requires 0 <= k < |data| =>
      Series(data[k].name, seq(Steps, i requires 0 <= i < Steps => Step(i, StepCount(data[k].count, i)))))
  }

  // ---------------------------------------------------------------------
  // Flattening
  // ---------------------------------------------------------------------

  /** The entries one series pushes, in step order. */
  function Entries(s: Series): seq<Entry>
  {
    seq(|s.steps|, j requires 0 <= j < |s.steps| => Entry(s.steps[j].time, s.name, s.steps[j].count))
  }

  /** The concatenation of every series' entries, in series order. */
  function Flatten(ts: seq<Series>): seq<Entry>
  {
    if ts == [] then [] else Flatten(ts[..|ts| - 1]) + Entries(ts[|ts| - 1])
  }

  /** The nested `forEach` loops that `push` onto `flatData`. */
  method FlattenData(transformed: seq<Series>) returns (flatData: seq<Entry>)
    ensures flatData == Flatten(transformed)
  {
    flatData := [];
    var k := 0;
    while k < |transformed|
      invariant 0 <= k <= |transformed|
      invariant flatData == Flatten(transformed[..k])
    {
      var d := transformed[k];
      var j := 0;
      while j < |d.steps|
        invariant 0 <= j <= |d.steps|
        invariant flatData == Flatten(transformed[..k]) + Entries(d)[..j]
      {
        var s := d.steps[j];
        flatData := flatData + [Entry(s.time, d.name, s.count)];
        j := j + 1;
      }
      assert Entries(d)[..j] == Entries(d);
      assert transformed[..k + 1][..k] == transformed[..k];
      k := k + 1;
    }
    assert transformed[..k] == transformed;
  }

  /** `flatData` holds 30 entries per bucket, grouped by bucket in input
      order; within a group the times run 0..29 and the counts are the
      bucket's growing counts. */
  lemma {:induction false} FlatDataLayout(data: seq<Bucket>)
    ensures |Flatten(Transform(data))| == Steps * |data|
    ensures forall k :: 0 <= k < |Flatten(Transform(data))| ==>
      Flatten(Transform(data))[k] ==
        Entry(k % Steps, data[k / Steps].name, StepCount(data[k / Steps].count, k % Steps))
  {
    if data != [] {
      var n := |data|;
      var p := data[..n - 1];
      FlatDataLayout(p);
      assert Transform(data)[..n - 1] == Transform(p);
      var last := Entries(Transform(data)[n - 1]);
      var flat := Flatten(Transform(data));
      assert flat == Flatten(Transform(p)) + last;
      forall k | 0 <= k < |flat|
        ensures flat[k] == Entry(k % Steps, data[k / Steps].name, StepCount(data[k / Steps].count, k % Steps))
      {
        if k >= Steps * (n - 1) {
          var j := k - Steps * (n - 1);
          assert k / Steps == n - 1 && k % Steps == j;
          assert flat[k] == last[j];
        } else {
          assert k / Steps < n - 1;
          assert flat[k] == Flatten(Transform(p))[k];
        }
      }
    }
  }

  // ---------------------------------------------------------------------
  // Frame selection
  // ---------------------------------------------------------------------

  /** `flatData.filter(d => d.time === time)`. */
  function FrameEntries(flat: seq<Entry>, t: nat): seq<Entry>
  {
    if flat == [] then []
    else (if flat[0].time == t then [flat[0]] else []) + FrameEntries(flat[1..], t)
  }

  /** Places `x` after every element of `sorted` whose count is at least
      `x.count`: the step of a stable sort by descending count. */
  function InsertByCount(sorted: seq<Entry>, x: Entry): seq<Entry>
  {
    if sorted == [] then [x]
    else if sorted[0].count < x.count then [x] + sorted
    else [sorted[0]] + InsertByCount(sorted[1..], x)
  }

  /** `sort((a, b) => b.count - a.count)`; the sort of the JavaScript
      standard is stable. */
  function SortByCountDesc(s: seq<Entry>): seq<Entry>
  {
    if s == [] then [] else InsertByCount(SortByCountDesc(s[..|s| - 1]), s[|s| - 1])
  }

  /** `slice(0, n)`. */
  function Take(s: seq<Entry>, n: nat): seq<Entry>
  {
    if |s| <= n then s else s[..n]
  }

  /** The bars of frame `t`. */
  function SelectFrame(flat: seq<Entry>, t: nat): seq<Entry>
  {
    Take(SortByCountDesc(FrameEntries(flat, t)), Shown)
  }

  predicate SortedByCountDesc(s: seq<Entry>)
  {
    forall i, j :: 0 <= i < j < |s| ==> s[i].count >= s[j].count
  }

  /** The entries of `s` with count `c`, in their order in `s`. */
  function WithCount(s: seq<Entry>, c: int): seq<Entry>
  {
    if s == [] then [] else (if s[0].count == c then [s[0]] else []) + WithCount(s[1..], c)
  }

  /** The frame filter keeps exactly that frame's entries, with their multiplicities. */
  lemma {:induction false} FrameEntriesSpec(flat: seq<Entry>, t: nat)
    ensures forall e :: e in FrameEntries(flat, t) ==> e.time == t
    ensures forall e: Entry :: e.time == t ==> multiset(FrameEntries(flat, t))[e] == multiset(flat)[e]
  {
    if flat != [] {
      FrameEntriesSpec(flat[1..], t);
      assert flat == [flat[0]] + flat[1..];
    }
  }

  lemma {:induction false} WithCountOfLower(s: seq<Entry>, c: int)
    requires SortedByCountDesc(s) && s != [] && s[0].count < c
    ensures WithCount(s, c) == []
  {
    if |s| > 1 {
      TailSorted(s);
      WithCountOfLower(s[1..], c);
    }
  }

  lemma TailSorted(s: seq<Entry>)
    requires SortedByCountDesc(s) && s != []
    ensures SortedByCountDesc(s[1..])
  {
    forall i, j | 0 <= i < j < |s[1..]| ensures s[1..][i].count >= s[1..][j].count {
      assert s[1..][i] == s[i + 1] && s[1..][j] == s[j + 1];
    }
  }

  /** Inserting adds `x` once and nothing else. */
  lemma {:induction false} InsertByCountPerm(sorted: seq<Entry>, x: Entry)
    ensures multiset(InsertByCount(sorted, x)) == multiset(sorted) + multiset{x}
  {
    if sorted != [] && sorted[0].count >= x.count {
      InsertByCountPerm(sorted[1..], x);
      assert sorted == [sorted[0]] + sorted[1..];
    }
  }

  lemma ConsSorted(h: Entry, rest: seq<Entry>)
    requires SortedByCountDesc(rest)
    requires forall e :: e in rest ==> e.count <= h.count
    ensures SortedByCountDesc([h] + rest)
  {
    var r := [h] + rest;
    forall i, j | 0 <= i < j < |r| ensures r[i].count >= r[j].count {
      assert r[j] == rest[j - 1];
      if i > 0 {
        assert r[i] == rest[i - 1];
      }
    }
  }

  lemma HeadIsLargest(s: seq<Entry>, e: Entry)
    requires SortedByCountDesc(s) && s != [] && e in s
    ensures e.count <= s[0].count
  {
  }

  /** Inserting keeps the order. */
  lemma {:induction false} InsertByCountSorted(sorted: seq<Entry>, x: Entry)
    requires SortedByCountDesc(sorted)
    ensures SortedByCountDesc(InsertByCount(sorted, x))
  {
    if sorted != [] && sorted[0].count >= x.count {
      var tail := sorted[1..];
      TailSorted(sorted);
      InsertByCountSorted(tail, x);
      InsertByCountPerm(tail, x);
      var rest := InsertByCount(tail, x);
      forall e | e in rest ensures e.count <= sorted[0].count {
        assert e in multiset(rest);
        if e != x {
          assert e in multiset(tail);
          HeadIsLargest(sorted, e);
        }
      }
      ConsSorted(sorted[0], rest);
    }
  }

  lemma WithCountCons(h: Entry, s: seq<Entry>, c: int)
    ensures WithCount([h] + s, c) == (if h.count == c then [h] else []) + WithCount(s, c)
  {
    assert ([h] + s)[1..] == s;
  }

  /** Inserting puts `x` behind every earlier entry of the same count. */
  lemma {:induction false} InsertByCountStable(sorted: seq<Entry>, x: Entry, c: int)
    requires SortedByCountDesc(sorted)
    ensures WithCount(InsertByCount(sorted, x), c) == WithCount(sorted, c) + if x.count == c then [x] else []
  {
    if sorted == [] {
      WithCountCons(x, [], c);
    } else if sorted[0].count < x.count {
      WithCountCons(x, sorted, c);
      if c == x.count {
        WithCountOfLower(sorted, c);
      }
    } else {
      var h, tail := sorted[0], sorted[1..];
      TailSorted(sorted);
      InsertByCountStable(tail, x, c);
      WithCountCons(h, InsertByCount(tail, x), c);
      WithCountCons(h, tail, c);
      assert sorted == [h] + tail;
      var hc := if h.count == c then [h] else [];
      var xc := if x.count == c then [x] else [];
      assert WithCount(InsertByCount(sorted, x), c) == hc + (WithCount(tail, c) + xc);
      assert hc + (WithCount(tail, c) + xc) == (hc + WithCount(tail, c)) + xc;
    }
  }

  /** The sort orders by descending count and is a permutation of its input. */
  lemma {:induction false} SortByCountDescSorted(s: seq<Entry>)
    ensures SortedByCountDesc(SortByCountDesc(s))
    ensures multiset(SortByCountDesc(s)) == multiset(s)
  {
    if s != [] {
      var p, x := s[..|s| - 1], s[|s| - 1];
      assert s == p + [x];
      SortByCountDescSorted(p);
      InsertByCountSorted(SortByCountDesc(p), x);
      InsertByCountPerm(SortByCountDesc(p), x);
    }
  }

  /** The sort keeps the input order among entries of count `c`. */
  lemma {:induction false} SortByCountDescStable(s: seq<Entry>, c: int)
    ensures WithCount(SortByCountDesc(s), c) == WithCount(s, c)
  {
    if s != [] {
      var p, x := s[..|s| - 1], s[|s| - 1];
      assert s == p + [x];
      SortByCountDescStable(p, c);
      SortByCountDescSorted(p);
      InsertByCountStable(SortByCountDesc(p), x, c);
      WithCountAppend(p, [x], c);
      WithCountCons(x, [], c);
    }
  }

  /** The sort is a stable sort by descending count: the result is ordered,
      is a permutation of the input, and keeps the input order among equal counts. */
  lemma SortByCountDescSpec(s: seq<Entry>)
    ensures SortedByCountDesc(SortByCountDesc(s))
    ensures multiset(SortByCountDesc(s)) == multiset(s)
    ensures forall c :: WithCount(SortByCountDesc(s), c) == WithCount(s, c)
  {
    SortByCountDescSorted(s);
    forall c ensures WithCount(SortByCountDesc(s), c) == WithCount(s, c) {
      SortByCountDescStable(s, c);
    }
  }

  lemma {:induction false} WithCountAppend(a: seq<Entry>, b: seq<Entry>, c: int)
    ensures WithCount(a + b, c) == WithCount(a, c) + WithCount(b, c)
  {
    if a != [] {
      assert (a + b)[1..] == a[1..] + b;
      WithCountAppend(a[1..], b, c);
    } else {
      assert a + b == b;
    }
  }

  /** The selection is a prefix of the sorted frame. */
  lemma SelectFramePrefix(flat: seq<Entry>, t: nat)
    ensures var sorted := SortByCountDesc(FrameEntries(flat, t));
      sorted == SelectFrame(flat, t) + sorted[|SelectFrame(flat, t)|..]
    ensures |SelectFrame(flat, t)| == if |FrameEntries(flat, t)| < Shown then |FrameEntries(flat, t)| else Shown
  {
    SortByCountDescSpec(FrameEntries(flat, t));
    assert |multiset(SortByCountDesc(FrameEntries(flat, t)))| == |FrameEntries(flat, t)|;
  }

  /** The bars of a frame are that frame's entries, at most seven of them,
      and exactly seven when the frame has that many. */
  lemma SelectFrameMembers(flat: seq<Entry>, t: nat)
    ensures |SelectFrame(flat, t)| == if |FrameEntries(flat, t)| < Shown then |FrameEntries(flat, t)| else Shown
    ensures forall e :: e in SelectFrame(flat, t) ==> e.time == t && e in flat
  {
    var frame := FrameEntries(flat, t);
    var sorted := SortByCountDesc(frame);
    var sel := SelectFrame(flat, t);
    SelectFramePrefix(flat, t);
    FrameEntriesSpec(flat, t);
    SortByCountDescSpec(frame);
    forall e | e in sel ensures e.time == t && e in flat {
      assert e in multiset(sorted);
      assert e in frame;
      assert multiset(flat)[e] > 0;
    }
  }

  /** The bars of a frame are ordered by descending count, and they are a
      top seven: every entry of the frame left out counts no more than any
      bar shown. */
  lemma SelectFrameTop(flat: seq<Entry>, t: nat)
    ensures SortedByCountDesc(SelectFrame(flat, t))
    ensures var sel := SelectFrame(flat, t);
      forall e, s :: e in multiset(FrameEntries(flat, t)) - multiset(sel) && s in sel ==> e.count <= s.count
  {
    var frame := FrameEntries(flat, t);
    var sorted := SortByCountDesc(frame);
    var sel := SelectFrame(flat, t);
    SelectFramePrefix(flat, t);
    SortByCountDescSpec(frame);
    var n := |sel|;
    var rest := sorted[n..];
    PrefixSplit(sorted, sel, rest);
    forall e: Entry, s: Entry | e in multiset(frame) - multiset(sel) && s in sel ensures e.count <= s.count {
      assert e in multiset(rest);
      SortedSplit(sorted, n, e, s);
    }
  }

  lemma PrefixSplit(sorted: seq<Entry>, sel: seq<Entry>, rest: seq<Entry>)
    requires SortedByCountDesc(sorted) && sorted == sel + rest
    ensures SortedByCountDesc(sel)
    ensures multiset(sorted) == multiset(sel) + multiset(rest)
  {
    forall i, j | 0 <= i < j < |sel| ensures sel[i].count >= sel[j].count {
      assert sel[i] == sorted[i] && sel[j] == sorted[j];
    }
  }

  lemma SortedSplit(sorted: seq<Entry>, n: nat, e: Entry, s: Entry)
    requires SortedByCountDesc(sorted) && n <= |sorted|
    requires e in sorted[n..] && s in sorted[..n]
    ensures e.count <= s.count
  {
    var j :| 0 <= j < |sorted[n..]| && sorted[n..][j] == e;
    var i :| 0 <= i < n && sorted[..n][i] == s;
    assert sorted[i] == s && sorted[n + j] == e;
  }

  /** Among entries of equal count, the bars shown are the first ones in
      `flatData` order. */
  lemma SelectFrameStable(flat: seq<Entry>, t: nat)
    ensures forall c :: WithCount(SelectFrame(flat, t), c) <= WithCount(FrameEntries(flat, t), c)
  {
    var frame := FrameEntries(flat, t);
    var sorted := SortByCountDesc(frame);
    var sel := SelectFrame(flat, t);
    SelectFramePrefix(flat, t);
    SortByCountDescSpec(frame);
    forall c ensures WithCount(sel, c) <= WithCount(frame, c) {
      WithCountAppend(sel, sorted[|sel|..], c);
    }
  }

  /** On one entry the frame filter keeps it exactly when its time is `t`. */
  lemma FrameEntriesSingle(e: Entry, t: nat)
    ensures FrameEntries([e], t) == if e.time == t then [e] else []
  {
  }

  /** The frame filter distributes over concatenation; with `FrameEntriesSingle`
      this fixes it as the filter that keeps the frame's entries in `flatData` order. */
  lemma {:induction false} FrameEntriesAppend(a: seq<Entry>, b: seq<Entry>, t: nat)
    ensures FrameEntries(a + b, t) == FrameEntries(a, t) + FrameEntries(b, t)
  {
    if a != [] {
      assert (a + b)[1..] == a[1..] + b;
      FrameEntriesAppend(a[1..], b, t);
    } else {
      assert a + b == b;
    }
  }

  /** In a run of entries whose times count up from `lo`, a frame picks at most one. */
  lemma {:induction false} FrameOfRun(s: seq<Entry>, lo: nat, t: nat)
    requires forall j :: 0 <= j < |s| ==> s[j].time == lo + j
    ensures FrameEntries(s, t) == if lo <= t < lo + |s| then [s[t - lo]] else []
  {
    if s != [] {
      FrameOfRun(s[1..], lo + 1, t);
    }
  }

  /** The last bucket's part of `flatData`: its 30 entries, times 0..29. */
  lemma TransformSplit(data: seq<Bucket>)
    requires data != []
    ensures var n := |data|; var last := Entries(Transform(data)[n - 1]);
      && Flatten(Transform(data)) == Flatten(Transform(data[..n - 1])) + last
      && |last| == Steps
      && forall j :: 0 <= j < Steps ==> last[j] == Entry(j, data[n - 1].name, StepCount(data[n - 1].count, j))
  {
    assert Transform(data)[..|data| - 1] == Transform(data[..|data| - 1]);
  }

  /** Frame `t` of the race holds one entry per bucket, in input order,
      carrying that bucket's count at step `t`. */
  lemma {:induction false} FrameOfLayout(data: seq<Bucket>, t: nat)
    requires t < Steps
    ensures var frame := FrameEntries(Flatten(Transform(data)), t);
      |frame| == |data| &&
      forall k :: 0 <= k < |data| ==> frame[k] == Entry(t, data[k].name, StepCount(data[k].count, t))
  {
    if data != [] {
      var n := |data|;
      var p := data[..n - 1];
      FrameOfLayout(p, t);
      TransformSplit(data);
      var last := Entries(Transform(data)[n - 1]);
      FrameEntriesAppend(Flatten(Transform(p)), last, t);
      FrameOfRun(last, 0, t);
      var front := FrameEntries(Flatten(Transform(p)), t);
      var frame := FrameEntries(Flatten(Transform(data)), t);
      assert frame == front + [last[t]];
      forall k | 0 <= k < n ensures frame[k] == Entry(t, data[k].name, StepCount(data[k].count, t)) {
        if k < n - 1 {
          assert frame[k] == front[k] && data[k] == p[k];
        }
      }
    }
  }

  /** At the last frame every bucket shows its full count. */
  lemma LastFrameShowsCounts(data: seq<Bucket>)
    ensures var frame := FrameEntries(Flatten(Transform(data)), Steps - 1);
      |frame| == |data| &&
      forall k :: 0 <= k < |data| ==> frame[k] == Entry(Steps - 1, data[k].name, data[k].count)
  {
    FrameOfLayout(data, Steps - 1);
    forall k | 0 <= k < |data| ensures StepCount(data[k].count, Steps - 1) == data[k].count {
      StepCountLast(data[k].count);
    }
  }

  // ---------------------------------------------------------------------
  // The animation counter
  // ---------------------------------------------------------------------

  /** The state `drawBarChartRace` keeps between `updateChart` calls: the
      flattened data, the frame counter `time`, and the selections handed to
      the renderer so far. */
  class BarChartRace {
    const flatData: seq<Entry>
    var time: nat
    var rendered: seq<seq<Entry>>

    /** Frames 0 .. time - 1 have been drawn, in order, from their own selections. */
    ghost predicate Valid()
      reads this
    {
      time <= Steps && |rendered| == time &&
      forall t :: 0 <= t < time ==> rendered[t] == SelectFrame(flatData, t)
    }

    /** Prepares `flatData` from the buckets and starts `time` at 0, as
        `drawBarChartRace` does before its first `updateChart` call. */
    constructor (data: seq<Bucket>)
      ensures flatData == Flatten(Transform(data))
      ensures time == 0 && rendered == []
      ensures Valid()
    {
      var transformed := Transform(data);
      var flat := FlattenData(transformed);
      flatData := flat;
      time := 0;
      rendered := [];
    }

    /** One `updateChart` call: draw frame `time`, advance the counter, and
        say whether another call is scheduled. */
    method UpdateChart() returns (again: bool)
      modifies this
      ensures rendered == old(rendered) + [SelectFrame(flatData, old(time))]
      ensures time == old(time) + 1
      ensures again <==> time < Steps
      ensures old(Valid()) && old(time) < Steps ==> Valid()
    {
      var current := SelectFrame(flatData, time);
      rendered := rendered + [current];
      time := time + 1;
      again := time < Steps;
    }

    /** The first call and the calls it reschedules, as a loop: the frame
        selection runs exactly once for each frame 0..29, in order. */
    method Run()
      requires Valid() && time == 0
      modifies this
      ensures Valid() && time == Steps
      ensures |rendered| == Steps
      ensures forall t :: 0 <= t < Steps ==> rendered[t] == SelectFrame(flatData, t)
    {
      var again := UpdateChart();
      while again
        invariant Valid() && 1 <= time
        invariant again <==> time < Steps
        decreases Steps - time
      {
        again := UpdateChart();
      }
    }
  }

  /** The whole race for `data`: the frames drawn, one per time step. */
  method DrawBarChartRace(data: seq<Bucket>) returns (frames: seq<seq<Entry>>)
    ensures |frames| == Steps
    ensures forall t :: 0 <= t < Steps ==> frames[t] == SelectFrame(Flatten(Transform(data)), t)
  {
    var race := new BarChartRace(data);
    race.Run();
    frames := race.rendered;
  }
}
