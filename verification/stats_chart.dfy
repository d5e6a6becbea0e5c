/** The statistics chart: one line per nurse, each coloured by its position,
    built once and refreshed in place after assignments. */
module StatsChart {
  import opened Wrappers

  /** An `hsl(h, s%, l%)` colour. */
  datatype Hsl = Hsl(hue: int, saturation: int, lightness: int)

  /** `colorForIndex`: hues 47 degrees apart, at 65% saturation and 45% lightness. */
  function ColorForIndex(i: nat): (c: Hsl)
    ensures 0 <= c.hue < 360
    ensures c.saturation == 65 && c.lightness == 45
    ensures c.hue == (47 * i) % 360
  {
    Hsl((i * 47) % 360, 65, 45)
  }

  /** Two indices get the same colour only 360 positions apart: 47 has the
      inverse 23 modulo 360, so equal hues mean equal indices modulo 360. */
  lemma {:induction false} ColorsRepeatEvery360(i: nat, j: nat)
    ensures ColorForIndex(i) == ColorForIndex(j) <==> i % 360 == j % 360
  {
    var qi, qj := (47 * i) / 360, (47 * j) / 360;
    assert 47 * i == 360 * qi + (47 * i) % 360;
    assert 47 * j == 360 * qj + (47 * j) % 360;
    if ColorForIndex(i) == ColorForIndex(j) {
      // 47 * (i - j) is a multiple of 360, hence so is 1081 * (i - j) = 23 * 47 * (i - j),
      // and 1081 = 3 * 360 + 1.
      assert 47 * (i - j) == 360 * (qi - qj);
      assert 1081 * (i - j) == 360 * (23 * (qi - qj));
      assert i - j == 360 * (23 * (qi - qj) - 3 * (i - j));
      MultipleOf360(i, j, 23 * (qi - qj) - 3 * (i - j));
    } else {
      if i % 360 == j % 360 {
        var k := i / 360 - j / 360;
        assert i - j == 360 * k;
        assert 47 * i == 47 * j + 360 * (47 * k);
        SameRemainder(47 * j, 47 * k);
      }
    }
  }

  /** Numbers a multiple of 360 apart have the same remainder. */
  lemma MultipleOf360(i: nat, j: nat, k: int)
    requires i - j == 360 * k
    ensures i % 360 == j % 360
  {
    SameRemainder(j, k);
  }

  /** Adding a multiple of 360 leaves the remainder unchanged. */
  lemma SameRemainder(a: int, k: int)
    ensures (a + 360 * k) % 360 == a % 360
  {
  }

  /** Up to 360 lines, every line has its own colour. */
  lemma DistinctColors(i: nat, j: nat)
    requires i < 360 && j < 360 && i != j
    ensures ColorForIndex(i) != ColorForIndex(j)
  {
    ColorsRepeatEvery360(i, j);
    assert i % 360 == i && j % 360 == j;
  }

  /** One entry of the `datasets` the server sends: a nurse's label and counts. */
  datatype RawDataset = RawDataset(lbl: string, data: seq<int>)

  /** A Chart.js line. The fixed `tension` of 0.2 is not modelled. */
  datatype Dataset = Dataset(lbl: string, data: seq<int>, borderColor: Hsl, backgroundColor: Hsl,
                             pointRadius: int, borderWidth: int, fill: bool)

  /** `buildDatasets`: the raw entries in order, each coloured by its index. */
  function BuildDatasets(raw: seq<RawDataset>): (r: seq<Dataset>)
    ensures |r| == |raw|
    ensures forall i :: 0 <= i < |raw| ==> r[i].lbl == raw[i].lbl && r[i].data == raw[i].data
    ensures forall i :: 0 <= i < |raw| ==> r[i].borderColor == r[i].backgroundColor == ColorForIndex(i)
  {
    seq(|raw|, i requires 0 <= i < |raw| => Dataset(raw[i].lbl, raw[i].data, ColorForIndex(i), ColorForIndex(i), 2, 2, false))
  }

  /** Appending datasets never changes the lines already built. */
  lemma BuildDatasetsPrefix(a: seq<RawDataset>, b: seq<RawDataset>)
    ensures BuildDatasets(a + b)[..|a|] == BuildDatasets(a)
  {
    var r, s := BuildDatasets(a + b), BuildDatasets(a);
    assert forall i :: 0 <= i < |a| ==> r[i] == s[i];
  }

  /** In a chart of at most 360 lines no two lines share a colour. */
  lemma BuildDatasetsDistinct(raw: seq<RawDataset>, i: nat, j: nat)
    requires i < |raw| && j < |raw| && i != j && |raw| <= 360
    ensures BuildDatasets(raw)[i].borderColor != BuildDatasets(raw)[j].borderColor
  {
    DistinctColors(i, j);
  }

  /** The chart's data. */
  datatype ChartData = ChartData(labels: seq<string>, datasets: seq<Dataset>)

  /** What `fetchStats` gives: a failure, or the JSON with its `rooms` and
      `datasets`, each possibly missing. */
  datatype Fetched = FetchFailed | Stats(rooms: Option<seq<string>>, datasets: Option<seq<RawDataset>>)

  /** The chart data a successful fetch yields (`data.rooms || []`, `data.datasets || []`). */
  function ChartOf(f: Fetched): (c: ChartData)
    requires f.Stats?
    ensures c.labels == f.rooms.GetOr([])
    ensures |c.datasets| == |f.datasets.GetOr([])|
  {
    ChartData(f.rooms.GetOr([]), BuildDatasets(f.datasets.GetOr([])))
  }

  /** `window.StatsChartManager`: the chart, once built, and the flag that says so. */
  class StatsChartManager {
    var chart: Option<ChartData>
    var initialized: bool
    /** How many times `chart.update()` was called. */
    var updates: nat

    /** The flag is set exactly when a chart exists. */
    predicate Valid()
      reads this
    {
      initialized <==> chart.Some?
    }

    constructor ()
      ensures chart == None && !initialized && updates == 0
      ensures Valid()
    {
      chart := None;
      initialized := false;
      updates := 0;
    }

    /** `init`: nothing when already initialised, when the page has no canvas or
        when the fetch fails; otherwise the chart is built from the fetched data,
        and only then is the flag set. */
    method Init(hasCanvas: bool, fetched: Fetched)
      modifies this`chart, this`initialized
      ensures old(initialized) || !hasCanvas || fetched.FetchFailed? ==>
        chart == old(chart) && initialized == old(initialized)
      ensures !old(initialized) && hasCanvas && fetched.Stats? ==>
        chart == Some(ChartOf(fetched)) && initialized
      ensures old(Valid()) ==> Valid()
    {
      if initialized {
        return;
      }
      if !hasCanvas {
        return;
      }
      if fetched.FetchFailed? {
        return;
      }
      chart := Some(ChartOf(fetched));
      initialized := true;
    }

    /** `refresh`: after a successful fetch, a missing chart is left to `init`
        (which fetches again), an existing one gets the new labels and lines
        and is updated. A failed fetch changes nothing. */
    method Refresh(fetched: Fetched, hasCanvas: bool, fetchedAgain: Fetched)
      modifies this`chart, this`initialized, this`updates
      ensures fetched.FetchFailed? ==> chart == old(chart) && initialized == old(initialized) && updates == old(updates)
      ensures fetched.Stats? && old(chart).None? ==> updates == old(updates)
      ensures fetched.Stats? && old(chart).None? && !old(initialized) && hasCanvas && fetchedAgain.Stats? ==>
        chart == Some(ChartOf(fetchedAgain)) && initialized
      ensures fetched.Stats? && old(chart).None? && (old(initialized) || !hasCanvas || fetchedAgain.FetchFailed?) ==>
        chart == old(chart) && initialized == old(initialized)
      ensures fetched.Stats? && old(chart).Some? ==>
        chart == Some(ChartOf(fetched)) && initialized == old(initialized) && updates == old(updates) + 1
      ensures old(Valid()) ==> Valid()
    {
      if fetched.FetchFailed? {
        return;
      }
      if chart.None? {
        Init(hasCanvas, fetchedAgain);
        return;
      }
      chart := Some(ChartOf(fetched));
      updates := updates + 1;
    }
  }
}
