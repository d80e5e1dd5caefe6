/** The red bands of a chart: runs of down samples merged into spans of time. */
module DownBands {

  datatype Band = Band(start: int, end: int)

  /** A chart's samples come in time order; stamps may tie. */
  ghost predicate InOrder(times: seq<int>) {
    forall i, j :: 0 <= i < j < |times| ==> times[i] <= times[j]
  }

  /** A sample lasts until the next one; the last lasts as long as the one before. */
  function EndOf(times: seq<int>, i: nat): int
    requires i < |times|
  {
    if i + 1 < |times| then times[i + 1]
    else if i > 0 then times[i] + (times[i] - times[i - 1])
    else times[i] + 1000
  }

  function AddBand(bands: seq<Band>, start: int, end: int): seq<Band> {
    if bands != [] && start <= bands[|bands| - 1].end then
      var last := bands[|bands| - 1];
      bands[|bands| - 1 := last.(end := if end > last.end then end else last.end)]
    else bands + [Band(start, end)]
  }

  /** The bands of the first `k` samples. */
  function Bands(times: seq<int>, down: seq<bool>, k: nat): seq<Band>
    requires k <= |times| == |down|
  {
    if k == 0 then [] else
      var rest := Bands(times, down, k - 1);
      if down[k - 1] then AddBand(rest, times[k - 1], EndOf(times, k - 1)) else rest
  }

  method ComputeDownIntervals(times: seq<int>, down: seq<bool>) returns (out: seq<Band>)
    requires |times| == |down|
    ensures out == Bands(times, down, |times|)
  {
    out := [];
    var n := |times|;
    for i := 0 to n
      invariant out == Bands(times, down, i)
    {
      if !down[i] {
        continue;
      }
      var start := times[i];
      var end;
      if i + 1 < n {
        end := times[i + 1];
      } else if i > 0 {
        end := start + (times[i] - times[i - 1]);
      } else {
        end := start + 1000;
      }
      if out != [] && start <= out[|out| - 1].end {
        var last := out[|out| - 1];
        out := out[|out| - 1 := Band(last.start, if end > last.end then end else last.end)];
      } else {
        out := out + [Band(start, end)];
      }
    }
  }

  // ── What the bands paint ────────────────────────────────────────────────────

  ghost predicate Painted(bands: seq<Band>, x: int) {
    exists j :: 0 <= j < |bands| && bands[j].start <= x < bands[j].end
  }

  /** Sample `i` lasts over `x`: until the next stamp, or, when it is the last, for as
      long as the one before it, a second when it is alone. */
  predicate LastsOver(times: seq<int>, i: nat, x: int)
    requires i < |times|
  {
    && times[i] <= x
    && (i + 1 < |times| ==> x < times[i + 1])
    && (0 < i == |times| - 1 ==> x - times[i] < times[i] - times[i - 1])
    && (|times| == 1 ==> x - times[i] < 1000)
  }

  /** One of the first `k` samples is down and lasts over `x`. */
  ghost predicate DownAt(times: seq<int>, down: seq<bool>, k: nat, x: int)
    requires k <= |times| == |down|
  {
    exists i :: 0 <= i < k && down[i] && LastsOver(times, i, x)
  }

  ghost predicate Apart(bands: seq<Band>) {
    && (forall j :: 0 <= j < |bands| ==> bands[j].start <= bands[j].end)
    && (forall j :: 0 <= j < |bands| - 1 ==> bands[j].end < bands[j + 1].start)
  }

  /** The last of the first `k` samples that is down. */
  predicate LastDown(down: seq<bool>, k: nat, p: nat)
    requires k <= |down|
  {
    p < k && down[p] && forall q :: p < q < k ==> !down[q]
  }

  /** The last band ends with the last down sample; no band, no down sample. */
  ghost predicate EndsWithLastDown(times: seq<int>, down: seq<bool>, k: nat)
    requires k <= |times| == |down|
  {
    var bands := Bands(times, down, k);
    if bands == [] then forall i :: 0 <= i < k ==> !down[i]
    else exists p :: LastDown(down, k, p) && bands[|bands| - 1].end == EndOf(times, p)
  }

  lemma {:induction false} LastBand(times: seq<int>, down: seq<bool>, k: nat)
    requires InOrder(times) && k <= |times| == |down|
    ensures EndsWithLastDown(times, down, k)
  {
    if k > 0 {
      var i := k - 1;
      LastBand(times, down, i);
      var rest := Bands(times, down, i);
      if down[i] {
        assert LastDown(down, k, i);
      } else if rest != [] {
        var p: nat :| LastDown(down, i, p) && rest[|rest| - 1].end == EndOf(times, p);
        assert LastDown(down, k, p);
      }
    }
  }

  lemma AddBandPaints(bands: seq<Band>, start: int, end: int)
    requires Apart(bands) && start <= end
    requires bands != [] ==> bands[|bands| - 1].start <= start && bands[|bands| - 1].end <= end
    ensures Apart(AddBand(bands, start, end))
    ensures forall x :: Painted(AddBand(bands, start, end), x) <==> Painted(bands, x) || start <= x < end
  {
    var more := AddBand(bands, start, end);
    forall x
      ensures Painted(more, x) <==> Painted(bands, x) || start <= x < end
    {
      var n := |more| - 1;
      assert more[n].start <= x < more[n].end ==> Painted(more, x);
      if Painted(bands, x) {
        var j :| 0 <= j < |bands| && bands[j].start <= x < bands[j].end;
        assert more[j].start <= x < more[j].end;
      }
      if Painted(more, x) {
        var j :| 0 <= j < |more| && more[j].start <= x < more[j].end;
        assert j < n ==> bands[j] == more[j];
        assert j == n && |more| == |bands| && x < bands[n].end ==> bands[n].start <= x < bands[n].end;
      }
    }
  }

  lemma StartsBefore(times: seq<int>, down: seq<bool>, k: nat, t: int)
    requires k <= |times| == |down| && forall i :: 0 <= i < k ==> times[i] <= t
    ensures forall j :: 0 <= j < |Bands(times, down, k)| ==> Bands(times, down, k)[j].start <= t
  {
  }

  /** The bands paint exactly the instants over which a down sample lasts, and no
      two of them touch. */
  lemma {:induction false} BandsPaintDownTime(times: seq<int>, down: seq<bool>, k: nat)
    requires InOrder(times) && k <= |times| == |down|
    ensures Apart(Bands(times, down, k))
    ensures forall x :: Painted(Bands(times, down, k), x) <==> DownAt(times, down, k, x)
  {
    if k > 0 {
      var i := k - 1;
      BandsPaintDownTime(times, down, i);
      forall x
        ensures DownAt(times, down, k, x) <==> DownAt(times, down, i, x) || (down[i] && LastsOver(times, i, x))
      {
      }
      if down[i] {
        LastBand(times, down, i);
        StartsBefore(times, down, i, times[i]);
        AddBandPaints(Bands(times, down, i), times[i], EndOf(times, i));
      }
    }
  }

  // ── How many there are ──────────────────────────────────────────────────────

  /** The number of maximal runs of down samples. */
  function Outages(down: seq<bool>, k: nat): nat
    requires k <= |down|
  {
    if k == 0 then 0 else
      Outages(down, k - 1) + if down[k - 1] && (k == 1 || !down[k - 2]) then 1 else 0
  }

  /** Two outages with only samples of one and the same stamp between them. */
  predicate Glued(times: seq<int>, down: seq<bool>, p: nat, i: nat)
    requires p < i < |times| == |down|
  {
    LastDown(down, i, p) && down[i] && p + 1 < i && times[p + 1] == times[i]
  }

  /** The loss count of a chart is its number of outages exactly when no recovery
      between two of them lasts no time at all. */
  lemma {:induction false} LossCountIsOutages(times: seq<int>, down: seq<bool>, k: nat)
    requires InOrder(times) && k <= |times| == |down|
    ensures |Bands(times, down, k)| <= Outages(down, k)
    ensures |Bands(times, down, k)| == Outages(down, k) <==>
            forall p, i :: 0 <= p < i < k ==> !Glued(times, down, p, i)
  {
    if k > 0 {
      var j := k - 1;
      LossCountIsOutages(times, down, j);
      LastBand(times, down, j);
      var rest := Bands(times, down, j);
      if down[j] && rest != [] {
        var p: nat :| LastDown(down, j, p) && rest[|rest| - 1].end == EndOf(times, p);
        assert p < j - 1 ==> !down[j - 1];
        assert Glued(times, down, p, j) <==> p + 1 < j && times[j] <= rest[|rest| - 1].end;
        forall p' | 0 <= p' < j
          ensures Glued(times, down, p', j) ==> p' == p
        {
        }
      }
    }
  }

  /** Down, up and down again, the recovery and the second outage in one instant: two
      outages, one band. */
  lemma GluedOutages()
    ensures var times, down := [0, 1, 1], [true, false, true];
            InOrder(times) && Outages(down, 3) == 2 && |Bands(times, down, 3)| < 2
  {
    var times, down := [0, 1, 1], [true, false, true];
    assert Glued(times, down, 0, 2);
    assert Outages(down, 1) == 1 && Outages(down, 2) == 1;
    LossCountIsOutages(times, down, 3);
  }
}
