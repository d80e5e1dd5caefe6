/** State timelines: the streaming folds and the step functions they denote. */
module Timeline {
  import opened Samples
  import opened Text
  import opened BorderDetail

  /** A row as the folds see it: what it says, and when. */
  datatype Sample<+S> = Sample(state: Option<S>, at: int)

  /** A run of rows with one state, over [start, end). */
  datatype Segment<+S> = Segment(state: Option<S>, start: int, end: int)

  ghost predicate Sorted<S>(rows: seq<Sample<S>>) {
    forall i, j :: 0 <= i < j < |rows| ==> rows[i].at <= rows[j].at
  }

  /** One row: extend the last segment, or end it and open the next. */
  function Push<S(==)>(segs: seq<Segment<S>>, s: Sample<S>): seq<Segment<S>> {
    if segs == [] then [Segment(s.state, s.at, s.at)] else
      var last := segs[|segs| - 1];
      var ended := segs[|segs| - 1 := last.(end := s.at)];
      if last.state == s.state then ended else ended + [Segment(s.state, s.at, s.at)]
  }

  function FoldRows<S(==)>(rows: seq<Sample<S>>): seq<Segment<S>> {
    if rows == [] then [] else Push(FoldRows(rows[..|rows| - 1]), rows[|rows| - 1])
  }

  /** The last segment runs to the end of the window. */
  function Close<S>(segs: seq<Segment<S>>, toMs: int): seq<Segment<S>> {
    if segs == [] then segs else segs[|segs| - 1 := segs[|segs| - 1].(end := toMs)]
  }

  function Segments<S(==)>(rows: seq<Sample<S>>, toMs: int): seq<Segment<S>> {
    Close(FoldRows(rows), toMs)
  }

  /** The state in force at `x`: that of the last row at or before it. */
  function StateAt<S>(rows: seq<Sample<S>>, x: int): Option<S> {
    if rows == [] then None
    else if rows[|rows| - 1].at <= x then rows[|rows| - 1].state
    else StateAt(rows[..|rows| - 1], x)
  }

  // ── The shape of a fold ─────────────────────────────────────────────────────

  ghost predicate Abut<S>(segs: seq<Segment<S>>) {
    forall i :: 0 <= i < |segs| - 1 ==>
                  segs[i].start <= segs[i].end == segs[i + 1].start && segs[i].state != segs[i + 1].state
  }

  ghost predicate Carries<S>(seg: Segment<S>, rows: seq<Sample<S>>) {
    forall x :: seg.start <= x < seg.end ==> seg.state == StateAt(rows, x)
  }

  ghost predicate Covered<S>(segs: seq<Segment<S>>, x: int) {
    exists i :: 0 <= i < |segs| && segs[i].start <= x < segs[i].end
  }

  /** While rows stream in: the last segment stays in force from its start on. */
  ghost predicate OpenFold<S>(segs: seq<Segment<S>>, rows: seq<Sample<S>>) {
    var n := |segs| - 1;
    && n >= 0 && rows != []
    && Abut(segs)
    && segs[0].start == rows[0].at
    && segs[n].start <= segs[n].end == rows[|rows| - 1].at
    && (forall i :: 0 <= i < n ==> Carries(segs[i], rows))
    && (forall x :: segs[n].start <= x ==> segs[n].state == StateAt(rows, x))
  }

  lemma PushKeepsOpenFold<S>(segs: seq<Segment<S>>, rows: seq<Sample<S>>, s: Sample<S>)
    requires OpenFold(segs, rows) && rows[|rows| - 1].at <= s.at
    ensures OpenFold(Push(segs, s), rows + [s])
  {
    var more, out := rows + [s], Push(segs, s);
    var n := |segs| - 1;
    assert more[..|rows|] == rows;
    assert forall x :: StateAt(more, x) == if s.at <= x then s.state else StateAt(rows, x);
    forall i | 0 <= i < |out| - 1
      ensures Carries(out[i], more)
    {
      if i < n {
        StartsInOrder(segs, i, n);
        assert Carries(segs[i], rows) && out[i] == segs[i];
      }
    }
  }

  lemma {:induction false} StartsInOrder<S>(segs: seq<Segment<S>>, i: nat, j: nat)
    requires Abut(segs) && i <= j < |segs|
    ensures segs[i].start <= segs[j].start
    ensures i < j ==> segs[i].end <= segs[j].start
    decreases j - i
  {
    if i < j {
      StartsInOrder(segs, i + 1, j);
    }
  }

  lemma {:induction false} FoldIsOpen<S>(rows: seq<Sample<S>>)
    requires Sorted(rows) && rows != []
    ensures OpenFold(FoldRows(rows), rows)
  {
    var init, last := rows[..|rows| - 1], rows[|rows| - 1];
    if init == [] {
      assert rows == [last];
      assert FoldRows(init) == [];
      assert rows[..0] == [];
    } else {
      FoldIsOpen(init);
      PushKeepsOpenFold(FoldRows(init), init, last);
      assert init + [last] == rows;
    }
  }

  /** The segments of sorted rows cover [first row, toMs) without gap or overlap,
      neighbours differ, and every instant carries the state of the last row at
      or before it, ties included. */
  lemma SegmentsDenoteStates<S>(rows: seq<Sample<S>>, toMs: int)
    requires Sorted(rows) && rows != [] && rows[|rows| - 1].at <= toMs
    ensures var segs := Segments(rows, toMs);
            && segs != [] && Abut(segs)
            && segs[0].start == rows[0].at && segs[|segs| - 1].end == toMs
            && (forall seg :: seg in segs ==> seg.start <= seg.end && Carries(seg, rows))
            && (forall x :: rows[0].at <= x < toMs ==> Covered(segs, x))
  {
    FoldIsOpen(rows);
    var folded, segs := FoldRows(rows), Segments(rows, toMs);
    var n := |segs| - 1;
    assert forall i :: 0 <= i < n ==> segs[i] == folded[i];
    forall x | rows[0].at <= x < toMs
      ensures Covered(segs, x)
    {
      var i := Containing(segs, x, n);
    }
  }

  lemma {:induction false} Containing<S>(segs: seq<Segment<S>>, x: int, j: nat) returns (i: nat)
    requires Abut(segs) && j < |segs| && segs[0].start <= x < segs[j].end
    ensures i <= j && segs[i].start <= x < segs[i].end
  {
    if segs[j].start <= x {
      i := j;
    } else {
      i := Containing(segs, x, j - 1);
    }
  }

  // ── get_state_segments ──────────────────────────────────────────────────────

  /** The leading token of a detail: the address, or the fault class. */
  function LeadingToken(detail: Option<string>): Option<string> {
    if detail.None? || Words(detail.value, RustSpace) == [] then None
    else Some(Words(detail.value, RustSpace)[0])
  }

  /** `w` is the first word of `s`: what follows the leading space, up to the next. */
  ghost predicate IsFirstWord(s: string, w: string) {
    exists i, j :: 0 <= i < j <= |s| && w == s[i..j] && FirstWordAt(s, i, j)
  }

  predicate FirstWordAt(s: string, i: nat, j: nat)
    requires i < j <= |s|
  {
    && (forall k :: 0 <= k < i ==> RustSpace(s[k]))
    && (forall k :: i <= k < j ==> !RustSpace(s[k]))
    && (j < |s| ==> RustSpace(s[j]))
  }

  /** The token is the first word of the detail, and missing exactly when the detail is,
      or is nothing but space. */
  lemma TokenIsFirstWord(detail: Option<string>)
    ensures var token := LeadingToken(detail);
            && (token.Some? ==> detail.Some? && IsFirstWord(detail.value, token.value))
            && (token.None? <==> detail.None? || forall k :: 0 <= k < |detail.value| ==> RustSpace(detail.value[k]))
  {
    if detail.Some? {
      FirstOfWords(detail.value);
    }
  }

  lemma {:induction false} FirstOfWords(s: string)
    ensures Words(s, RustSpace) == [] <==> forall k :: 0 <= k < |s| ==> RustSpace(s[k])
    ensures Words(s, RustSpace) != [] ==> IsFirstWord(s, Words(s, RustSpace)[0])
    decreases |s|
  {
    if s != "" {
      if RustSpace(s[0]) {
        FirstOfWords(s[1..]);
        assert forall k :: 0 < k < |s| ==> s[k] == s[1..][k - 1];
        if Words(s, RustSpace) != [] {
          FirstWordLater(s, Words(s, RustSpace)[0]);
        }
      } else {
        FirstWordNow(s);
      }
    }
  }

  lemma FirstWordLater(s: string, w: string)
    requires s != "" && RustSpace(s[0]) && IsFirstWord(s[1..], w)
    ensures IsFirstWord(s, w)
  {
    var i, j :| 0 <= i < j <= |s[1..]| && w == s[1..][i..j] && FirstWordAt(s[1..], i, j);
    assert w == s[i + 1..j + 1];
    assert forall k :: 0 < k < |s| ==> s[k] == s[1..][k - 1];
    assert FirstWordAt(s, i + 1, j + 1);
  }

  lemma FirstWordNow(s: string)
    requires s != "" && !RustSpace(s[0])
    ensures Words(s, RustSpace) != [] && IsFirstWord(s, Words(s, RustSpace)[0])
  {
    var k := WordEnd(s, RustSpace);
    WordEndChars(s, RustSpace);
    assert s[0..k] == s[..k] && FirstWordAt(s, 0, k);
  }

  function TokenSamples(rows: seq<Row>): (samples: seq<Sample<string>>)
    ensures |samples| == |rows|
    ensures forall i :: 0 <= i < |rows| ==> samples[i] == Sample(LeadingToken(rows[i].detail), rows[i].at)
  {
    seq(|rows|, i requires 0 <= i < |rows| => Sample(LeadingToken(rows[i].detail), rows[i].at))
  }

  /** The step of both folds: extend the last segment, or end it and open one. */
  method PushRow<S(==)>(segs: seq<Segment<S>>, state: Option<S>, t: int) returns (out: seq<Segment<S>>)
    ensures out == Push(segs, Sample(state, t))
  {
    out := segs;
    var n := |segs| - 1;
    if segs != [] && segs[n].state == state {
      out := out[n := out[n].(end := t)];
    } else {
      if segs != [] {
        out := out[n := out[n].(end := t)];
      }
      out := out + [Segment(state, t, t)];
    }
  }

  method GetStateSegments(rows: seq<Row>, toMs: int) returns (segs: seq<Segment<string>>)
    ensures segs == Segments(TokenSamples(rows), toMs)
  {
    var samples := TokenSamples(rows);
    segs := [];
    for i := 0 to |rows|
      invariant segs == FoldRows(samples[..i])
    {
      assert samples[..i + 1][..i] == samples[..i];
      segs := PushRow(segs, LeadingToken(rows[i].detail), rows[i].at);
    }
    assert samples[..|rows|] == samples;
    if segs != [] {
      var n := |segs| - 1;
      segs := segs[n := segs[n].(end := toMs)];
    }
  }

  // ── get_border_hop_segments ─────────────────────────────────────────────────

  function HopOf(h: Hops, hop: nat): HopState {
    if hop == 0 then h.local else if hop == 1 then h.isp else h.upstream
  }

  /** One hop's projection of the rows. */
  function HopSamples(rows: seq<Row>, hop: nat): (samples: seq<Sample<bool>>)
    ensures |samples| == |rows|
    ensures forall i :: 0 <= i < |rows| ==> samples[i] == Sample(HopOf(ServerHops(rows[i].detail), hop), rows[i].at)
  {
    seq(|rows|, i requires 0 <= i < |rows| => Sample(HopOf(ServerHops(rows[i].detail), hop), rows[i].at))
  }

  /** Folding the three hops side by side is folding each one's rows by itself. */
  method GetBorderHopSegments(rows: seq<Row>, toMs: int)
    returns (local: seq<Segment<bool>>, isp: seq<Segment<bool>>, upstream: seq<Segment<bool>>)
    ensures local == Segments(HopSamples(rows, 0), toMs)
    ensures isp == Segments(HopSamples(rows, 1), toMs)
    ensures upstream == Segments(HopSamples(rows, 2), toMs)
  {
    var hops: seq<seq<Segment<bool>>> := [[], [], []];
    for i := 0 to |rows|
      invariant HopsFolded(hops, rows, i)
    {
      var states := ParseBorderHopStates(rows[i].detail);
      FoldNext(HopSamples(rows, 0), i);
      FoldNext(HopSamples(rows, 1), i);
      FoldNext(HopSamples(rows, 2), i);
      hops := PushHops(hops, states, rows[i].at);
    }
    FoldNext(HopSamples(rows, 0), |rows|);
    FoldNext(HopSamples(rows, 1), |rows|);
    FoldNext(HopSamples(rows, 2), |rows|);
    local, isp, upstream := Close(hops[0], toMs), Close(hops[1], toMs), Close(hops[2], toMs);
  }

  ghost predicate HopsFolded(hops: seq<seq<Segment<bool>>>, rows: seq<Row>, i: nat) {
    && |hops| == 3 && i <= |rows|
    && hops[0] == FoldRows(HopSamples(rows, 0)[..i])
    && hops[1] == FoldRows(HopSamples(rows, 1)[..i])
    && hops[2] == FoldRows(HopSamples(rows, 2)[..i])
  }

  lemma FoldNext<S>(samples: seq<Sample<S>>, i: nat)
    requires i <= |samples|
    ensures i == |samples| ==> samples[..i] == samples
    ensures i < |samples| ==> FoldRows(samples[..i + 1]) == Push(FoldRows(samples[..i]), samples[i])
  {
    if i < |samples| {
      assert samples[..i + 1][..i] == samples[..i];
    }
  }

  /** One row's three states, each pushed onto its own hop's segments. */
  method PushHops(hops: seq<seq<Segment<bool>>>, states: array<HopState>, t: int) returns (out: seq<seq<Segment<bool>>>)
    requires |hops| == 3 == states.Length
    ensures |out| == 3
    ensures out[0] == Push(hops[0], Sample(states[0], t))
    ensures out[1] == Push(hops[1], Sample(states[1], t))
    ensures out[2] == Push(hops[2], Sample(states[2], t))
  {
    out := hops;
    for h := 0 to 3
      invariant |out| == 3
      invariant forall g :: 0 <= g < 3 ==> out[g] == if g < h then Push(hops[g], Sample(states[g], t)) else hops[g]
    {
      var segs := PushRow(out[h], states[h], t);
      out := out[h := segs];
    }
  }

  // ── The live-update signature ───────────────────────────────────────────────

  const NOT_DETECTED := "local gateway could not be " + "detected \U{2014} check network " +
    "or configure gateway explicitly"

  /** The details a border probe can store. */
  ghost predicate BorderRowDetail(detail: Option<string>) {
    || detail == None
    || detail == Some(NOT_DETECTED)
    || exists local: Option<nat>, isp: Option<Option<nat>>, upstream: Option<nat> ::
         detail == Some(Printed(local, isp, upstream))
  }

  /** What `run` prints for three measurements, an RTT being there exactly when
      the hop answered; `isp` is None when the ISP gateway is not known. */
  function Printed(local: Option<nat>, isp: Option<Option<nat>>, upstream: Option<nat>): string {
    ClassifyBorder(local.Some?, if isp.Some? then Some(isp.value.Some?) else None, upstream.Some?,
                   local, if isp.Some? then isp.value else None, upstream).detail
  }

  /** The tail state of a hop's timeline, as the page's suppression key reads it. */
  function TailUp(segs: seq<Segment<bool>>): bool {
    segs != [] && segs[|segs| - 1].state == Some(true)
  }

  lemma TailIsNewest(rows: seq<Row>, hop: nat, toMs: int)
    requires rows != []
    ensures TailUp(Segments(HopSamples(rows, hop), toMs)) <==>
            HopOf(ServerHops(rows[|rows| - 1].detail), hop) == Some(true)
  {
    var samples := HopSamples(rows, hop);
    var folded := FoldRows(samples);
    assert folded == Push(FoldRows(samples[..|samples| - 1]), samples[|samples| - 1]);
  }

  lemma ParsersAgree(detail: Option<string>)
    requires BorderRowDetail(detail)
    ensures ServerHops(detail) == PageHops(detail)
  {
    if detail == Some(NOT_DETECTED) {
      NotDetectedHasNoGroup();
    } else if detail.Some? {
      var local: Option<nat>, isp: Option<Option<nat>>, upstream: Option<nat> :|
        detail == Some(Printed(local, isp, upstream));
      DetailRoundTrip(local.Some?, if isp.Some? then Some(isp.value.Some?) else None, upstream.Some?,
                      local, if isp.Some? then isp.value else None, upstream);
    }
  }

  lemma NotDetectedHasNoGroup()
    ensures '(' !in NOT_DETECTED && PageGroup(NOT_DETECTED) == None
  {
    assert '(' !in "local gateway could not be ";
    assert '(' !in "detected \U{2014} check network ";
    assert '(' !in "or configure gateway explicitly";
    NoGroup(NOT_DETECTED);
  }

  lemma {:induction false} NoGroup(s: string)
    requires '(' !in s
    ensures PageGroup(s) == None
  {
    if s != "" {
      NoGroup(s[1..]);
    }
  }

  /** After a load, the key built from the three tails is the signature of the
      newest row's detail, so the same detail arriving live reloads nothing. */
  lemma TailsMatchSignature(rows: seq<Row>, toMs: int)
    requires rows != [] && BorderRowDetail(rows[|rows| - 1].detail)
    ensures (TailUp(Segments(HopSamples(rows, 0), toMs)), TailUp(Segments(HopSamples(rows, 1), toMs)),
             TailUp(Segments(HopSamples(rows, 2), toMs))) ==
            Signature(PageHops(rows[|rows| - 1].detail))
  {
    ParsersAgree(rows[|rows| - 1].detail);
    TailIsNewest(rows, 0, toMs);
    TailIsNewest(rows, 1, toMs);
    TailIsNewest(rows, 2, toMs);
  }
}
