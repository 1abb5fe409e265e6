/** Caller attribution (FindCallsFrom.cs, `PullFromProfiler`, lines 36-124,
    and `GetFrameRangeFromProfiler`, lines 126-142): the run reads the
    profiler's frames, finds the index of the target marker name, scans every
    thread with a map from depth to the latest marker at that depth, counts
    the caller of every occurrence of the target and writes one report line
    per caller. */
module Callers {
  import opened Text
  import opened Capture
  import opened Profile
  import opened Ingest

  // ---------------------------------------------------------------------
  // Specification of the scan

  /** The latest marker at `depth` among `ms`: what `callHierarchy[depth]`
      holds after visiting `ms` (line 84-91). */
  function LastAt(ms: seq<Marker>, depth: int): (r: Option<Marker>)
    ensures r.Some? ==> r.value in ms && r.value.depth == depth
    ensures r.None? ==> forall i :: 0 <= i < |ms| ==> ms[i].depth != depth
    ensures r.Some? ==> exists i :: 0 <= i < |ms| && ms[i] == r.value && forall j :: i < j < |ms| ==> ms[j].depth != depth
  {
    if ms == [] then None
    else if ms[|ms| - 1].depth == depth then Some(ms[|ms| - 1])
    else LastAt(ms[..|ms| - 1], depth)
  }

  /** The caller name index of every occurrence of `target` in one thread
      that has a marker recorded one level up, in order (lines 93-107). */
  function ThreadCallers(ms: seq<Marker>, target: int): seq<nat> {
    if ms == [] then []
    else
      var n := |ms| - 1;
      ThreadCallers(ms[..n], target) +
        if ms[n].nameIndex == target then
          match LastAt(ms[..n], ms[n].depth - 1)
          case Some(caller) => [caller.nameIndex]
          case None => []
        else []
  }

  function FrameCallers(threads: seq<Thread>, target: int): seq<nat> {
    if threads == [] then []
    else FrameCallers(threads[..|threads| - 1], target) + ThreadCallers(threads[|threads| - 1].markers, target)
  }

  function Callers(frames: seq<Frame>, target: int): seq<nat> {
    if frames == [] then []
    else Callers(frames[..|frames| - 1], target) + FrameCallers(frames[|frames| - 1].threads, target)
  }

  /** `callCounts[k] = count + 1`, or `callCounts.Add(k, 1)` (lines 98-105). */
  function Inc(m: map<nat, nat>, k: nat): (r: map<nat, nat>)
    ensures k in r && r[k] == (if k in m then m[k] else 0) + 1
    ensures r.Keys == m.Keys + {k}
    ensures forall j :: j in m && j != k ==> r[j] == m[j]
  {
    m[k := (if k in m then m[k] else 0) + 1]
  }

  /** The counts after recording every caller of `xs` into `m`. */
  function Tally(m: map<nat, nat>, xs: seq<nat>): map<nat, nat> {
    if xs == [] then m else Inc(Tally(m, xs[..|xs| - 1]), xs[|xs| - 1])
  }

  // ---------------------------------------------------------------------
  // Properties of the aggregation

  lemma {:induction false} TallyAppend(m: map<nat, nat>, a: seq<nat>, b: seq<nat>)
    ensures Tally(m, a + b) == Tally(Tally(m, a), b)
    decreases |b|
  {
    if b == [] {
      assert a + b == a;
    } else {
      var n := |b| - 1;
      assert (a + b)[..|a + b| - 1] == a + b[..n];
      assert (a + b)[|a + b| - 1] == b[n];
      TallyAppend(m, a, b[..n]);
    }
  }

  /** Counting from an empty map gives every caller the number of
      occurrences it was found for, and nothing else. */
  lemma {:induction false} TallyCounts(xs: seq<nat>)
    ensures forall k :: k in Tally(map[], xs) <==> k in multiset(xs)
    ensures forall k :: k in Tally(map[], xs) ==> Tally(map[], xs)[k] == multiset(xs)[k]
    decreases |xs|
  {
    if xs != [] {
      var n := |xs| - 1;
      TallyCounts(xs[..n]);
      assert xs == xs[..n] + [xs[n]];
      assert multiset(xs) == multiset(xs[..n]) + multiset{xs[n]};
    }
  }

  /** The sum of the counts of a map. */
  ghost function Sum(m: map<nat, nat>): nat
    decreases |m.Keys|
  {
    if m.Keys == {} then 0
    else
      var k :| k in m.Keys;
      m[k] + Sum(m - {k})
  }

  lemma {:induction false} SumRemove(m: map<nat, nat>, k: nat)
    requires k in m
    ensures Sum(m) == m[k] + Sum(m - {k})
    decreases |m.Keys|
  {
    var j :| j in m.Keys && Sum(m) == m[j] + Sum(m - {j});
    if j != k {
      var mj, mk := m - {j}, m - {k};
      assert (mj - {k}).Keys == (mk - {j}).Keys;
      assert mj - {k} == mk - {j};
      assert |mj.Keys| < |m.Keys| by { assert mj.Keys == m.Keys - {j}; }
      assert |mk.Keys| < |m.Keys| by { assert mk.Keys == m.Keys - {k}; }
      SumRemove(mj, k);
      SumRemove(mk, j);
    }
  }

  lemma SumInc(m: map<nat, nat>, k: nat)
    ensures Sum(Inc(m, k)) == Sum(m) + 1
  {
    var r := Inc(m, k);
    SumRemove(r, k);
    assert r - {k} == m - {k};
    if k in m {
      SumRemove(m, k);
    } else {
      assert m - {k} == m;
    }
  }

  /** Every recorded occurrence adds exactly one to the counts: the counts
      sum to the number of target occurrences that had a caller. */
  lemma {:induction false} SumTally(m: map<nat, nat>, xs: seq<nat>)
    ensures Sum(Tally(m, xs)) == Sum(m) + |xs|
    decreases |xs|
  {
    if xs != [] {
      SumTally(m, xs[..|xs| - 1]);
      SumInc(Tally(m, xs[..|xs| - 1]), xs[|xs| - 1]);
    }
  }

  lemma {:induction false} ThreadCallersOfMissingTarget(ms: seq<Marker>, target: int)
    requires target < 0
    ensures ThreadCallers(ms, target) == []
    decreases |ms|
  {
    if ms != [] {
      ThreadCallersOfMissingTarget(ms[..|ms| - 1], target);
    }
  }

  lemma {:induction false} FrameCallersOfMissingTarget(threads: seq<Thread>, target: int)
    requires target < 0
    ensures FrameCallers(threads, target) == []
    decreases |threads|
  {
    if threads != [] {
      FrameCallersOfMissingTarget(threads[..|threads| - 1], target);
      ThreadCallersOfMissingTarget(threads[|threads| - 1].markers, target);
    }
  }

  /** A target index of -1 matches no marker: nothing is counted. */
  lemma {:induction false} CallersOfMissingTarget(frames: seq<Frame>, target: int)
    requires target < 0
    ensures Callers(frames, target) == []
    decreases |frames|
  {
    if frames != [] {
      CallersOfMissingTarget(frames[..|frames| - 1], target);
      FrameCallersOfMissingTarget(frames[|frames| - 1].threads, target);
    }
  }

  lemma {:induction false} ThreadCallersInRange(ms: seq<Marker>, target: int, n: nat)
    requires MarkersWellFormed(ms, n)
    ensures forall k :: k in ThreadCallers(ms, target) ==> k < n
    decreases |ms|
  {
    if ms != [] {
      assert MarkersWellFormed(ms[..|ms| - 1], n) by {
        forall m | m in ms[..|ms| - 1] ensures m in ms { }
      }
      ThreadCallersInRange(ms[..|ms| - 1], target, n);
    }
  }

  lemma {:induction false} FrameCallersInRange(threads: seq<Thread>, target: int, n: nat, nt: nat)
    requires forall t :: t in threads ==> ThreadWellFormed(t, n, nt)
    ensures forall k :: k in FrameCallers(threads, target) ==> k < n
    decreases |threads|
  {
    if threads != [] {
      var last := threads[|threads| - 1];
      assert last in threads;
      assert forall t :: t in threads[..|threads| - 1] ==> t in threads;
      FrameCallersInRange(threads[..|threads| - 1], target, n, nt);
      ThreadCallersInRange(last.markers, target, n);
    }
  }

  /** Every caller is a marker name of the trace, so the report can look it
      up. */
  lemma {:induction false} CallersInRange(frames: seq<Frame>, target: int, n: nat, nt: nat)
    requires FramesWellFormed(frames, n, nt)
    ensures forall k :: k in Callers(frames, target) ==> k < n
    decreases |frames|
  {
    if frames != [] {
      var last := frames[|frames| - 1];
      assert last in frames;
      assert forall f :: f in frames[..|frames| - 1] ==> f in frames;
      CallersInRange(frames[..|frames| - 1], target, n, nt);
      FrameCallersInRange(last.threads, target, n, nt);
    }
  }

  /** The caller of an occurrence is the parent marker one level up; an
      occurrence at depth 1 has none and is not counted. */
  lemma CallerExamples(a: nat, b: nat)
    requires a != b
    ensures ThreadCallers([Marker(a, 1), Marker(b, 2)], b) == [a]
    ensures ThreadCallers([Marker(b, 1)], b) == []
  {
    var ms := [Marker(a, 1), Marker(b, 2)];
    assert ms[..1] == [Marker(a, 1)];
    assert [Marker(a, 1)][..0] == [];
    assert ThreadCallers(ms[..1], b) == [];
    assert LastAt(ms[..1], 1) == Some(Marker(a, 1));
    assert [Marker(b, 1)][..0] == [];
  }

  lemma LastAtSnoc(ms: seq<Marker>, k: nat)
    requires k < |ms|
    ensures forall d :: LastAt(ms[..k + 1], d) == if ms[k].depth == d then Some(ms[k]) else LastAt(ms[..k], d)
  {
    var p := ms[..k + 1];
    assert p[..|p| - 1] == ms[..k] && p[|p| - 1] == ms[k];
    forall d ensures LastAt(p, d) == if ms[k].depth == d then Some(ms[k]) else LastAt(ms[..k], d) {
      assert p != [];
    }
  }

  /** What `callHierarchy[depth]` yields, as an option. */
  function Lookup(h: map<int, Marker>, depth: int): Option<Marker> {
    if depth in h then Some(h[depth]) else None
  }

  /** `h` holds, for every depth, the latest marker of `ms` at that depth. */
  ghost predicate Mirrors(ms: seq<Marker>, h: map<int, Marker>) {
    forall d :: LastAt(ms, d) == Lookup(h, d)
  }

  /** Recording marker `k` at its depth keeps the map in step with the
      markers visited. */
  lemma MirrorsSnoc(ms: seq<Marker>, k: nat, h: map<int, Marker>)
    requires k < |ms| && Mirrors(ms[..k], h)
    ensures Mirrors(ms[..k + 1], h[ms[k].depth := ms[k]])
  {
    LastAtSnoc(ms, k);
    var h' := h[ms[k].depth := ms[k]];
    forall d ensures LastAt(ms[..k + 1], d) == Lookup(h', d) {
      assert LastAt(ms[..k], d) == Lookup(h, d);
    }
  }

  /** Counting the caller of marker `k`, when it is the target and has one,
      keeps the counts equal to the tally of the callers found so far. */
  lemma TallySnoc(start: map<nat, nat>, ms: seq<Marker>, k: nat, target: int, counts: map<nat, nat>, up: Option<Marker>)
    requires k < |ms| && up == LastAt(ms[..k], ms[k].depth - 1)
    requires counts == Tally(start, ThreadCallers(ms[..k], target))
    ensures (if ms[k].nameIndex == target && up.Some? then Inc(counts, up.value.nameIndex) else counts)
            == Tally(start, ThreadCallers(ms[..k + 1], target))
  {
    ThreadCallersSnoc(ms, k, target);
    var prefix := ThreadCallers(ms[..k], target);
    if ms[k].nameIndex == target && up.Some? {
      TallyAppend(start, prefix, [up.value.nameIndex]);
      assert [up.value.nameIndex][..0] == [];
    } else {
      assert prefix + [] == prefix;
    }
  }

  /** One more marker: the caller it contributes, if any, is the latest
      marker one level up among those before it. */
  lemma ThreadCallersSnoc(ms: seq<Marker>, k: nat, target: int)
    requires k < |ms|
    ensures ThreadCallers(ms[..k + 1], target) ==
            ThreadCallers(ms[..k], target) +
              if ms[k].nameIndex == target && LastAt(ms[..k], ms[k].depth - 1).Some?
              then [LastAt(ms[..k], ms[k].depth - 1).value.nameIndex] else []
  {
    assert ms[..k + 1][..k] == ms[..k];
  }

  // ---------------------------------------------------------------------
  // The report (lines 114-123)

  /** The report rows for the callers in `order`: resolved name and count. */
  function ReportRows(markerNames: seq<string>, counts: map<nat, nat>, order: seq<nat>): (rows: seq<(string, string)>)
    requires forall i :: 0 <= i < |order| ==> order[i] in counts && order[i] < |markerNames|
    ensures |rows| == |order|
    ensures forall i :: 0 <= i < |order| ==> rows[i] == (markerNames[order[i]], NatToString(counts[order[i]]))
  {
    seq(|order|, i requires 0 <= i < |order| => (markerNames[order[i]], NatToString(counts[order[i]])))
  }

  /** `order` lists every key of `counts` exactly once. */
  ghost predicate Enumerates(order: seq<nat>, counts: map<nat, nat>) {
    && NoDup(order)
    && (forall i :: 0 <= i < |order| ==> order[i] in counts)
    && (forall k :: k in counts ==> k in order)
  }

  lemma ReportRowsQuoteFree(markerNames: seq<string>, counts: map<nat, nat>, order: seq<nat>)
    requires forall i :: 0 <= i < |order| ==> order[i] in counts && order[i] < |markerNames|
    requires forall k :: k in counts && k < |markerNames| ==> '"' !in markerNames[k]
    ensures QuoteFree(ReportRows(markerNames, counts, order))
  {
    var rows := ReportRows(markerNames, counts, order);
    forall i | 0 <= i < |rows| ensures '"' !in rows[i].0 && '"' !in rows[i].1 {
      var d := NatToString(counts[order[i]]);
      assert forall j :: 0 <= j < |d| ==> IsDigit(d[j]);
    }
  }

  /** Reading the report back gives one row per caller, holding the
      caller's name and its count, whatever order the map enumerates in. */
  lemma ReportRoundTrip(markerNames: seq<string>, counts: map<nat, nat>, order: seq<nat>)
    requires Enumerates(order, counts)
    requires forall k :: k in counts ==> k < |markerNames| && '"' !in markerNames[k] && counts[k] <= Int32Max
    ensures var rows := ReportRows(markerNames, counts, order);
            ParseCsv(CsvReport(rows)) == Some(rows) &&
            |rows| == |counts.Keys| &&
            forall i :: 0 <= i < |rows| ==>
              rows[i].0 == markerNames[order[i]] && ParseInt(rows[i].1) == Some(counts[order[i]])
  {
    var rows := ReportRows(markerNames, counts, order);
    ReportRowsQuoteFree(markerNames, counts, order);
    CsvReportRoundTrip(rows);
    forall i | 0 <= i < |rows| ensures ParseInt(rows[i].1) == Some(counts[order[i]]) {
      ParseIntOfNatToString(counts[order[i]]);
    }
    NoDupCard(order, counts);
  }

  lemma {:induction false} NoDupCard(order: seq<nat>, counts: map<nat, nat>)
    requires Enumerates(order, counts)
    ensures |order| == |counts.Keys|
    decreases |order|
  {
    if order == [] {
      assert counts.Keys == {};
    } else {
      var n := |order| - 1;
      var rest := counts - {order[n]};
      assert Enumerates(order[..n], rest) by {
        forall i | 0 <= i < n ensures order[..n][i] in rest {
          assert order[i] != order[n];
        }
        forall k | k in rest ensures k in order[..n] {
          var j :| 0 <= j < |order| && order[j] == k;
          assert j != n;
          assert order[..n][j] == k;
        }
      }
      NoDupCard(order[..n], rest);
      assert rest.Keys == counts.Keys - {order[n]};
    }
  }

  // ---------------------------------------------------------------------
  // Frame range (lines 126-142)

  /** `GetFrameRangeFromProfiler`: with a profiler window, the driver's
      first and last frame indices moved to one-based, the last one
      dropped when there are at least two; without one, frame 1 to 1. */
  function GetFrameRangeFromProfiler(profilerWindow: bool, firstFrameIndex: int, lastFrameIndex: int): (r: (bool, int, int))
    ensures r.0 == profilerWindow
    ensures !profilerWindow ==> r.1 == 1 && r.2 == 1
    ensures profilerWindow ==> r.1 == firstFrameIndex + 1 && r.2 <= lastFrameIndex + 1
    ensures profilerWindow && firstFrameIndex < lastFrameIndex ==> r.2 == lastFrameIndex
    ensures profilerWindow && firstFrameIndex >= lastFrameIndex ==> r.2 == lastFrameIndex + 1
  {
    if profilerWindow then
      var first := 1 + firstFrameIndex;
      var last := 1 + lastFrameIndex;
      if first < last then (true, first, last - 1) else (true, first, last)
    else (false, 1, 1)
  }

  /** The range `PullFromProfiler` reads, `first - 1 .. last + 1`, starts at
      the driver's first frame and reaches one frame past its last frame
      (two when the driver has at most one frame): every captured frame is
      read, plus frames the driver has no data for. */
  lemma PulledRange(firstFrameIndex: int, lastFrameIndex: int)
    ensures var (_, first, last) := GetFrameRangeFromProfiler(true, firstFrameIndex, lastFrameIndex);
            first - 1 == firstFrameIndex &&
            last + 1 == lastFrameIndex + (if firstFrameIndex < lastFrameIndex then 1 else 2)
  {
  }

  /** The trace `PullFromProfiler` builds from a capture when the profiler
      window is open (lines 55-57). */
  function Pulled(cap: Capture): ReadState {
    var (_, first, last) := GetFrameRangeFromProfiler(true, cap.firstFrameIndex, cap.lastFrameIndex);
    ReadFrames(Start, cap, first - 1, last + 1)
  }

  // ---------------------------------------------------------------------
  // The window

  /** Index of the first `name` in `names`, or -1 (lines 59-69). */
  function TargetIndex(names: seq<string>, name: string): (r: int)
    ensures r == -1 <==> name !in names
    ensures r >= 0 ==> r < |names| && names[r] == name && forall j :: 0 <= j < r ==> names[j] != name
  {
    var k := Find(names, name);
    if k < |names| then k else -1
  }

  class FindCallsFromWindow {
    var checkMarkerName: string
    var callCounts: map<nat, nat>

    constructor ()
      ensures checkMarkerName == "GC.Alloc" && callCounts == map[]
    {
      checkMarkerName := "GC.Alloc";
      callCounts := map[];
    }

    /** Lines 59-69: the index of the first marker name equal to
        `checkMarkerName`, or -1, and the loop counter `curIndex`, which is
        never negative. */
    method FindNameIndex(markerNames: seq<string>) returns (nameIndex: int, curIndex: int)
      ensures nameIndex == TargetIndex(markerNames, checkMarkerName)
      ensures curIndex == if nameIndex >= 0 then nameIndex else |markerNames|
      ensures curIndex >= 0
    {
      nameIndex := -1;
      curIndex := 0;
      while curIndex < |markerNames|
        invariant 0 <= curIndex <= |markerNames|
        invariant checkMarkerName !in markerNames[..curIndex]
      {
        if markerNames[curIndex] == checkMarkerName {
          nameIndex := curIndex;
          assert markerNames[..curIndex + 1] == markerNames[..curIndex] + [checkMarkerName];
          return;
        }
        assert markerNames[..curIndex + 1] == markerNames[..curIndex] + [markerNames[curIndex]];
        curIndex := curIndex + 1;
      }
      assert markerNames[..curIndex] == markerNames;
    }

    /** Lines 84-107, one marker: record it as the latest at its depth and,
        when it is the target, count the marker one level up, if any. */
    method Visit(markers: seq<Marker>, k: nat, nameIndex: int, callHierarchy: map<int, Marker>, ghost start: map<nat, nat>)
      returns (hierarchy: map<int, Marker>)
      requires k < |markers|
      requires Mirrors(markers[..k], callHierarchy)
      requires callCounts == Tally(start, ThreadCallers(markers[..k], nameIndex))
      modifies this`callCounts
      ensures Mirrors(markers[..k + 1], hierarchy)
      ensures callCounts == Tally(start, ThreadCallers(markers[..k + 1], nameIndex))
    {
      var marker := markers[k];
      assert LastAt(markers[..k], marker.depth - 1) == Lookup(callHierarchy, marker.depth - 1);
      TallySnoc(start, markers, k, nameIndex, callCounts, Lookup(callHierarchy, marker.depth - 1));
      MirrorsSnoc(markers, k, callHierarchy);
      hierarchy := callHierarchy[marker.depth := marker];
      if marker.nameIndex == nameIndex && marker.depth - 1 in hierarchy {
        callCounts := Inc(callCounts, hierarchy[marker.depth - 1].nameIndex);
      }
    }

    /** Lines 81-108 for one thread: `callHierarchy` maps each depth to the
        latest marker seen there; an occurrence of the target counts its
        caller one level up. */
    method CountThread(markers: seq<Marker>, nameIndex: int)
      modifies this`callCounts
      ensures callCounts == Tally(old(callCounts), ThreadCallers(markers, nameIndex))
    {
      var callHierarchy: map<int, Marker> := map[];
      ghost var start := callCounts;
      var k := 0;
      while k < |markers|
        invariant 0 <= k <= |markers|
        invariant Mirrors(markers[..k], callHierarchy)
        invariant callCounts == Tally(start, ThreadCallers(markers[..k], nameIndex))
      {
        callHierarchy := Visit(markers, k, nameIndex, callHierarchy, start);
        k := k + 1;
      }
      assert markers[..k] == markers;
    }

    /** Lines 77-111: the scan of every thread of every frame. */
    method CountCalls(frames: seq<Frame>, nameIndex: int)
      modifies this`callCounts
      ensures callCounts == Tally(old(callCounts), Callers(frames, nameIndex))
    {
      ghost var start := callCounts;
      var i := 0;
      while i < |frames|
        invariant 0 <= i <= |frames|
        invariant callCounts == Tally(start, Callers(frames[..i], nameIndex))
      {
        var threads := frames[i].threads;
        ghost var frameStart := callCounts;
        var j := 0;
        while j < |threads|
          invariant 0 <= j <= |threads|
          invariant callCounts == Tally(frameStart, FrameCallers(threads[..j], nameIndex))
        {
          ghost var before := callCounts;
          CountThread(threads[j].markers, nameIndex);
          assert threads[..j + 1][..j] == threads[..j] && threads[..j + 1][j] == threads[j];
          TallyAppend(frameStart, FrameCallers(threads[..j], nameIndex), ThreadCallers(threads[j].markers, nameIndex));
          j := j + 1;
        }
        assert threads[..j] == threads;
        assert frames[..i + 1][..i] == frames[..i] && frames[..i + 1][i] == frames[i];
        TallyAppend(start, Callers(frames[..i], nameIndex), FrameCallers(threads, nameIndex));
        i := i + 1;
      }
      assert frames[..i] == frames;
    }

    /** Lines 114-118: one line per entry of `callCounts`, in the map's
        enumeration order, which `order` records. */
    method Report(markerNames: seq<string>) returns (output: string, ghost order: seq<nat>)
      requires forall k :: k in callCounts ==> k < |markerNames|
      ensures Enumerates(order, callCounts)
      ensures output == CsvReport(ReportRows(markerNames, callCounts, order))
    {
      output := "";
      order := [];
      var keys := callCounts.Keys;
      while keys != {}
        invariant keys <= callCounts.Keys
        invariant NoDup(order)
        invariant forall i :: 0 <= i < |order| ==> order[i] in callCounts && order[i] !in keys
        invariant forall k :: k in callCounts && k !in keys ==> k in order
        invariant output == CsvReport(ReportRows(markerNames, callCounts, order))
        decreases keys
      {
        var key :| key in keys;
        var row := (markerNames[key], NatToString(callCounts[key]));
        ghost var rows := ReportRows(markerNames, callCounts, order);
        output := output + CsvLine(row.0, row.1);
        order := order + [key];
        assert ReportRows(markerNames, callCounts, order) == rows + [row];
        keys := keys - {key};
      }
    }

    /** Lines 76-118 on a well-formed trace, starting from cleared counts:
        the callers of the target are counted and listed, one line each. */
    method CountAndReport(markerNames: seq<string>, frames: seq<Frame>, nThreadNames: nat, nameIndex: int)
      returns (output: string, ghost order: seq<nat>)
      requires callCounts == map[] && FramesWellFormed(frames, |markerNames|, nThreadNames)
      modifies this`callCounts
      ensures callCounts == Tally(map[], Callers(frames, nameIndex))
      ensures forall k :: k in callCounts ==> k < |markerNames|
      ensures Enumerates(order, callCounts)
      ensures output == CsvReport(ReportRows(markerNames, callCounts, order))
      ensures nameIndex < 0 ==> output == ""
    {
      CountCalls(frames, nameIndex);
      ghost var callers := Callers(frames, nameIndex);
      CallersInRange(frames, nameIndex, |markerNames|, nThreadNames);
      TallyCounts(callers);
      forall k | k in callCounts ensures k < |markerNames| {
        assert k in multiset(callers);
        assert k in callers;
      }
      output, order := Report(markerNames);
      if nameIndex < 0 {
        CallersOfMissingTarget(frames, nameIndex);
        NoDupCard(order, callCounts);
      }
    }

    /** Lines 55-57: the window's frame range, widened by one frame on each
        side, read into a trace; the names, frames and thread-name count
        are what the rest of the run uses of it. */
    method ReadPulled(cap: Capture) returns (markerNames: seq<string>, frames: seq<Frame>, nThreadNames: nat)
      ensures markerNames == Pulled(cap).markerNames && frames == Pulled(cap).frames
      ensures FramesWellFormed(frames, |markerNames|, nThreadNames)
    {
      var (_, first, last) := GetFrameRangeFromProfiler(true, cap.firstFrameIndex, cap.lastFrameIndex);
      var profileData, _ := GetDataRaw(cap, first - 1, last + 1);
      markerNames, frames, nThreadNames := profileData.markerNames, profileData.frames, |profileData.threadNames|;
    }

    /** `PullFromProfiler`: the whole run. Without a profiler window nothing
        is read and nothing is written. Otherwise the frames of the clipped
        range widened by one on each side are read, the callers of
        `checkMarkerName` are counted and the report is returned as the text
        written to `callinfo.csv`. The guard of line 71 tests `curIndex`,
        which is never -1, so a target name missing from the trace is not
        caught: the run goes on and writes an empty report. */
    method PullFromProfiler(profilerWindow: bool, cap: Capture) returns (written: Option<string>, ghost order: seq<nat>)
      modifies this`callCounts
      ensures !profilerWindow ==> written == None && callCounts == map[]
      ensures profilerWindow ==>
                var r := Pulled(cap);
                && callCounts == Tally(map[], Callers(r.frames, TargetIndex(r.markerNames, checkMarkerName)))
                && (forall k :: k in callCounts ==> k < |r.markerNames|)
                && Enumerates(order, callCounts)
                && written == Some(CsvReport(ReportRows(r.markerNames, callCounts, order)))
      ensures profilerWindow && checkMarkerName !in Pulled(cap).markerNames ==> written == Some("")
    {
      callCounts := map[];
      order := [];
      if !profilerWindow {
        return None, order;
      }
      var markerNames, frames, nThreadNames := ReadPulled(cap);
      var nameIndex, curIndex := FindNameIndex(markerNames);
      if curIndex == -1 {
        return None, order;
      }
      var output;
      output, order := CountAndReport(markerNames, frames, nThreadNames, nameIndex);
      written := Some(output);
    }

    /** `PullFromProfiler` with the missing-target guard testing `nameIndex`,
        as the early return evidently intends: when the profile holds no
        marker of the checked name nothing is written. Otherwise it behaves
        as the method above. */
    method PullFromProfilerIntended(profilerWindow: bool, cap: Capture) returns (written: Option<string>, ghost order: seq<nat>)
      modifies this`callCounts
      ensures !profilerWindow ==> written == None && callCounts == map[]
      ensures profilerWindow && checkMarkerName !in Pulled(cap).markerNames ==> written == None && callCounts == map[]
      ensures profilerWindow && checkMarkerName in Pulled(cap).markerNames ==>
                var r := Pulled(cap);
                && callCounts == Tally(map[], Callers(r.frames, TargetIndex(r.markerNames, checkMarkerName)))
                && (forall k :: k in callCounts ==> k < |r.markerNames|)
                && Enumerates(order, callCounts)
                && written == Some(CsvReport(ReportRows(r.markerNames, callCounts, order)))
    {
      callCounts := map[];
      order := [];
      if !profilerWindow {
        return None, order;
      }
      var markerNames, frames, nThreadNames := ReadPulled(cap);
      var nameIndex, curIndex := FindNameIndex(markerNames);
      if nameIndex == -1 {
        return None, order;
      }
      var output;
      output, order := CountAndReport(markerNames, frames, nThreadNames, nameIndex);
      written := Some(output);
    }
  }
}
