/** `GetDataRaw` (FindCallsFrom.cs, lines 159-300): reads every thread of
    every frame of a range from the profiler into a `ProfileData`, giving
    each thread a stable display name, each marker id a cached name index
    and each kept sample its reconstructed depth. */
module Ingest {
  import opened Text
  import opened Depth
  import opened Capture
  import opened Profile

  /** What `Debug.Log` would print, as data. */
  datatype LogEntry =
    | InvalidMarkerTime(markerName: string, frameIndex: int, threadName: string)
    | UnnamedThread(frameIndex: int)

  // ---------------------------------------------------------------------
  // Thread names (lines 169-170, 178, 198-223)

  /** Stand-in for `ProfileData.GetThreadNameWithGroup`, which is not part
      of this model: the group, a dot and the thread name. */
  function GetThreadNameWithGroup(threadName: string, groupName: string): string {
    if groupName == "" then threadName else groupName + "." + threadName
  }

  /** Stand-in for `ProfileData.ThreadNameWithIndex`, which is not part of
      this model: the occurrence index, a colon and the name. */
  function ThreadNameWithIndex(index: nat, threadName: string): string {
    NatToString(index) + ":" + threadName
  }

  /** Different (index, name) pairs give different display names. */
  lemma ThreadNameWithIndexInjective(i: nat, a: string, j: nat, b: string)
    requires ThreadNameWithIndex(i, a) == ThreadNameWithIndex(j, b)
    ensures i == j && a == b
  {
    var s := ThreadNameWithIndex(i, a);
    var di, dj := NatToString(i), NatToString(j);
    assert ':' !in di && ':' !in dj by {
      assert forall k :: 0 <= k < |di| ==> IsDigit(di[k]);
      assert forall k :: 0 <= k < |dj| ==> IsDigit(dj[k]);
    }
    assert s == di + [':'] + a;
    assert s == dj + [':'] + b;
    IndexOfAfter(di, ':', a);
    IndexOfAfter(dj, ':', b);
    assert di == s[..|di|] == dj;
    assert a == s[|di| + 1..] == b;
    DigitsValueOfNatToString(i);
    DigitsValueOfNatToString(j);
  }

  function Get(m: map<string, nat>, k: string): nat {
    if k in m then m[k] else 0
  }

  /** The display name of a thread and the two tables it updates:
      `threadNameCount` (occurrences of a composite name in this frame) and
      `threadIdMapping` (display name of every thread id seen in the run).
      `name` is None when the thread is skipped as corrupted. */
  datatype Naming = Naming(name: Option<string>, threadNameCount: map<string, nat>, threadIdMapping: map<nat, string>)

  /** Lines 198-223. A thread id seen before keeps its display name and
      changes nothing; an unseen thread with a blank name is skipped; an
      unseen named thread gets its composite name with the next occurrence
      index of that name in this frame, and is remembered. */
  function ResolveThreadName(threadNameCount: map<string, nat>, threadIdMapping: map<nat, string>, rec: ThreadRecord): (r: Naming)
    ensures rec.threadId in threadIdMapping ==>
              r == Naming(Some(threadIdMapping[rec.threadId]), threadNameCount, threadIdMapping)
    ensures r.name.None? <==> rec.threadId !in threadIdMapping && IsBlank(rec.threadName)
    ensures r.name.None? ==> r.threadNameCount == threadNameCount && r.threadIdMapping == threadIdMapping
    ensures rec.threadId !in threadIdMapping && r.name.Some? ==>
              var c := GetThreadNameWithGroup(rec.threadName, rec.threadGroupName);
              && r.threadNameCount == threadNameCount[c := Get(threadNameCount, c) + 1]
              && r.name == Some(ThreadNameWithIndex(Get(threadNameCount, c) + 1, c))
              && r.threadIdMapping == threadIdMapping[rec.threadId := r.name.value]
  {
    if rec.threadId in threadIdMapping then
      Naming(Some(threadIdMapping[rec.threadId]), threadNameCount, threadIdMapping)
    else if TrimsToEmpty(rec.threadName) then
      Naming(None, threadNameCount, threadIdMapping)
    else
      var threadName := GetThreadNameWithGroup(rec.threadName, rec.threadGroupName);
      var nameCount := Get(threadNameCount, threadName);
      var counts := threadNameCount[threadName := nameCount + 1];
      var threadNameWithIndex := ThreadNameWithIndex(counts[threadName], threadName);
      Naming(Some(threadNameWithIndex), counts, threadIdMapping[rec.threadId := threadNameWithIndex])
  }

  /** Within one frame (the counts only grew since the first thread was
      named), two threads seen for the first time get different display
      names, whether or not their composite names agree. */
  lemma NewThreadsGetDistinctNames(
    counts1: map<string, nat>, mapping1: map<nat, string>, rec1: ThreadRecord,
    counts2: map<string, nat>, mapping2: map<nat, string>, rec2: ThreadRecord)
    requires rec1.threadId !in mapping1 && ResolveThreadName(counts1, mapping1, rec1).name.Some?
    requires var counts := ResolveThreadName(counts1, mapping1, rec1).threadNameCount;
             forall c :: c in counts ==> c in counts2 && counts2[c] >= counts[c]
    requires rec2.threadId !in mapping2 && ResolveThreadName(counts2, mapping2, rec2).name.Some?
    ensures ResolveThreadName(counts2, mapping2, rec2).name != ResolveThreadName(counts1, mapping1, rec1).name
  {
    var r1 := ResolveThreadName(counts1, mapping1, rec1);
    var r2 := ResolveThreadName(counts2, mapping2, rec2);
    var c1 := GetThreadNameWithGroup(rec1.threadName, rec1.threadGroupName);
    var c2 := GetThreadNameWithGroup(rec2.threadName, rec2.threadGroupName);
    if r1.name == r2.name {
      ThreadNameWithIndexInjective(Get(counts1, c1) + 1, c1, Get(counts2, c2) + 1, c2);
    }
  }

  /** The first unseen named thread of its composite name in a frame (in
      particular the first one after the counts are reset) gets occurrence
      index 1. */
  lemma FirstInFrame(threadNameCount: map<string, nat>, threadIdMapping: map<nat, string>, rec: ThreadRecord)
    requires rec.threadId !in threadIdMapping && !IsBlank(rec.threadName)
    requires GetThreadNameWithGroup(rec.threadName, rec.threadGroupName) !in threadNameCount
    ensures var r := ResolveThreadName(threadNameCount, threadIdMapping, rec);
            var n := ThreadNameWithIndex(1, GetThreadNameWithGroup(rec.threadName, rec.threadGroupName));
            r.name == Some(n) && r.threadIdMapping == threadIdMapping[rec.threadId := n]
  {
    var c := GetThreadNameWithGroup(rec.threadName, rec.threadGroupName);
    assert Get(threadNameCount, c) == 0;
  }

  /** The per-frame counts are reset and only count threads not seen
      before, so a thread first named in an earlier frame and a new thread
      with the same composite name share a display name in a later frame:
      thread `id1` is "1:<name>" in the first frame, and in the next frame
      both thread `id1` and a new thread `id2` of the same name are
      "1:<name>". */
  lemma MappedAndNewThreadCanShareName(name: string, group: string, id1: nat, id2: nat)
    requires !IsBlank(name) && id1 != id2
    ensures var rec1 := ThreadRecord(true, id1, name, group, 0, 0, []);
            var rec2 := ThreadRecord(true, id2, name, group, 0, 0, []);
            var first := ResolveThreadName(map[], map[], rec1);
            var again := ResolveThreadName(map[], first.threadIdMapping, rec1);
            var other := ResolveThreadName(again.threadNameCount, again.threadIdMapping, rec2);
            && again.name == other.name
            && again.name == Some(ThreadNameWithIndex(1, GetThreadNameWithGroup(name, group)))
  {
    var rec1 := ThreadRecord(true, id1, name, group, 0, 0, []);
    var rec2 := ThreadRecord(true, id2, name, group, 0, 0, []);
    var n := ThreadNameWithIndex(1, GetThreadNameWithGroup(name, group));
    FirstInFrame(map[], map[], rec1);
    var m := ResolveThreadName(map[], map[], rec1).threadIdMapping;
    assert m == map[id1 := n];
    assert id2 !in m;
    FirstInFrame(map[], m, rec2);
  }

  // ---------------------------------------------------------------------
  // Marker names (lines 256-267)

  /** `markerNames` together with `markerIdToNameIndex`. */
  datatype Cache = Cache(names: seq<string>, ids: map<int, nat>)

  predicate CacheValid(c: Cache) {
    NoDup(c.names) && forall id :: id in c.ids ==> c.ids[id] < |c.names|
  }

  /** `c'` is `c` with names appended and ids added, nothing changed. */
  predicate Extends(c': Cache, c: Cache) {
    |c.names| <= |c'.names| && c'.names[..|c.names|] == c.names &&
    forall id :: id in c.ids ==> id in c'.ids && c'.ids[id] == c.ids[id]
  }

  lemma ExtendsTrans(a: Cache, b: Cache, c: Cache)
    requires Extends(a, b) && Extends(b, c)
    ensures Extends(a, c)
  {
    assert a.names[..|c.names|] == a.names[..|b.names|][..|c.names|];
  }

  /** The name index of a kept sample: the cached index of its marker id,
      or, the first time the id is seen, its name interned and cached. */
  function ResolveMarker(c: Cache, s: Sample): (r: (Cache, nat))
    ensures s.markerId in r.0.ids && r.1 == r.0.ids[s.markerId]
    ensures Extends(r.0, c)
    ensures r.0.ids.Keys == c.ids.Keys + {s.markerId}
    ensures CacheValid(c) ==> CacheValid(r.0)
    ensures s.markerId in c.ids ==> r.0 == c
    ensures s.markerId !in c.ids ==> r.1 < |r.0.names| && r.0.names[r.1] == s.name && r.0.names == Intern(c.names, s.name).0
  {
    if s.markerId in c.ids then (c, c.ids[s.markerId])
    else
      var (names, k) := Intern(c.names, s.name);
      assert names[..|c.names|] == c.names;
      (Cache(names, c.ids[s.markerId := k]), k)
  }

  // ---------------------------------------------------------------------
  // The samples of one thread (lines 231-288)

  predicate HasNegative(body: seq<Sample>) {
    exists i :: 0 <= i < |body| && body[i].negativeDuration
  }

  function FirstNegative(body: seq<Sample>): (k: nat)
    requires HasNegative(body)
    ensures k < |body| && body[k].negativeDuration
    ensures forall j :: 0 <= j < k ==> !body[j].negativeDuration
  {
    if body[0].negativeDuration then 0
    else
      assert HasNegative(body[1..]) by {
        var i :| 0 <= i < |body| && body[i].negativeDuration;
        assert body[1..][i - 1] == body[i];
      }
      1 + FirstNegative(body[1..])
  }

  /** The markers one thread's samples produce, and the cache after them:
      a sample with a negative duration is dropped, every other sample
      becomes a marker at one more than the depth stack's size. */
  function Collect(c: Cache, body: seq<Sample>): (r: (Cache, seq<Marker>))
    ensures Extends(r.0, c)
    ensures CacheValid(c) ==> CacheValid(r.0) && MarkersWellFormed(r.1, |r.0.names|)
    decreases |body|
  {
    if body == [] then (c, [])
    else
      var n := |body| - 1;
      var (c1, ms) := Collect(c, body[..n]);
      if body[n].negativeDuration then (c1, ms)
      else
        var (c2, nameIndex) := ResolveMarker(c1, body[n]);
        ExtendsTrans(c2, c1, c);
        (c2, ms + [Marker(nameIndex, |Replay([], Children(body[..n]))| + 1)])
  }

  /** The elements of `xs` at the positions of the kept samples. */
  function Kept<T>(xs: seq<T>, body: seq<Sample>): (r: seq<T>)
    requires |xs| == |body|
    ensures |r| <= |body|
  {
    if body == [] then []
    else
      var n := |body| - 1;
      Kept(xs[..n], body[..n]) + (if body[n].negativeDuration then [] else [xs[n]])
  }

  function MarkerDepths(ms: seq<Marker>): (r: seq<nat>)
    ensures |r| == |ms| && forall i :: 0 <= i < |ms| ==> r[i] == ms[i].depth
  {
    seq(|ms|, i requires 0 <= i < |ms| => ms[i].depth)
  }

  function MarkerIds(body: seq<Sample>): (r: seq<int>)
    ensures |r| == |body| && forall i :: 0 <= i < |body| ==> r[i] == body[i].markerId
  {
    seq(|body|, i requires 0 <= i < |body| => body[i].markerId)
  }

  lemma ChildrenSnoc(body: seq<Sample>)
    requires body != []
    ensures Children(body) == Children(body[..|body| - 1]) + [body[|body| - 1].childrenCount]
  {
  }

  /** A dropped sample still feeds the depth stack: the kept markers get
      exactly the depths the whole run of samples gives them, as if nothing
      had been dropped. */
  lemma {:induction false} DroppedSamplesKeepDepths(c: Cache, body: seq<Sample>)
    ensures MarkerDepths(Collect(c, body).1) == Kept(Depths(Children(body)), body)
    decreases |body|
  {
    if body != [] {
      var n := |body| - 1;
      DroppedSamplesKeepDepths(c, body[..n]);
      ChildrenSnoc(body);
      Snoc([], Children(body[..n]), body[n].childrenCount);
      var xs := Depths(Children(body));
      assert xs[..n] == Depths(Children(body[..n]));
    }
  }

  /** Without dropped samples, the markers' depths are the depths of the
      samples. */
  lemma NoDropAllDepths(c: Cache, body: seq<Sample>)
    requires !HasNegative(body)
    ensures MarkerDepths(Collect(c, body).1) == Depths(Children(body))
  {
    DroppedSamplesKeepDepths(c, body);
    KeptAll(Depths(Children(body)), body);
  }

  /** The first kept element is the first element, when the first sample
      is kept. */
  lemma {:induction false} KeptHead<T>(xs: seq<T>, body: seq<Sample>)
    requires |xs| == |body| && |body| > 0 && !body[0].negativeDuration
    ensures |Kept(xs, body)| > 0 && Kept(xs, body)[0] == xs[0]
    decreases |body|
  {
    var n := |body| - 1;
    if n == 0 {
      assert body[..n] == [];
    } else {
      KeptHead(xs[..n], body[..n]);
    }
  }

  /** A thread whose first sample after the placeholder is kept starts its
      markers at depth 1. */
  lemma FirstKeptAtDepthOne(c: Cache, body: seq<Sample>)
    requires |body| > 0 && !body[0].negativeDuration
    ensures |Collect(c, body).1| > 0 && Collect(c, body).1[0].depth == 1
  {
    DroppedSamplesKeepDepths(c, body);
    KeptHead(Depths(Children(body)), body);
  }

  /** A dropped first sample with children still opens a level: the first
      kept marker, its child, is at depth 2, not 1. */
  lemma DroppedParentDeepensFirstKept(c: Cache, a: Sample, b: Sample)
    requires a.negativeDuration && a.childrenCount > 0 && !b.negativeDuration
    ensures |Collect(c, [a, b]).1| == 1 && Collect(c, [a, b]).1[0].depth == 2
  {
    var body := [a, b];
    assert body[..1] == [a] && [a][..0] == [];
    assert Collect(c, [a]) == (c, []);
    assert Children([a]) == [a.childrenCount];
    assert Replay([], [a.childrenCount]) == [a.childrenCount] by {
      assert [a.childrenCount][1..] == [];
    }
  }

  lemma {:induction false} KeptAll<T>(xs: seq<T>, body: seq<Sample>)
    requires |xs| == |body| && !HasNegative(body)
    ensures Kept(xs, body) == xs
    decreases |body|
  {
    if body != [] {
      var n := |body| - 1;
      assert !HasNegative(body[..n]) by {
        forall i | 0 <= i < n ensures !body[..n][i].negativeDuration {
          assert body[..n][i] == body[i];
        }
      }
      KeptAll(xs[..n], body[..n]);
      assert xs[..n] + [xs[n]] == xs;
    }
  }

  /** Every marker carries the name index the final cache holds for its
      marker id, and ids already cached keep their index. */
  lemma {:induction false} MarkersNamedByCache(c: Cache, body: seq<Sample>)
    ensures var (c', ms) := Collect(c, body);
            var ids := Kept(MarkerIds(body), body);
            |ms| == |ids| &&
            forall j :: 0 <= j < |ms| ==> ids[j] in c'.ids && ms[j].nameIndex == c'.ids[ids[j]]
    decreases |body|
  {
    if body != [] {
      var n := |body| - 1;
      MarkersNamedByCache(c, body[..n]);
      assert MarkerIds(body)[..n] == MarkerIds(body[..n]);
    }
  }

  /** The same marker id gets the same name index in every thread of the
      run: the cache is carried from one thread to the next. */
  lemma SameIdSameIndex(c: Cache, body1: seq<Sample>, body2: seq<Sample>, j1: nat, j2: nat)
    requires j1 < |Kept(MarkerIds(body1), body1)| && j2 < |Kept(MarkerIds(body2), body2)|
    requires Kept(MarkerIds(body1), body1)[j1] == Kept(MarkerIds(body2), body2)[j2]
    ensures var ms1 := Collect(c, body1).1;
            var ms2 := Collect(Collect(c, body1).0, body2).1;
            j1 < |ms1| && j2 < |ms2| && ms1[j1].nameIndex == ms2[j2].nameIndex
  {
    MarkersNamedByCache(c, body1);
    MarkersNamedByCache(Collect(c, body1).0, body2);
  }

  /** The log entry for the first negative duration of the run, if this
      thread holds it. */
  function FirstErrorLog(firstError: bool, frameIndex: int, rec: ThreadRecord, body: seq<Sample>): seq<LogEntry> {
    if firstError && HasNegative(body) then [InvalidMarkerTime(body[FirstNegative(body)].name, frameIndex, rec.threadName)]
    else []
  }

  /** One more sample extends `Collect` by at most one marker. */
  lemma CollectSnoc(c: Cache, body: seq<Sample>, i: nat)
    requires i < |body|
    ensures var (c1, ms) := Collect(c, body[..i]);
            Collect(c, body[..i + 1]) ==
              if body[i].negativeDuration then (c1, ms)
              else
                var (c2, nameIndex) := ResolveMarker(c1, body[i]);
                (c2, ms + [Marker(nameIndex, |Replay([], Children(body[..i]))| + 1)])
  {
    assert body[..i + 1][..i] == body[..i];
  }

  /** One more sample: the first negative duration of the run is logged
      once, and only the first. */
  lemma ErrorSnoc(firstError: bool, frameIndex: int, rec: ThreadRecord, body: seq<Sample>, i: nat)
    requires i < |body|
    ensures HasNegative(body[..i + 1]) == (HasNegative(body[..i]) || body[i].negativeDuration)
    ensures FirstErrorLog(firstError, frameIndex, rec, body[..i + 1]) ==
              FirstErrorLog(firstError, frameIndex, rec, body[..i]) +
              if firstError && !HasNegative(body[..i]) && body[i].negativeDuration
              then [InvalidMarkerTime(body[i].name, frameIndex, rec.threadName)] else []
  {
    var p, q := body[..i], body[..i + 1];
    assert forall j :: 0 <= j < i ==> q[j] == p[j];
    assert q[i] == body[i];
    if HasNegative(p) {
      var k := FirstNegative(p);
      assert q[k].negativeDuration;
    } else if body[i].negativeDuration {
      assert q[i].negativeDuration;
    }
  }

  /** One more sample advances the depth stack by one step. */
  lemma StackSnoc(body: seq<Sample>, i: nat)
    requires i < |body|
    ensures Replay([], Children(body[..i + 1])) == Step(Replay([], Children(body[..i])), body[i].childrenCount)
  {
    ChildrenSnoc(body[..i + 1]);
    assert body[..i + 1][..i] == body[..i];
    Snoc([], Children(body[..i]), body[i].childrenCount);
  }

  /** The pop loop of lines 279-287, run after a sample without children. */
  method CloseStack(depthStack: seq<int>) returns (r: seq<int>)
    ensures r == Close(depthStack)
  {
    r := depthStack;
    while |r| > 0
      invariant Close(r) == Close(depthStack)
      decreases |r|
    {
      var current := r;
      var remainingChildren := r[|r| - 1];
      r := r[..|r| - 1];
      if remainingChildren > 1 {
        r := r + [remainingChildren - 1];
        assert r == Close(current);
        return;
      }
    }
  }

  /** Lines 257-267: the name index of a kept sample, through the
      marker-id cache. */
  method MarkerNameIndex(data: ProfileData, ids: map<int, nat>, sample: Sample) returns (nameIndex: nat, ids': map<int, nat>)
    requires data.Valid() && CacheValid(Cache(data.markerNames, ids))
    modifies data`markerNames
    ensures data.Valid()
    ensures (Cache(data.markerNames, ids'), nameIndex) == ResolveMarker(Cache(old(data.markerNames), ids), sample)
  {
    ids' := ids;
    if sample.markerId in ids {
      nameIndex := ids[sample.markerId];
    } else {
      nameIndex := data.AddMarkerName(sample.name);
      ids' := ids[sample.markerId := nameIndex];
    }
  }

  /** Everything the sample loop carries from one sample to the next. */
  datatype Reader = Reader(stack: seq<int>, cache: Cache, markers: seq<Marker>, firstError: bool, logged: seq<LogEntry>)

  /** The loop of lines 233-288, one sample at a time. */
  function Feed(st: Reader, frameIndex: int, threadName: string, s: Sample): Reader {
    var (cache, markers) :=
      if s.negativeDuration then (st.cache, st.markers)
      else
        var (c, nameIndex) := ResolveMarker(st.cache, s);
        (c, st.markers + [Marker(nameIndex, |st.stack| + 1)]);
    var logged :=
      if s.negativeDuration && st.firstError then st.logged + [InvalidMarkerTime(s.name, frameIndex, threadName)]
      else st.logged;
    Reader(Step(st.stack, s.childrenCount), cache, markers, st.firstError && !s.negativeDuration, logged)
  }

  function FeedAll(st: Reader, frameIndex: int, threadName: string, body: seq<Sample>): Reader
    decreases |body|
  {
    if body == [] then st
    else Feed(FeedAll(st, frameIndex, threadName, body[..|body| - 1]), frameIndex, threadName, body[|body| - 1])
  }

  lemma FeedAllSnoc(st: Reader, frameIndex: int, threadName: string, body: seq<Sample>, i: nat)
    requires i < |body|
    ensures FeedAll(st, frameIndex, threadName, body[..i + 1]) ==
            Feed(FeedAll(st, frameIndex, threadName, body[..i]), frameIndex, threadName, body[i])
  {
    assert body[..i + 1][..i] == body[..i];
  }

  /** Reading a thread's samples from a cleared stack gives the depths of
      `Replay`, the markers and cache of `Collect`, and the log entry of the
      first negative duration. */
  lemma {:induction false} FeedAllSpec(c: Cache, firstError: bool, frameIndex: int, rec: ThreadRecord, body: seq<Sample>)
    ensures FeedAll(Reader([], c, [], firstError, []), frameIndex, rec.threadName, body) ==
              Reader(Replay([], Children(body)), Collect(c, body).0, Collect(c, body).1,
                     firstError && !HasNegative(body), FirstErrorLog(firstError, frameIndex, rec, body))
    decreases |body|
  {
    if body != [] {
      var n := |body| - 1;
      assert body[..n + 1] == body;
      FeedAllSpec(c, firstError, frameIndex, rec, body[..n]);
      CollectSnoc(c, body, n);
      ErrorSnoc(firstError, frameIndex, rec, body, n);
      StackSnoc(body, n);
    }
  }

  /** One pass of the sample loop (lines 234-287). */
  method ReadSample(data: ProfileData, frameIndex: int, threadName: string, sample: Sample,
                    depthStack: seq<int>, ids: map<int, nat>, markers: seq<Marker>, firstError: bool, logged: seq<LogEntry>)
    returns (depthStack': seq<int>, ids': map<int, nat>, markers': seq<Marker>, firstError': bool, logged': seq<LogEntry>)
    requires data.Valid() && CacheValid(Cache(data.markerNames, ids))
    modifies data`markerNames
    ensures data.Valid() && CacheValid(Cache(data.markerNames, ids'))
    ensures Reader(depthStack', Cache(data.markerNames, ids'), markers', firstError', logged') ==
            Feed(Reader(depthStack, Cache(old(data.markerNames), ids), markers, firstError, logged), frameIndex, threadName, sample)
  {
    ids', markers', firstError', logged' := ids, markers, firstError, logged;
    if sample.negativeDuration {
      if firstError {
        logged' := logged + [InvalidMarkerTime(sample.name, frameIndex, threadName)];
        firstError' := false;
      }
    } else {
      var depth := 1 + |depthStack|;
      var nameIndex;
      nameIndex, ids' := MarkerNameIndex(data, ids, sample);
      markers' := markers + [Marker(nameIndex, depth)];
    }
    var childrenCount := sample.childrenCount;
    if childrenCount > 0 {
      depthStack' := depthStack + [childrenCount];
    } else {
      depthStack' := CloseStack(depthStack);
    }
  }

  /** The sample loop of lines 231-288 for one thread. */
  method ReadSamples(data: ProfileData, frameIndex: int, rec: ThreadRecord, ids: map<int, nat>, firstError: bool)
    returns (markers: seq<Marker>, ids': map<int, nat>, firstError': bool, logged: seq<LogEntry>)
    requires data.Valid() && CacheValid(Cache(data.markerNames, ids))
    modifies data`markerNames
    ensures data.Valid() && CacheValid(Cache(data.markerNames, ids'))
    ensures (Cache(data.markerNames, ids'), markers) == Collect(Cache(old(data.markerNames), ids), Body(rec))
    ensures firstError' == (firstError && !HasNegative(Body(rec)))
    ensures logged == FirstErrorLog(firstError, frameIndex, rec, Body(rec))
  {
    var body := Body(rec);
    ghost var c0 := Cache(data.markerNames, ids);
    ghost var start := Reader([], c0, [], firstError, []);
    var depthStack: seq<int> := [];
    markers, ids', firstError', logged := [], ids, firstError, [];
    var i := 0;
    while i < |body|
      invariant 0 <= i <= |body|
      invariant Reader(depthStack, Cache(data.markerNames, ids'), markers, firstError', logged) ==
                FeedAll(start, frameIndex, rec.threadName, body[..i])
      invariant data.Valid() && CacheValid(Cache(data.markerNames, ids'))
    {
      FeedAllSnoc(start, frameIndex, rec.threadName, body, i);
      depthStack, ids', markers, firstError', logged :=
        ReadSample(data, frameIndex, rec.threadName, body[i], depthStack, ids', markers, firstError', logged);
      i := i + 1;
    }
    assert body[..i] == body;
    FeedAllSpec(c0, firstError, frameIndex, rec, body);
  }

  // ---------------------------------------------------------------------
  // The whole run (lines 159-300)

  /** The state `GetDataRaw` carries across threads and frames: the trace
      being built, the marker-id cache, the thread-id mapping, the
      first-error flag and the log. */
  datatype ReadState = ReadState(
    markerNames: seq<string>,
    threadNames: seq<string>,
    frames: seq<Frame>,
    ids: map<int, nat>,
    threadIdMapping: map<nat, string>,
    firstError: bool,
    log: seq<LogEntry>)

  const Start := ReadState([], [], [], map[], map[], true, [])

  /** The frame added when thread 0 is read (lines 187-196): its timing is
      taken only from a valid view. */
  function NewFrame(v: ThreadRecord): Frame {
    if v.valid then Frame(v.msStartTime, v.msFrame, []) else Frame(0, 0, [])
  }

  /** One valid thread view (lines 201-288): named and read into the last
      frame, or skipped with a log line when it is unseen and unnamed. */
  function ReadThread(st: ReadState, counts: map<string, nat>, frameIndex: int, rec: ThreadRecord): (ReadState, map<string, nat>)
    requires |st.frames| > 0
  {
    var naming := ResolveThreadName(counts, st.threadIdMapping, rec);
    match naming.name
    case None => (st.(log := st.log + [UnnamedThread(frameIndex)]), counts)
    case Some(name) =>
      var (threadNames, threadNameIndex) := Intern(st.threadNames, name);
      var (cache, markers) := Collect(Cache(st.markerNames, st.ids), Body(rec));
      (ReadState(cache.names, threadNames, AppendThread(st.frames, Thread(threadNameIndex, markers)), cache.ids,
           naming.threadIdMapping, st.firstError && !HasNegative(Body(rec)),
           st.log + FirstErrorLog(st.firstError, frameIndex, rec, Body(rec))),
       naming.threadNameCount)
  }

  /** The threads of one frame from `threadIndex` on, up to the first
      invalid view. */
  function ReadThreads(st: ReadState, counts: map<string, nat>, cap: Capture, frameIndex: int, threadIndex: nat): ReadState
    requires |st.frames| > 0
    decreases ThreadCount(cap, frameIndex) - threadIndex
  {
    var rec := View(cap, frameIndex, threadIndex);
    if !rec.valid then st
    else
      var (st', counts') := ReadThread(st, counts, frameIndex, rec);
      ReadThreads(st', counts', cap, frameIndex, threadIndex + 1)
  }

  /** One frame: a new frame, then its threads with fresh per-frame name
      counts. */
  function ReadFrame(st: ReadState, cap: Capture, frameIndex: int): ReadState {
    ReadThreads(st.(frames := st.frames + [NewFrame(View(cap, frameIndex, 0))]), map[], cap, frameIndex, 0)
  }

  /** The frames `frameIndex..lastFrameIndex`, in order. */
  function ReadFrames(st: ReadState, cap: Capture, frameIndex: int, lastFrameIndex: int): ReadState
    decreases lastFrameIndex - frameIndex + 1
  {
    if frameIndex > lastFrameIndex then st
    else ReadFrames(ReadFrame(st, cap, frameIndex), cap, frameIndex + 1, lastFrameIndex)
  }

  /** Lines 198-288 for one valid thread view: an unseen thread with a
      blank name is logged and skipped (the `continue` of line 209);
      otherwise it is named, its samples are read and the thread is added
      to the last frame. */
  method ReadThreadView(data: ProfileData, frameIndex: int, frameData: ThreadRecord,
                        threadNameCount: map<string, nat>, threadIdMapping: map<nat, string>,
                        ids: map<int, nat>, firstError: bool, log: seq<LogEntry>)
    returns (threadNameCount': map<string, nat>, threadIdMapping': map<nat, string>,
             ids': map<int, nat>, firstError': bool, log': seq<LogEntry>)
    requires data.Valid() && CacheValid(Cache(data.markerNames, ids)) && |data.frames| > 0
    modifies data`markerNames, data`threadNames, data`frames
    ensures data.Valid() && CacheValid(Cache(data.markerNames, ids')) && |data.frames| > 0
    ensures (ReadState(data.markerNames, data.threadNames, data.frames, ids', threadIdMapping', firstError', log'), threadNameCount') ==
            ReadThread(ReadState(old(data.markerNames), old(data.threadNames), old(data.frames), ids, threadIdMapping, firstError, log),
                       threadNameCount, frameIndex, frameData)
  {
    var naming := ResolveThreadName(threadNameCount, threadIdMapping, frameData);
    if naming.name.None? {
      threadNameCount', threadIdMapping', ids', firstError' := threadNameCount, threadIdMapping, ids, firstError;
      log' := log + [UnnamedThread(frameIndex)];
      return;
    }
    threadNameCount', threadIdMapping' := naming.threadNameCount, naming.threadIdMapping;
    var threadNameIndex := data.AddThreadName(naming.name.value);
    var markers, logged;
    markers, ids', firstError', logged := ReadSamples(data, frameIndex, frameData, ids, firstError);
    log' := log + logged;
    data.AddThread(Thread(threadNameIndex, markers));
  }

  /** Lines 180-296: the thread loop of one frame. The frame is added
      while thread 0 is looked at; the loop ends at the first invalid view. */
  method ReadFrameViews(data: ProfileData, cap: Capture, frameIndex: int,
                        threadIdMapping: map<nat, string>, ids: map<int, nat>, firstError: bool, log: seq<LogEntry>)
    returns (threadIdMapping': map<nat, string>, ids': map<int, nat>, firstError': bool, log': seq<LogEntry>)
    requires data.Valid() && CacheValid(Cache(data.markerNames, ids))
    modifies data`markerNames, data`threadNames, data`frames
    ensures data.Valid() && CacheValid(Cache(data.markerNames, ids'))
    ensures ReadState(data.markerNames, data.threadNames, data.frames, ids', threadIdMapping', firstError', log') ==
            ReadFrame(ReadState(old(data.markerNames), old(data.threadNames), old(data.frames), ids, threadIdMapping, firstError, log), cap, frameIndex)
  {
    ghost var frameStart := ReadState(data.markerNames, data.threadNames, data.frames, ids, threadIdMapping, firstError, log);
    threadIdMapping', ids', firstError', log' := threadIdMapping, ids, firstError, log;
    var threadIndex := 0;
    var threadNameCount: map<string, nat> := map[];
    while true
      invariant data.Valid() && CacheValid(Cache(data.markerNames, ids'))
      invariant threadIndex <= ThreadCount(cap, frameIndex)
      invariant threadIndex == 0 ==>
                  ReadState(data.markerNames, data.threadNames, data.frames, ids', threadIdMapping', firstError', log') == frameStart &&
                  threadNameCount == map[]
      invariant threadIndex > 0 ==> |data.frames| > 0
      invariant threadIndex > 0 ==>
                  ReadThreads(ReadState(data.markerNames, data.threadNames, data.frames, ids', threadIdMapping', firstError', log'),
                              threadNameCount, cap, frameIndex, threadIndex) ==
                  ReadFrame(frameStart, cap, frameIndex)
      decreases ThreadCount(cap, frameIndex) - threadIndex
    {
      var frameData := View(cap, frameIndex, threadIndex);
      if threadIndex == 0 {
        data.Add(NewFrame(frameData));
      }
      if !frameData.valid {
        break;
      }
      threadNameCount, threadIdMapping', ids', firstError', log' :=
        ReadThreadView(data, frameIndex, frameData, threadNameCount, threadIdMapping', ids', firstError', log');
      threadIndex := threadIndex + 1;
    }
  }

  /** `GetDataRaw(firstFrameIndex, lastFrameIndex)` over a capture, with the
      lines it would log. */
  method GetDataRaw(cap: Capture, firstFrameIndex: int, lastFrameIndex: int) returns (data: ProfileData, log: seq<LogEntry>)
    ensures fresh(data) && data.Valid() && data.frameIndexOffset == firstFrameIndex
    ensures var r := ReadFrames(Start, cap, firstFrameIndex, lastFrameIndex);
            data.markerNames == r.markerNames && data.threadNames == r.threadNames &&
            data.frames == r.frames && log == r.log
  {
    var firstError := true;
    data := new ProfileData(firstFrameIndex);
    var threadIdMapping: map<nat, string> := map[];
    var markerIdToNameIndex: map<int, nat> := map[];
    log := [];
    var frameIndex := firstFrameIndex;
    while frameIndex <= lastFrameIndex
      invariant fresh(data) && data.Valid() && data.frameIndexOffset == firstFrameIndex
      invariant CacheValid(Cache(data.markerNames, markerIdToNameIndex))
      invariant ReadFrames(ReadState(data.markerNames, data.threadNames, data.frames, markerIdToNameIndex, threadIdMapping, firstError, log),
                           cap, frameIndex, lastFrameIndex) ==
                ReadFrames(Start, cap, firstFrameIndex, lastFrameIndex)
      decreases lastFrameIndex - frameIndex + 1
    {
      threadIdMapping, markerIdToNameIndex, firstError, log :=
        ReadFrameViews(data, cap, frameIndex, threadIdMapping, markerIdToNameIndex, firstError, log);
      frameIndex := frameIndex + 1;
    }
  }

  // ---------------------------------------------------------------------
  // Properties of the run

  /** Reading a frame's threads changes the frames' contents, not their
      number. */
  lemma {:induction false} ReadThreadsKeepsFrameCount(st: ReadState, counts: map<string, nat>, cap: Capture, frameIndex: int, threadIndex: nat)
    requires |st.frames| > 0
    ensures |ReadThreads(st, counts, cap, frameIndex, threadIndex).frames| == |st.frames|
    decreases ThreadCount(cap, frameIndex) - threadIndex
  {
    var rec := View(cap, frameIndex, threadIndex);
    if rec.valid {
      var (st', counts') := ReadThread(st, counts, frameIndex, rec);
      ReadThreadsKeepsFrameCount(st', counts', cap, frameIndex, threadIndex + 1);
    }
  }

  /** One frame per frame index of the range, whatever the capture holds:
      an index the profiler has no data for still gets an empty frame. */
  lemma {:induction false} FrameCount(st: ReadState, cap: Capture, frameIndex: int, lastFrameIndex: int)
    ensures |ReadFrames(st, cap, frameIndex, lastFrameIndex).frames| ==
            |st.frames| + if frameIndex <= lastFrameIndex then lastFrameIndex - frameIndex + 1 else 0
    decreases lastFrameIndex - frameIndex + 1
  {
    if frameIndex <= lastFrameIndex {
      var st1 := st.(frames := st.frames + [NewFrame(View(cap, frameIndex, 0))]);
      ReadThreadsKeepsFrameCount(st1, map[], cap, frameIndex, 0);
      FrameCount(ReadFrame(st, cap, frameIndex), cap, frameIndex + 1, lastFrameIndex);
    }
  }

  function InvalidMarkerCount(log: seq<LogEntry>): nat {
    if log == [] then 0
    else InvalidMarkerCount(log[..|log| - 1]) + (if log[|log| - 1].InvalidMarkerTime? then 1 else 0)
  }

  lemma {:induction false} InvalidMarkerCountAppend(a: seq<LogEntry>, b: seq<LogEntry>)
    ensures InvalidMarkerCount(a + b) == InvalidMarkerCount(a) + InvalidMarkerCount(b)
    decreases |b|
  {
    if b != [] {
      var n := |b| - 1;
      assert (a + b)[..|a + b| - 1] == a + b[..n];
      assert (a + b)[|a + b| - 1] == b[n];
      InvalidMarkerCountAppend(a, b[..n]);
    } else {
      assert a + b == a;
    }
  }

  /** The first-error flag is down exactly when one invalid-marker line has
      been logged. */
  predicate LogsFirstErrorOnce(st: ReadState) {
    InvalidMarkerCount(st.log) == if st.firstError then 0 else 1
  }

  lemma ReadThreadLogsFirstErrorOnce(st: ReadState, counts: map<string, nat>, frameIndex: int, rec: ThreadRecord)
    requires |st.frames| > 0 && LogsFirstErrorOnce(st)
    ensures LogsFirstErrorOnce(ReadThread(st, counts, frameIndex, rec).0)
  {
    var naming := ResolveThreadName(counts, st.threadIdMapping, rec);
    var extra := if naming.name.None? then [UnnamedThread(frameIndex)] else FirstErrorLog(st.firstError, frameIndex, rec, Body(rec));
    InvalidMarkerCountAppend(st.log, extra);
    assert InvalidMarkerCount(extra) == if extra != [] && extra[0].InvalidMarkerTime? then 1 else 0 by {
      assert extra == [] || extra[..0] == [];
    }
  }

  lemma {:induction false} ReadThreadsLogsFirstErrorOnce(st: ReadState, counts: map<string, nat>, cap: Capture, frameIndex: int, threadIndex: nat)
    requires |st.frames| > 0 && LogsFirstErrorOnce(st)
    ensures LogsFirstErrorOnce(ReadThreads(st, counts, cap, frameIndex, threadIndex))
    decreases ThreadCount(cap, frameIndex) - threadIndex
  {
    var rec := View(cap, frameIndex, threadIndex);
    if rec.valid {
      var (st', counts') := ReadThread(st, counts, frameIndex, rec);
      ReadThreadLogsFirstErrorOnce(st, counts, frameIndex, rec);
      ReadThreadsLogsFirstErrorOnce(st', counts', cap, frameIndex, threadIndex + 1);
    }
  }

  lemma {:induction false} ReadFramesLogsFirstErrorOnce(st: ReadState, cap: Capture, frameIndex: int, lastFrameIndex: int)
    requires LogsFirstErrorOnce(st)
    ensures LogsFirstErrorOnce(ReadFrames(st, cap, frameIndex, lastFrameIndex))
    decreases lastFrameIndex - frameIndex + 1
  {
    if frameIndex <= lastFrameIndex {
      var st1 := st.(frames := st.frames + [NewFrame(View(cap, frameIndex, 0))]);
      ReadThreadsLogsFirstErrorOnce(st1, map[], cap, frameIndex, 0);
      ReadFramesLogsFirstErrorOnce(ReadFrame(st, cap, frameIndex), cap, frameIndex + 1, lastFrameIndex);
    }
  }

  /** A whole run logs at most one invalid marker time: only the first
      negative duration of the run is reported. */
  lemma AtMostOneInvalidMarkerLine(cap: Capture, firstFrameIndex: int, lastFrameIndex: int)
    ensures InvalidMarkerCount(ReadFrames(Start, cap, firstFrameIndex, lastFrameIndex).log) <= 1
  {
    ReadFramesLogsFirstErrorOnce(Start, cap, firstFrameIndex, lastFrameIndex);
  }

  /** `m'` keeps every display name of `m`. */
  predicate KeepsNames(m': map<nat, string>, m: map<nat, string>) {
    forall id :: id in m ==> id in m' && m'[id] == m[id]
  }

  /** One thread only adds to the thread-id mapping. */
  lemma ReadThreadKeepsNames(st: ReadState, counts: map<string, nat>, frameIndex: int, rec: ThreadRecord)
    requires |st.frames| > 0
    ensures KeepsNames(ReadThread(st, counts, frameIndex, rec).0.threadIdMapping, st.threadIdMapping)
  {
    var naming := ResolveThreadName(counts, st.threadIdMapping, rec);
    assert ReadThread(st, counts, frameIndex, rec).0.threadIdMapping == naming.threadIdMapping;
    assert KeepsNames(naming.threadIdMapping, st.threadIdMapping);
  }

  lemma {:induction false} ReadThreadsKeepsNames(st: ReadState, counts: map<string, nat>, cap: Capture, frameIndex: int, threadIndex: nat)
    requires |st.frames| > 0
    ensures KeepsNames(ReadThreads(st, counts, cap, frameIndex, threadIndex).threadIdMapping, st.threadIdMapping)
    decreases ThreadCount(cap, frameIndex) - threadIndex
  {
    var rec := View(cap, frameIndex, threadIndex);
    if rec.valid {
      var (st', counts') := ReadThread(st, counts, frameIndex, rec);
      ReadThreadKeepsNames(st, counts, frameIndex, rec);
      ReadThreadsKeepsNames(st', counts', cap, frameIndex, threadIndex + 1);
      KeepsNamesTrans(ReadThreads(st', counts', cap, frameIndex, threadIndex + 1).threadIdMapping,
                      st'.threadIdMapping, st.threadIdMapping);
    }
  }

  lemma KeepsNamesTrans(m'': map<nat, string>, m': map<nat, string>, m: map<nat, string>)
    requires KeepsNames(m'', m') && KeepsNames(m', m)
    ensures KeepsNames(m'', m)
  {
  }

  /** Reading one thread never lowers a per-frame name count, which is what
      `NewThreadsGetDistinctNames` asks of the counts between two threads
      of a frame. */
  lemma ReadThreadCountsGrow(st: ReadState, counts: map<string, nat>, frameIndex: int, rec: ThreadRecord)
    requires |st.frames| > 0
    ensures var counts' := ReadThread(st, counts, frameIndex, rec).1;
            forall c :: c in counts ==> c in counts' && counts'[c] >= counts[c]
  {
    var naming := ResolveThreadName(counts, st.threadIdMapping, rec);
    assert ReadThread(st, counts, frameIndex, rec).1 == naming.threadNameCount;
  }

  /** One thread only adds to the marker-name table and the marker-id cache. */
  lemma ReadThreadExtendsCache(st: ReadState, counts: map<string, nat>, frameIndex: int, rec: ThreadRecord)
    requires |st.frames| > 0
    ensures var r := ReadThread(st, counts, frameIndex, rec).0;
            Extends(Cache(r.markerNames, r.ids), Cache(st.markerNames, st.ids))
  {
    assert st.markerNames[..|st.markerNames|] == st.markerNames;
  }

  lemma {:induction false} ReadThreadsExtendsCache(st: ReadState, counts: map<string, nat>, cap: Capture, frameIndex: int, threadIndex: nat)
    requires |st.frames| > 0
    ensures var r := ReadThreads(st, counts, cap, frameIndex, threadIndex);
            Extends(Cache(r.markerNames, r.ids), Cache(st.markerNames, st.ids))
    decreases ThreadCount(cap, frameIndex) - threadIndex
  {
    var rec := View(cap, frameIndex, threadIndex);
    if rec.valid {
      var (st', counts') := ReadThread(st, counts, frameIndex, rec);
      ReadThreadExtendsCache(st, counts, frameIndex, rec);
      ReadThreadsExtendsCache(st', counts', cap, frameIndex, threadIndex + 1);
      var r := ReadThreads(st', counts', cap, frameIndex, threadIndex + 1);
      ExtendsTrans(Cache(r.markerNames, r.ids), Cache(st'.markerNames, st'.ids), Cache(st.markerNames, st.ids));
    } else {
      assert st.markerNames[..|st.markerNames|] == st.markerNames;
    }
  }

  /** The marker-id cache is carried through the whole run and only grows:
      an id keeps the name index it was first given in every later frame
      and thread, and its name keeps its place in the table. With
      `MarkersNamedByCache`, every marker of a given id in the run carries
      the same name index. */
  lemma {:induction false} ReadFramesExtendsCache(st: ReadState, cap: Capture, frameIndex: int, lastFrameIndex: int)
    ensures var r := ReadFrames(st, cap, frameIndex, lastFrameIndex);
            Extends(Cache(r.markerNames, r.ids), Cache(st.markerNames, st.ids))
    decreases lastFrameIndex - frameIndex + 1
  {
    if frameIndex <= lastFrameIndex {
      var st1 := st.(frames := st.frames + [NewFrame(View(cap, frameIndex, 0))]);
      ReadThreadsExtendsCache(st1, map[], cap, frameIndex, 0);
      var st2 := ReadFrame(st, cap, frameIndex);
      ReadFramesExtendsCache(st2, cap, frameIndex + 1, lastFrameIndex);
      var r := ReadFrames(st2, cap, frameIndex + 1, lastFrameIndex);
      ExtendsTrans(Cache(r.markerNames, r.ids), Cache(st2.markerNames, st2.ids), Cache(st.markerNames, st.ids));
    } else {
      assert st.markerNames[..|st.markerNames|] == st.markerNames;
    }
  }

  /** A thread keeps the display name it was first given for the rest of
      the run, in every later frame. */
  lemma {:induction false} ThreadNamesAreStable(st: ReadState, cap: Capture, frameIndex: int, lastFrameIndex: int)
    ensures KeepsNames(ReadFrames(st, cap, frameIndex, lastFrameIndex).threadIdMapping, st.threadIdMapping)
    decreases lastFrameIndex - frameIndex + 1
  {
    if frameIndex <= lastFrameIndex {
      var st1 := st.(frames := st.frames + [NewFrame(View(cap, frameIndex, 0))]);
      ReadThreadsKeepsNames(st1, map[], cap, frameIndex, 0);
      ThreadNamesAreStable(ReadFrame(st, cap, frameIndex), cap, frameIndex + 1, lastFrameIndex);
    }
  }
}
