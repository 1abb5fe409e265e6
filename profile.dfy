/** The in-memory trace model that `GetDataRaw` fills (FindCallsFrom.cs,
    lines 164-269): frames of threads of markers, plus the name tables.
    `ProfileData`, `ProfileFrame`, `ProfileThread` and `ProfileMarker` are
    not part of this model's source files; they are modelled by what the
    analysis uses of them. A frame and a thread are values here: the source
    adds a frame (thread) to its parent before filling it, through a shared
    reference, and nothing reads it in between, so appending the finished
    value gives the same trace. */
module Profile {
  import opened Text

  /** One kept sample: the index of its name in `markerNames` and its
      reconstructed depth (1 = top level). Durations are not modelled. */
  datatype Marker = Marker(nameIndex: nat, depth: nat)

  /** One thread's capture in one frame: the index of its display name in
      `threadNames` and its markers in depth-first order. */
  datatype Thread = Thread(nameIndex: nat, markers: seq<Marker>)

  /** One frame. The start time and frame time are opaque numbers standing
      for the source's floating-point milliseconds. */
  datatype Frame = Frame(msStartTime: int, msFrame: int, threads: seq<Thread>)

  /** Position of the first `name` in `names`, or `|names|`. */
  function Find(names: seq<string>, name: string): (k: nat)
    ensures k <= |names|
    ensures k < |names| ==> names[k] == name
    ensures forall j :: 0 <= j < k ==> names[j] != name
  {
    if names == [] then 0 else if names[0] == name then 0 else 1 + Find(names[1..], name)
  }

  /** The name interner behind `AddMarkerName` and `AddThreadName`: a name
      seen before gets its first index back, a new name is appended and
      gets the next index. */
  function Intern(names: seq<string>, name: string): (r: (seq<string>, nat))
    ensures r.1 < |r.0| && r.0[r.1] == name
    ensures forall j :: 0 <= j < r.1 ==> r.0[j] != name
    ensures name in names ==> r.0 == names
    ensures name !in names ==> r.0 == names + [name] && r.1 == |names|
    ensures NoDup(names) ==> NoDup(r.0)
  {
    var k := Find(names, name);
    if k < |names| then (names, k) else (names + [name], |names|)
  }

  /** Interning is idempotent and never renumbers: interning a name again
      gives the same index and leaves the table as it is, and the names
      interned before keep their indices. */
  lemma {:induction false} InternStable(names: seq<string>, a: string, b: string)
    ensures Intern(Intern(names, a).0, a) == Intern(names, a)
    ensures var t := Intern(names, a).0;
            |names| <= |t| && t[..|names|] == names &&
            (b in names ==> Intern(t, b).1 == Intern(names, b).1)
  {
    var t := Intern(names, a).0;
    assert t[..|names|] == names;
    if b in names {
      var k := Intern(names, b).1;
      assert t[k] == b;
    }
  }

  predicate MarkersWellFormed(ms: seq<Marker>, nMarkerNames: nat) {
    forall m :: m in ms ==> m.nameIndex < nMarkerNames && m.depth >= 1
  }

  predicate ThreadWellFormed(t: Thread, nMarkerNames: nat, nThreadNames: nat) {
    t.nameIndex < nThreadNames && MarkersWellFormed(t.markers, nMarkerNames)
  }

  predicate FrameWellFormed(f: Frame, nMarkerNames: nat, nThreadNames: nat) {
    forall t :: t in f.threads ==> ThreadWellFormed(t, nMarkerNames, nThreadNames)
  }

  predicate FramesWellFormed(fs: seq<Frame>, nMarkerNames: nat, nThreadNames: nat) {
    forall f :: f in fs ==> FrameWellFormed(f, nMarkerNames, nThreadNames)
  }

  /** `frames` with `t` added to the threads of the last frame. */
  function AppendThread(frames: seq<Frame>, t: Thread): (r: seq<Frame>)
    requires |frames| > 0
    ensures |r| == |frames| && r[..|r| - 1] == frames[..|frames| - 1]
    ensures r[|r| - 1].threads == frames[|frames| - 1].threads + [t]
    ensures r[|r| - 1].msStartTime == frames[|frames| - 1].msStartTime
    ensures r[|r| - 1].msFrame == frames[|frames| - 1].msFrame
  {
    var last := frames[|frames| - 1];
    frames[..|frames| - 1] + [last.(threads := last.threads + [t])]
  }

  /** The trace: frames, the marker-name and thread-name tables and the
      index of the first frame. */
  class ProfileData {
    var frameIndexOffset: int
    var markerNames: seq<string>
    var threadNames: seq<string>
    var frames: seq<Frame>

    /** Names are interned (no duplicates) and every index stored in the
        frames refers to an entry of its table; every depth is at least 1. */
    ghost predicate Valid()
      reads this
    {
      NoDup(markerNames) && NoDup(threadNames) &&
      FramesWellFormed(frames, |markerNames|, |threadNames|)
    }

    /** `new ProfileData()` followed by `SetFrameIndexOffset(offset)`. */
    constructor (offset: int)
      ensures Valid()
      ensures frameIndexOffset == offset && markerNames == [] && threadNames == [] && frames == []
    {
      frameIndexOffset := offset;
      markerNames := [];
      threadNames := [];
      frames := [];
    }

    /** `AddMarkerName`: the index of `name` in the marker-name table, which
        gets `name` appended when it is new. */
    method AddMarkerName(name: string) returns (nameIndex: nat)
      requires Valid()
      modifies this`markerNames
      ensures Valid()
      ensures nameIndex < |markerNames| && markerNames[nameIndex] == name
      ensures (markerNames, nameIndex) == Intern(old(markerNames), name)
    {
      var k := Find(markerNames, name);
      if k < |markerNames| {
        nameIndex := k;
      } else {
        markerNames := markerNames + [name];
        nameIndex := |markerNames| - 1;
      }
    }

    /** `AddThreadName`: the same interning, for display names of threads. */
    method AddThreadName(name: string) returns (threadIndex: nat)
      requires Valid()
      modifies this`threadNames
      ensures Valid()
      ensures threadIndex < |threadNames| && threadNames[threadIndex] == name
      ensures (threadNames, threadIndex) == Intern(old(threadNames), name)
    {
      var k := Find(threadNames, name);
      if k < |threadNames| {
        threadIndex := k;
      } else {
        threadNames := threadNames + [name];
        threadIndex := |threadNames| - 1;
      }
    }

    /** `data.Add(frame)`. */
    method Add(frame: Frame)
      requires Valid() && FrameWellFormed(frame, |markerNames|, |threadNames|)
      modifies this`frames
      ensures Valid()
      ensures frames == old(frames) + [frame]
    {
      frames := frames + [frame];
    }

    /** `frame.Add(thread)` on the frame added last. */
    method AddThread(thread: Thread)
      requires Valid() && |frames| > 0 && ThreadWellFormed(thread, |markerNames|, |threadNames|)
      modifies this`frames
      ensures Valid()
      ensures frames == AppendThread(old(frames), thread)
    {
      var last := frames[|frames| - 1];
      var last' := last.(threads := last.threads + [thread]);
      assert FrameWellFormed(last', |markerNames|, |threadNames|) by {
        assert FrameWellFormed(last, |markerNames|, |threadNames|);
      }
      assert forall f :: f in frames[..|frames| - 1] ==> f in frames;
      frames := frames[..|frames| - 1] + [last'];
    }
  }
}
