/** What the profiler hands to `GetDataRaw` (FindCallsFrom.cs, lines
    182-272), as a pre-materialised value. `ProfilerDriver` and
    `RawFrameDataView` are not part of this model: a capture is the driver's
    first and last frame index and, per frame index, the views of its
    threads in thread-index order. */
module Capture {

  /** One raw sample. Only the sign of its duration is kept. */
  datatype Sample = Sample(markerId: int, name: string, negativeDuration: bool, childrenCount: int)

  /** `RawFrameDataView` of one thread in one frame. `samples[0]` is the
      placeholder sample carrying the thread's name. */
  datatype ThreadRecord = ThreadRecord(
    valid: bool,
    threadId: nat,
    threadName: string,
    threadGroupName: string,
    msStartTime: int,
    msFrame: int,
    samples: seq<Sample>)

  datatype Capture = Capture(firstFrameIndex: int, lastFrameIndex: int, frames: map<int, seq<ThreadRecord>>)

  /** The view the driver reports when there is no such frame or thread. */
  const Invalid := ThreadRecord(false, 0, "", "", 0, 0, [])

  /** Number of thread views the capture holds for `frameIndex`. */
  function ThreadCount(cap: Capture, frameIndex: int): nat {
    if frameIndex in cap.frames then |cap.frames[frameIndex]| else 0
  }

  /** `ProfilerDriver.GetRawFrameDataView(frameIndex, threadIndex)`: past the
      last thread of a frame, or for a frame not captured, the view is
      invalid. */
  function View(cap: Capture, frameIndex: int, threadIndex: nat): (r: ThreadRecord)
    ensures threadIndex >= ThreadCount(cap, frameIndex) ==> !r.valid
  {
    if threadIndex < ThreadCount(cap, frameIndex) then cap.frames[frameIndex][threadIndex] else Invalid
  }

  /** The samples after the thread-name placeholder (the loop of line 233
      starts at 1). */
  function Body(rec: ThreadRecord): (b: seq<Sample>)
    ensures |b| == if |rec.samples| == 0 then 0 else |rec.samples| - 1
    ensures |rec.samples| > 0 ==> [rec.samples[0]] + b == rec.samples
  {
    if |rec.samples| == 0 then [] else rec.samples[1..]
  }

  /** The children counts of a run of samples, in order. */
  function Children(body: seq<Sample>): (cs: seq<int>)
    ensures |cs| == |body|
    ensures forall i :: 0 <= i < |body| ==> cs[i] == body[i].childrenCount
  {
    seq(|body|, i requires 0 <= i < |body| => body[i].childrenCount)
  }
}
